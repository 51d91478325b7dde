/** The audio ring with its samples: which samples are written where, and what the speaker plays, over
    every interleaving of producer, consumer and speaker. */
module AudioRing {
  import opened RingControl

  type Sample = x: int | -32768 <= x <= 32767

  /** The nearest 16-bit value. */
  function Clamped(v: int): (c: Sample)
    ensures -32768 <= v <= 32767 ==> c == v
    ensures v > 32767 ==> c == 32767
    ensures v < -32768 ==> c == -32768
  {
    if v > 32767 then 32767 else if v < -32768 then -32768 else v
  }

  /** Software gain of 3, saturating at 16 bits. */
  function Gain(v: Sample): Sample {
    var w: int := v;
    Clamped(3 * w)
  }

  function Louder(b: seq<Sample>): seq<Sample> { seq(|b|, i requires 0 <= i < |b| => Gain(b[i])) }

  /** The eight buffers; what was stored so far, as full buffers and the one being filled; and the
      buffers the speaker has played to the end. No step reads the last three. */
  datatype Ring = Ring(ctl: Control, audio: seq<seq<Sample>>,
                       full: seq<seq<Sample>>, partial: seq<Sample>, heard: seq<seq<Sample>>)

  /** A step of the producer (which may be about to store `sample`), the consumer or the speaker. */
  datatype Step = ByProducer(sample: Sample) | ByConsumer | BySpeaker

  ghost predicate SamplesShaped(r: Ring) {
    |r.audio| == NBUF && forall i | 0 <= i < NBUF :: |r.audio[i]| == SAMPLES
  }

  function Store(r: Ring, v: Sample): Ring
    requires SamplesShaped(r) && r.ctl.p.fillIdx < NBUF && r.ctl.p.fillPos < SAMPLES
  {
    var i, pos := r.ctl.p.fillIdx, r.ctl.p.fillPos;
    var b: seq<Sample> := r.audio[i][..pos] + [v] + r.audio[i][pos + 1..];
    var stored := r.partial + [v];
    Ring(WriteStep(r.ctl), r.audio[i := b],
         if pos + 1 == SAMPLES then r.full + [stored] else r.full,
         if pos + 1 == SAMPLES then [] else stored, r.heard)
  }

  function Next(r: Ring, step: Step): Ring
    requires Inv(r) && (step.BySpeaker? ==> r.ctl.sp.held != [])
  {
    match step
    case ByProducer(v) =>
      if r.ctl.p.at == Write then Store(r, v) else r.(ctl := Produce(r.ctl))
    case ByConsumer =>
      if r.ctl.c.at == Amplify then
        r.(ctl := Consume(r.ctl), audio := r.audio[r.ctl.c.playIdx := Louder(r.audio[r.ctl.c.playIdx])])
      else r.(ctl := Consume(r.ctl))
    case BySpeaker =>
      r.(ctl := Finish(r.ctl), heard := r.heard + [r.audio[r.ctl.sp.held[0]]])
  }

  // ---------- the invariant ----------

  ghost predicate Holds(r: Ring, k: nat)
    requires |r.audio| == NBUF && k < |r.full|
  {
    r.audio[Slot(k)] == if k < Amplified(r.ctl) then Louder(r.full[k]) else r.full[k]
  }

  /** Filled buffers hold their block, amplified once it is about to be played, until it has been played. */
  ghost predicate Blocks(r: Ring)
    requires |r.audio| == NBUF
  {
    && |r.full| == Filled(r.ctl) && (forall k | 0 <= k < |r.full| :: |r.full[k]| == SAMPLES)
    && (forall k: nat | r.ctl.sp.finished <= k < |r.full| :: Holds(r, k))
  }

  ghost predicate Tail(r: Ring)
    requires SamplesShaped(r) && r.ctl.p.fillIdx < NBUF
  {
    if r.ctl.p.fillPos == SAMPLES then r.partial == []
    else r.ctl.p.fillPos < SAMPLES && r.partial == r.audio[r.ctl.p.fillIdx][..r.ctl.p.fillPos]
  }

  ghost predicate Heard(r: Ring) {
    |r.heard| == r.ctl.sp.finished <= |r.full| && forall k | 0 <= k < |r.heard| :: r.heard[k] == Louder(r.full[k])
  }

  ghost predicate Inv(r: Ring) {
    RingControl.Inv(r.ctl) && SamplesShaped(r) && Blocks(r) && Tail(r) && Heard(r)
  }

  lemma StartInv(audio: seq<seq<Sample>>)
    requires |audio| == NBUF && forall i | 0 <= i < NBUF :: |audio[i]| == SAMPLES
    ensures Inv(Ring(INIT, audio, [], [], []))
  {
    InitInv();
  }

  /** Blocks stay where they are while no sample changes. */
  lemma BlocksStay(r: Ring, n: Ring)
    requires |r.audio| == NBUF && Blocks(r) && n.audio == r.audio && n.full == r.full
    requires Filled(n.ctl) == Filled(r.ctl) && Amplified(n.ctl) == Amplified(r.ctl)
             && n.ctl.sp.finished >= r.ctl.sp.finished
    ensures Blocks(n)
  {
    forall k: nat | n.ctl.sp.finished <= k < |n.full| ensures Holds(n, k) { assert Holds(r, k); }
  }

  /** The block being filled is in its buffer up to the position. */
  lemma StoreKeepsTail(r: Ring, v: Sample)
    requires SamplesShaped(r) && r.ctl.p.fillIdx < NBUF && r.ctl.p.fillPos < SAMPLES && Tail(r)
    ensures var n := Store(r, v);
      && SamplesShaped(n) && Tail(n)
      && n.audio[r.ctl.p.fillIdx][..r.ctl.p.fillPos + 1] == r.partial + [v]
  {
    var n := Store(r, v);
    assert n.audio[r.ctl.p.fillIdx][..r.ctl.p.fillPos + 1] == r.partial + [v];
  }

  lemma StoreKeepsBlocks(r: Ring, v: Sample)
    requires RingControl.Inv(r.ctl) && SamplesShaped(r) && Blocks(r) && Tail(r) && r.ctl.p.at == Write
    ensures Blocks(Store(r, v))
  {
    StoreKeepsTail(r, v);
    var n := Store(r, v);
    forall k: nat | r.ctl.sp.finished <= k < |r.full| ensures Holds(n, k) {
      SlotsDiffer(k, r.ctl.p.published);
      assert Holds(r, k);
    }
    if r.ctl.p.fillPos + 1 == SAMPLES {
      var b := n.audio[r.ctl.p.fillIdx];
      assert b[..SAMPLES] == b;
      assert Holds(n, r.ctl.p.published);
    }
  }

  lemma StoreKeepsInv(r: Ring, v: Sample)
    requires Inv(r) && r.ctl.p.at == Write
    ensures Inv(Store(r, v))
  {
    WriteKeepsInv(r.ctl);
    StoreKeepsTail(r, v);
    StoreKeepsBlocks(r, v);
  }

  lemma ProduceFacts(c: Control)
    requires Shaped(c) && c.p.at != Write
    ensures var n := Produce(c);
      && Filled(n) == Filled(c) && Amplified(n) == Amplified(c) && n.sp == c.sp && n.c == c.c
      && if c.p.at == Advance then n.p.fillPos == 0 && n.p.fillIdx < NBUF
         else n.p.fillPos == c.p.fillPos && n.p.fillIdx == c.p.fillIdx
  {
  }

  lemma ProducerKeepsInv(r: Ring, v: Sample)
    requires Inv(r)
    ensures Inv(Next(r, ByProducer(v)))
  {
    if r.ctl.p.at == Write {
      StoreKeepsInv(r, v);
    } else {
      ProduceKeepsInv(r.ctl);
      ProduceFacts(r.ctl);
      BlocksStay(r, r.(ctl := Produce(r.ctl)));
    }
  }

  lemma AmplifyKeepsBlocks(r: Ring)
    requires RingControl.Inv(r.ctl) && SamplesShaped(r) && Blocks(r) && r.ctl.c.at == Amplify
    ensures Blocks(r.(ctl := Consume(r.ctl), audio := r.audio[r.ctl.c.playIdx := Louder(r.audio[r.ctl.c.playIdx])]))
  {
    var s := r.ctl.c.started;
    var n := r.(ctl := Consume(r.ctl), audio := r.audio[r.ctl.c.playIdx := Louder(r.audio[r.ctl.c.playIdx])]);
    forall k: nat | r.ctl.sp.finished <= k < |r.full| ensures Holds(n, k) {
      if k < s { SlotsDiffer(k, s); } else if k > s { SlotsDiffer(s, k); }
      assert Holds(r, k);
    }
  }

  /** The buffer that is amplified is not the one being filled. */
  lemma AmplifiesElsewhere(c: Control)
    requires Counts(c) && c.c.at == Amplify
    ensures c.c.playIdx != c.p.fillIdx || c.p.fillPos in {0, SAMPLES}
  {
    if c.c.started < c.p.published < c.c.started + NBUF { SlotsDiffer(c.c.started, c.p.published); }
  }

  lemma AmplifyKeepsRing(r: Ring)
    requires Inv(r) && r.ctl.c.at == Amplify
    ensures Inv(Next(r, ByConsumer))
  {
    ConsumeKeepsInv(r.ctl);
    AmplifyKeepsBlocks(r);
    AmplifiesElsewhere(r.ctl);
  }

  lemma ConsumeFacts(c: Control)
    requires Shaped(c) && (c.c.at == Mark ==> c.c.qn < 2) && c.c.at != Amplify
    ensures var n := Consume(c); Amplified(n) == Amplified(c) && n.p == c.p && n.sp.finished == c.sp.finished
  {
  }

  lemma ConsumerKeepsInv(r: Ring)
    requires Inv(r)
    ensures Inv(Next(r, ByConsumer))
  {
    if r.ctl.c.at == Amplify {
      AmplifyKeepsRing(r);
    } else {
      ConsumeKeepsInv(r.ctl);
      ConsumeFacts(r.ctl);
      BlocksStay(r, r.(ctl := Consume(r.ctl)));
    }
  }

  lemma FinishKeepsHeard(r: Ring)
    requires Counts(r.ctl) && SamplesShaped(r) && Blocks(r) && Heard(r) && r.ctl.sp.held != []
    ensures Heard(r.(ctl := Finish(r.ctl), heard := r.heard + [r.audio[r.ctl.sp.held[0]]]))
  {
    assert Holds(r, r.ctl.sp.finished);
  }

  lemma SpeakerKeepsInv(r: Ring)
    requires Inv(r) && r.ctl.sp.held != []
    ensures Inv(Next(r, BySpeaker))
  {
    FinishKeepsInv(r.ctl);
    FinishKeepsHeard(r);
    BlocksStay(r, Next(r, BySpeaker));
  }

  // ---------- every run ----------

  ghost predicate Possible(r: Ring, step: Step) { step.BySpeaker? ==> r.ctl.sp.held != [] }

  lemma NextKeepsInv(r: Ring, step: Step)
    requires Inv(r) && Possible(r, step)
    ensures Inv(Next(r, step))
  {
    match step
    case ByProducer(v) => ProducerKeepsInv(r, v);
    case ByConsumer => ConsumerKeepsInv(r);
    case BySpeaker => SpeakerKeepsInv(r);
  }

  /** Runs the steps in order; the speaker has nothing to finish while it holds no buffer. */
  ghost function Run(r: Ring, steps: seq<Step>): Ring
    requires Inv(r)
    decreases |steps|
  {
    if steps == [] then r
    else if !Possible(r, steps[0]) then Run(r, steps[1..])
    else
      NextKeepsInv(r, steps[0]);
      Run(Next(r, steps[0]), steps[1..])
  }

  lemma {:induction false} RunKeepsInv(r: Ring, steps: seq<Step>)
    requires Inv(r)
    ensures Inv(Run(r, steps))
    decreases |steps|
  {
    if steps != [] {
      if Possible(r, steps[0]) { NextKeepsInv(r, steps[0]); }
      RunKeepsInv(if Possible(r, steps[0]) then Next(r, steps[0]) else r, steps[1..]);
    }
  }

  lemma {:induction false} RunStep(r: Ring, steps: seq<Step>, step: Step)
    requires Inv(r) && Inv(Run(r, steps)) && Possible(Run(r, steps), step)
    ensures Run(r, steps + [step]) == Next(Run(r, steps), step)
    decreases |steps|
  {
    if steps == [] {
      assert [] + [step] == [step] && [step][1..] == [];
    } else {
      assert (steps + [step])[0] == steps[0] && (steps + [step])[1..] == steps[1..] + [step];
      if Possible(r, steps[0]) { NextKeepsInv(r, steps[0]); }
      RunStep(if Possible(r, steps[0]) then Next(r, steps[0]) else r, steps[1..], step);
    }
  }

  /** From a to b by these steps. */
  ghost predicate Ran(a: Ring, steps: seq<Step>, b: Ring) { Inv(a) && b == Run(a, steps) }

  lemma RanKeepsInv(a: Ring, steps: seq<Step>, b: Ring)
    requires Ran(a, steps, b)
    ensures Inv(b)
  {
    RunKeepsInv(a, steps);
  }

  lemma RanMore(a: Ring, steps: seq<Step>, b: Ring, step: Step)
    requires Ran(a, steps, b) && Inv(b) && Possible(b, step)
    ensures Ran(a, steps + [step], Next(b, step))
  {
    RunStep(a, steps, step);
  }

  ghost predicate AllByProducer(steps: seq<Step>) { forall i | 0 <= i < |steps| :: steps[i].ByProducer? }

  ghost predicate AllByConsumer(steps: seq<Step>) { forall i | 0 <= i < |steps| :: steps[i] == ByConsumer }

  // ---------- what it means ----------

  function Concat(blocks: seq<seq<Sample>>): seq<Sample> {
    if blocks == [] then [] else Concat(blocks[..|blocks|-1]) + blocks[|blocks|-1]
  }

  /** Every sample stored so far, in order. */
  function Accepted(r: Ring): seq<Sample> { Concat(r.full) + r.partial }

  /** Only a producer step that finds room adds to the accepted samples, and it adds exactly its own. */
  lemma AcceptedGrows(r: Ring, step: Step)
    requires Inv(r) && Possible(r, step)
    ensures Accepted(Next(r, step)) ==
            if step.ByProducer? && r.ctl.p.at == Write then Accepted(r) + [step.sample] else Accepted(r)
  {
    if step.ByProducer? && r.ctl.p.at == Write && r.ctl.p.fillPos + 1 == SAMPLES {
      var stored := r.partial + [step.sample];
      assert (r.full + [stored])[..|r.full|] == r.full;
    }
  }

  lemma LouderConcat(a: seq<Sample>, b: seq<Sample>)
    ensures Louder(a + b) == Louder(a) + Louder(b)
  {
  }

  lemma {:induction false} HeardPrefix(full: seq<seq<Sample>>, heard: seq<seq<Sample>>, n: nat)
    requires n <= |heard| <= |full| && forall k | 0 <= k < |heard| :: heard[k] == Louder(full[k])
    ensures Concat(heard[..n]) == Louder(Concat(full[..n]))
  {
    if n > 0 {
      HeardPrefix(full, heard, n - 1);
      assert heard[..n][..n-1] == heard[..n-1] && full[..n][..n-1] == full[..n-1];
      LouderConcat(Concat(full[..n-1]), full[n-1]);
    }
  }

  lemma {:induction false} ConcatPrefix(blocks: seq<seq<Sample>>, n: nat)
    requires n <= |blocks|
    ensures Concat(blocks[..n]) <= Concat(blocks)
    decreases |blocks| - n
  {
    if n < |blocks| {
      assert blocks[..n+1][..n] == blocks[..n];
      ConcatPrefix(blocks, n + 1);
    } else {
      assert blocks[..n] == blocks;
    }
  }

  /** In every reachable ring, what was heard is the amplified beginning of what was accepted: nothing
      lost, repeated, reordered or overwritten. */
  lemma HeardIsPrefixOfAccepted(audio: seq<seq<Sample>>, steps: seq<Step>)
    requires |audio| == NBUF && forall i | 0 <= i < NBUF :: |audio[i]| == SAMPLES
    ensures Inv(Ring(INIT, audio, [], [], []))
    ensures var r := Run(Ring(INIT, audio, [], [], []), steps);
      && Concat(r.heard) <= Louder(Accepted(r))
      && forall i | 0 <= i < |Concat(r.heard)| ::
        i < |Accepted(r)| && (var v: int := Accepted(r)[i]; Concat(r.heard)[i] == Clamped(3 * v))
  {
    StartInv(audio);
    RunKeepsInv(Ring(INIT, audio, [], [], []), steps);
    var r := Run(Ring(INIT, audio, [], [], []), steps);
    var n := |r.heard|;
    HeardPrefix(r.full, r.heard, n);
    assert r.heard[..n] == r.heard;
    ConcatPrefix(r.full, n);
    assert Concat(r.full[..n]) <= Accepted(r);
    var rest := Accepted(r)[|Concat(r.full[..n])|..];
    assert Accepted(r) == Concat(r.full[..n]) + rest;
    LouderConcat(Concat(r.full[..n]), rest);
  }

  /** No buffer the speaker still holds is ever written: not by the producer storing a sample, not by
      the consumer applying the gain. */
  lemma HeldBuffersStay(r: Ring, step: Step, i: nat)
    requires Inv(r) && Possible(r, step) && i < |r.ctl.sp.held|
    ensures r.ctl.sp.held[i] < NBUF
    ensures Next(r, step).audio[r.ctl.sp.held[i]] == r.audio[r.ctl.sp.held[i]]
  {
    var k := r.ctl.sp.finished + i;
    if step.ByProducer? && r.ctl.p.at == Write {
      SlotsDiffer(k, r.ctl.p.published);
    } else if step.ByConsumer? && r.ctl.c.at == Amplify {
      SlotsDiffer(k, r.ctl.c.started);
    }
  }

  /** From the oldest queued buffer on, the ring is the queued ones, then the ready ones, then the free
      ones, and filling goes on right after the ready ones. The queue never outgrows its two places. */
  lemma RingShape(c: Control, i: nat)
    requires RingControl.Inv(c) && i < NBUF
    ensures c.c.qn <= 2
    ensures var ready := Marked(c) - c.c.started;
      && c.c.qn + ready <= NBUF
      && c.b.state[Slot(c.c.released + i)] ==
         (if i < c.c.qn then PLAYING else if i < c.c.qn + ready then READY else FREE)
      && (c.p.at != Advance ==> c.p.fillIdx == Slot(c.c.started + ready))
    ensures Slot(c.c.released) == if c.c.playIdx >= c.c.qn then c.c.playIdx - c.c.qn else c.c.playIdx + NBUF - c.c.qn
  {
    SlotBack(c.c.released, c.c.qn);
  }

  lemma {:induction false} SlotBack(k: nat, n: nat)
    requires n < NBUF
    ensures Slot(k) == if Slot(k + n) >= n then Slot(k + n) - n else Slot(k + n) + NBUF - n
  {
    if n > 0 {
      SlotBack(k, n - 1);
      SlotNext(k + n - 1);
    }
  }

  /** A frame is cut short if and only if all eight buffers are in use, and so only between buffers. */
  lemma DropsBetweenBuffers(c: Control)
    requires RingControl.Inv(c) && c.p.at == Check
    ensures CheckStep(c).p.at == Check <==> c.p.published == c.c.released + NBUF
    ensures c.p.published == c.c.released + NBUF ==> c.p.fillPos == 0
  {
    assert c.p.fillIdx == Slot(c.p.published);
  }
}
