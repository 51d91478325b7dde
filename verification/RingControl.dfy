/** Who owns which of the eight audio buffers: the websocket task (producer), the player task
    (consumer) and the speaker, as a machine whose steps interleave freely. Each access to a shared
    variable is a step of its own; variables private to one task change with the step that uses them. */
module RingControl {

  const NBUF: nat := 8
  const SAMPLES: nat := 1024
  const PREBUFFER: nat := 3

  const FREE: int := 0
  const READY: int := 1
  const PLAYING: int := 2

  /** Where the producer is in its per-sample loop. */
  datatype ProducerAt = Check | Write | Publish | Advance

  /** Where the consumer is in its playback round. */
  datatype ConsumerAt = Poll | Release | Count(j: nat, ready: nat) | Prime(ready: nat) | Test | Amplify | PlayRaw | Mark

  /** The buffer states, shared by all parties. */
  datatype Buffers = Buffers(state: seq<int>)

  /** Variables of the producer; `published` counts buffers and is read by no step, like the counts below. */
  datatype Producer = Producer(fillIdx: nat, fillPos: nat, at: ProducerAt, published: nat)

  /** Variables of the consumer; q0 and q1 are the two places of its queue. */
  datatype Consumer = Consumer(q0: nat, q1: nat, qn: nat, playIdx: nat, primed: bool, pl: nat, at: ConsumerAt,
                               started: nat, released: nat)

  /** Buffers the speaker holds, the one being played first. */
  datatype Speaker = Speaker(held: seq<nat>, finished: nat)

  datatype Control = Control(b: Buffers, p: Producer, c: Consumer, sp: Speaker)

  const INIT: Control := Control(Buffers(seq(NBUF, _ => FREE)), Producer(0, 0, Check, 0),
                                 Consumer(0, 0, 0, 0, false, 0, Poll, 0, 0), Speaker([], 0))

  ghost predicate Shaped(r: Control) {
    |r.b.state| == NBUF && r.p.fillIdx < NBUF && r.c.playIdx < NBUF && r.c.q0 < NBUF && r.c.q1 < NBUF
  }

  // ---------- producer ----------

  /** The producer looks at the buffer it fills and drops the rest of the frame if it is in use. */
  function CheckStep(r: Control): Control
    requires Shaped(r)
  {
    if r.b.state[r.p.fillIdx] != FREE then r else r.(p := r.p.(at := Write))
  }

  function WriteStep(r: Control): Control {
    r.(p := r.p.(fillPos := r.p.fillPos + 1, at := if r.p.fillPos + 1 >= SAMPLES then Publish else Check))
  }

  function PublishStep(r: Control): Control
    requires Shaped(r)
  {
    r.(b := Buffers(r.b.state[r.p.fillIdx := READY]), p := r.p.(at := Advance))
  }

  function AdvanceStep(r: Control): Control {
    r.(p := Producer((r.p.fillIdx + 1) % NBUF, 0, Check, r.p.published + 1))
  }

  function Produce(r: Control): Control
    requires Shaped(r)
  {
    match r.p.at
    case Check => CheckStep(r)
    case Write => WriteStep(r)
    case Publish => PublishStep(r)
    case Advance => AdvanceStep(r)
  }

  // ---------- consumer ----------

  function PollStep(r: Control): Control { r.(c := r.c.(pl := |r.sp.held|, at := Release)) }

  function AmplifyStep(r: Control): Control { r.(c := r.c.(at := PlayRaw)) }

  /** Frees the oldest buffer in the queue while the queue is longer than the speaker's was. */
  function ReleaseStep(r: Control): Control
    requires Shaped(r)
  {
    if r.c.qn > r.c.pl then
      r.(b := Buffers(r.b.state[r.c.q0 := FREE]),
          c := r.c.(q0 := r.c.q1, qn := r.c.qn - 1, released := r.c.released + 1))
    else r.(c := r.c.(at := Count(0, 0)))
  }

  function CountStep(r: Control, j: nat, ready: nat): Control
    requires Shaped(r)
  {
    r.(c := r.c.(at :=
      if j == NBUF then Prime(ready)
      else if j < NBUF && r.b.state[j] == READY then Count(j + 1, ready + 1) else Count(j + 1, ready)))
  }

  /** Playing starts with three ready buffers and stops when nothing is left. */
  function PrimeStep(r: Control, ready: nat): Control {
    r.(c := r.c.(primed := (r.c.primed || ready >= PREBUFFER) && !(r.c.pl == 0 && ready == 0), at := Test))
  }

  function TestStep(r: Control): Control
    requires Shaped(r)
  {
    r.(c := r.c.(at := if r.c.primed && r.c.pl < 2 && r.b.state[r.c.playIdx] == READY then Amplify else Poll))
  }

  function PlayRawStep(r: Control): Control {
    r.(sp := r.sp.(held := r.sp.held + [r.c.playIdx]), c := r.c.(at := Mark))
  }

  function MarkStep(r: Control): Control
    requires Shaped(r) && r.c.qn < 2
  {
    r.(b := Buffers(r.b.state[r.c.playIdx := PLAYING]),
       c := r.c.(q0 := if r.c.qn == 0 then r.c.playIdx else r.c.q0, q1 := if r.c.qn == 1 then r.c.playIdx else r.c.q1,
                 qn := r.c.qn + 1, playIdx := (r.c.playIdx + 1) % NBUF, pl := r.c.pl + 1, at := Test,
                 started := r.c.started + 1))
  }

  function Consume(r: Control): Control
    requires Shaped(r) && (r.c.at == Mark ==> r.c.qn < 2)
  {
    match r.c.at
    case Poll => PollStep(r)
    case Release => ReleaseStep(r)
    case Count(j, ready) => CountStep(r, j, ready)
    case Prime(ready) => PrimeStep(r, ready)
    case Test => TestStep(r)
    case Amplify => AmplifyStep(r)
    case PlayRaw => PlayRawStep(r)
    case Mark => MarkStep(r)
  }

  // ---------- speaker ----------

  function Finish(r: Control): Control
    requires r.sp.held != []
  {
    r.(sp := Speaker(r.sp.held[1..], r.sp.finished + 1))
  }

  // ---------- the invariant ----------

  /** The k-th buffer-full of samples always goes through the same buffer: k modulo 8. */
  function Slot(k: nat): (i: nat)
    ensures i < NBUF
  {
    Wrap(k)
  }

  function Wrap(k: nat): (i: nat)
    ensures i < NBUF
  {
    if k < NBUF then k else Wrap(k - NBUF)
  }

  lemma {:induction false} SlotNext(k: nat)
    ensures Slot(k + 1) == (Slot(k) + 1) % NBUF
  {
    if k >= NBUF { SlotNext(k - NBUF); }
  }

  lemma {:induction false} SlotsDiffer(a: nat, b: nat)
    requires a < b < a + NBUF
    ensures Slot(a) != Slot(b)
  {
    if a >= NBUF { SlotsDiffer(a - NBUF, b - NBUF); } else if b >= NBUF { assert Wrap(b) == Wrap(b - NBUF); }
  }

  lemma SlotRepeats(k: nat)
    ensures Slot(k + NBUF) == Slot(k)
  {
  }

  /** Blocks whose buffers are filled, marked ready, amplified and handed to the speaker. */
  function Filled(r: Control): nat { if r.p.at in {Publish, Advance} then r.p.published + 1 else r.p.published }

  function Marked(r: Control): nat { if r.p.at == Advance then r.p.published + 1 else r.p.published }

  function Amplified(r: Control): nat { if r.c.at in {PlayRaw, Mark} then r.c.started + 1 else r.c.started }

  function Handed(r: Control): nat { if r.c.at == Mark then r.c.started + 1 else r.c.started }

  ghost predicate Ordered(r: Control) {
    && r.c.released <= r.sp.finished <= Handed(r) && r.c.started <= r.c.released + 2
    && r.c.started <= Marked(r) <= r.c.released + NBUF
    && (r.p.at != Check || r.p.fillPos > 0 ==> r.p.published < r.c.released + NBUF)
    && (r.c.at in {Amplify, PlayRaw, Mark} ==> r.c.started < Marked(r))
    && (if r.p.at in {Publish, Advance} then r.p.fillPos == SAMPLES else r.p.fillPos < SAMPLES)
  }

  /** The state of the buffer of block k: playing, ready or free. */
  function StateOf(r: Control, k: nat): int {
    if k < r.c.started then PLAYING else if k < Marked(r) then READY else FREE
  }

  ghost predicate States(r: Control)
    requires |r.b.state| == NBUF
  {
    forall k: nat {:trigger Slot(k)} | r.c.released <= k < r.c.released + NBUF :: r.b.state[Slot(k)] == StateOf(r, k)
  }

  ghost predicate Positions(r: Control) {
    && r.p.fillIdx == Slot(r.p.published) && r.c.playIdx == Slot(r.c.started)
    && r.c.qn == r.c.started - r.c.released
    && (r.c.qn > 0 ==> r.c.q0 == Slot(r.c.released)) && (r.c.qn > 1 ==> r.c.q1 == Slot(r.c.released + 1))
  }

  ghost predicate Speaking(r: Control) {
    && |r.sp.held| == Handed(r) - r.sp.finished
    && (forall i | 0 <= i < |r.sp.held| :: r.sp.held[i] == Slot(r.sp.finished + i))
  }

  /** What the consumer knows about the speaker since its last poll. */
  ghost predicate Polled(r: Control) {
    match r.c.at
    case Poll => true
    case Release => |r.sp.held| <= r.c.pl <= r.c.qn
    case _ => r.c.pl == r.c.qn && (r.c.at in {Amplify, PlayRaw, Mark} ==> r.c.pl < 2)
  }

  /** All but the states of the buffers. */
  ghost predicate Counts(r: Control) { Shaped(r) && Ordered(r) && Positions(r) && Speaking(r) && Polled(r) }

  ghost predicate Inv(r: Control) { Counts(r) && States(r) }

  lemma InitInv()
    ensures Inv(INIT)
  {
  }

  // ---------- every step keeps it ----------

  /** While nothing is released, started or marked, states that are not touched stay right. */
  lemma StatesStay(r: Control, n: Control)
    requires |r.b.state| == NBUF && States(r) && n.b == r.b
    requires n.c.released == r.c.released && n.c.started == r.c.started && Marked(n) == Marked(r)
    ensures States(n)
  {
    forall k: nat {:trigger Slot(k)} | n.c.released <= k < n.c.released + NBUF
      ensures n.b.state[Slot(k)] == StateOf(n, k)
    {
      assert r.b.state[Slot(k)] == StateOf(r, k);
    }
  }

  lemma CheckKeepsInv(r: Control)
    requires Inv(r) && r.p.at == Check
    ensures Inv(CheckStep(r))
  {
    if r.p.published == r.c.released + NBUF {
      SlotRepeats(r.c.released);
      assert r.b.state[Slot(r.c.released)] != FREE;
    }
    StatesStay(r, CheckStep(r));
  }

  lemma PublishKeepsStates(r: Control)
    requires Shaped(r) && Ordered(r) && Positions(r) && States(r) && r.p.at == Publish
    ensures States(PublishStep(r))
  {
    var n := PublishStep(r);
    forall k: nat {:trigger Slot(k)} | r.c.released <= k < r.c.released + NBUF
      ensures n.b.state[Slot(k)] == StateOf(n, k)
    {
      assert r.b.state[Slot(k)] == StateOf(r, k);
      if k < r.p.published { SlotsDiffer(k, r.p.published); }
      if k > r.p.published { SlotsDiffer(r.p.published, k); }
    }
  }

  lemma PublishKeepsInv(r: Control)
    requires Inv(r) && r.p.at == Publish
    ensures Inv(PublishStep(r))
  {
    PublishKeepsStates(r);
    PublishKeepsCounts(r);
  }

  lemma PublishKeepsCounts(r: Control)
    requires Counts(r) && r.p.at == Publish
    ensures Counts(PublishStep(r))
  {
  }

  lemma WriteKeepsInv(r: Control)
    requires Inv(r) && r.p.at == Write
    ensures Inv(WriteStep(r))
  {
    StatesStay(r, WriteStep(r));
    WriteKeepsCounts(r);
  }

  lemma WriteKeepsCounts(r: Control)
    requires Counts(r) && r.p.at == Write
    ensures Counts(WriteStep(r))
  {
  }

  lemma AdvanceKeepsInv(r: Control)
    requires Inv(r) && r.p.at == Advance
    ensures Inv(AdvanceStep(r))
  {
    StatesStay(r, AdvanceStep(r));
    AdvanceKeepsCounts(r);
  }

  lemma AdvanceKeepsCounts(r: Control)
    requires Counts(r) && r.p.at == Advance
    ensures Counts(AdvanceStep(r))
  {
    SlotNext(r.p.published);
  }

  lemma ProduceKeepsInv(r: Control)
    requires Inv(r)
    ensures Inv(Produce(r))
  {
    match r.p.at
    case Check => CheckKeepsInv(r);
    case Write => WriteKeepsInv(r);
    case Publish => PublishKeepsInv(r);
    case Advance => AdvanceKeepsInv(r);
  }

  lemma PollKeepsInv(r: Control)
    requires Inv(r) && r.c.at == Poll
    ensures Inv(PollStep(r))
  {
    StatesStay(r, PollStep(r));
  }

  lemma CountKeepsInv(r: Control, j: nat, ready: nat)
    requires Inv(r) && r.c.at == Count(j, ready)
    ensures Inv(CountStep(r, j, ready))
  {
    StatesStay(r, CountStep(r, j, ready));
  }

  lemma PrimeKeepsInv(r: Control, ready: nat)
    requires Inv(r) && r.c.at == Prime(ready)
    ensures Inv(PrimeStep(r, ready))
  {
    StatesStay(r, PrimeStep(r, ready));
  }

  lemma AmplifyKeepsInv(r: Control)
    requires Inv(r) && r.c.at == Amplify
    ensures Inv(AmplifyStep(r))
  {
    StatesStay(r, AmplifyStep(r));
  }

  lemma ReleaseKeepsStates(r: Control)
    requires Shaped(r) && Ordered(r) && Positions(r) && States(r) && r.c.at == Release && r.c.qn > r.c.pl
    ensures States(ReleaseStep(r))
  {
    var n := ReleaseStep(r);
    SlotRepeats(r.c.released);
    forall k: nat {:trigger Slot(k)} | n.c.released <= k < n.c.released + NBUF
      ensures n.b.state[Slot(k)] == StateOf(n, k)
    {
      if k < r.c.released + NBUF {
        SlotsDiffer(r.c.released, k);
        assert r.b.state[Slot(k)] == StateOf(r, k);
      }
    }
  }

  lemma ReleaseKeepsCounts(r: Control)
    requires Counts(r) && r.c.at == Release
    ensures Counts(ReleaseStep(r))
  {
  }

  lemma ReleaseKeepsInv(r: Control)
    requires Inv(r) && r.c.at == Release
    ensures Inv(ReleaseStep(r))
  {
    ReleaseKeepsCounts(r);
    if r.c.qn > r.c.pl { ReleaseKeepsStates(r); } else { StatesStay(r, ReleaseStep(r)); }
  }

  lemma TestKeepsInv(r: Control)
    requires Inv(r) && r.c.at == Test
    ensures Inv(TestStep(r))
  {
    assert r.b.state[Slot(r.c.started)] == StateOf(r, r.c.started);
    StatesStay(r, TestStep(r));
  }

  lemma PlayRawKeepsCounts(r: Control)
    requires Counts(r) && r.c.at == PlayRaw
    ensures Counts(PlayRawStep(r))
  {
  }

  lemma PlayRawKeepsInv(r: Control)
    requires Inv(r) && r.c.at == PlayRaw
    ensures Inv(PlayRawStep(r))
  {
    PlayRawKeepsCounts(r);
    StatesStay(r, PlayRawStep(r));
  }

  lemma MarkKeepsStates(r: Control)
    requires Shaped(r) && Ordered(r) && Positions(r) && States(r) && r.c.at == Mark && r.c.qn < 2
    ensures States(MarkStep(r))
  {
    var n := MarkStep(r);
    forall k: nat {:trigger Slot(k)} | r.c.released <= k < r.c.released + NBUF
      ensures n.b.state[Slot(k)] == StateOf(n, k)
    {
      assert r.b.state[Slot(k)] == StateOf(r, k);
      if k < r.c.started { SlotsDiffer(k, r.c.started); } else if k > r.c.started { SlotsDiffer(r.c.started, k); }
    }
  }

  lemma MarkKeepsCounts(r: Control)
    requires Counts(r) && r.c.at == Mark
    ensures r.c.qn < 2 && Counts(MarkStep(r))
  {
    SlotNext(r.c.started);
  }

  lemma MarkKeepsInv(r: Control)
    requires Inv(r) && r.c.at == Mark
    ensures r.c.qn < 2 && Inv(MarkStep(r))
  {
    MarkKeepsCounts(r);
    MarkKeepsStates(r);
  }

  lemma ConsumeKeepsInv(r: Control)
    requires Inv(r)
    ensures Inv(Consume(r))
  {
    match r.c.at
    case Poll => PollKeepsInv(r);
    case Release => ReleaseKeepsInv(r);
    case Count(j, ready) => CountKeepsInv(r, j, ready);
    case Prime(ready) => PrimeKeepsInv(r, ready);
    case Test => TestKeepsInv(r);
    case Amplify => AmplifyKeepsInv(r);
    case PlayRaw => PlayRawKeepsInv(r);
    case Mark => MarkKeepsInv(r);
  }

  lemma FinishKeepsInv(r: Control)
    requires Inv(r) && r.sp.held != []
    ensures Inv(Finish(r))
  {
    StatesStay(r, Finish(r));
  }
}
