/** The code of the two audio tasks on its global variables. Each call is proved to be a run of the
    machine in AudioRing, the one in which nobody else gets a turn. */
module AudioTasks {
  import opened CText
  import opened RingControl
  import opened AudioRing

  const HEADER_SKIP: nat := 10

  /** The i-th sample of a frame: big-endian, two's complement. */
  function SampleAt(data: seq<byte>, i: nat): Sample
    requires HEADER_SKIP + 2 * i + 1 < |data|
  {
    var hi: int, lo: int := data[HEADER_SKIP + 2 * i], data[HEADER_SKIP + 2 * i + 1];
    var v := hi * 256 + lo;
    if v < 32768 then v else v - 65536
  }

  /** The samples of a frame; only frames tagged "SND" carry any. */
  function FrameSamples(data: seq<byte>): seq<Sample> {
    if |data| <= HEADER_SKIP || data[..3] != [0x53, 0x4E, 0x44] then []
    else seq((|data| - HEADER_SKIP) / 2, i requires 0 <= i < (|data| - HEADER_SKIP) / 2 => SampleAt(data, i))
  }

  /** A frame as the server sends it: tag, seven bytes of header, and each sample as two bytes, the high one first. */
  function BigEndian(s: seq<Sample>): (d: seq<byte>)
    ensures |d| == 2 * |s|
  {
    if s == [] then []
    else
      var v: int := s[|s|-1];
      BigEndian(s[..|s|-1]) + [v % 65536 / 256, v % 65536 % 256]
  }

  lemma {:induction false} BigEndianAt(s: seq<Sample>, i: nat)
    requires i < |s|
    ensures var v: int := s[i];
      BigEndian(s)[2 * i] == v % 65536 / 256 && BigEndian(s)[2 * i + 1] == v % 65536 % 256
  {
    if i < |s| - 1 { BigEndianAt(s[..|s|-1], i); }
  }

  /** Whatever samples are sent in a frame are the samples of the frame. */
  lemma FrameSamplesBack(header: seq<byte>, s: seq<Sample>)
    requires |header| == 7
    ensures FrameSamples([0x53, 0x4E, 0x44] + header + BigEndian(s)) == s
  {
    var data := [0x53, 0x4E, 0x44] + header + BigEndian(s);
    assert data[..3] == [0x53, 0x4E, 0x44];
    forall i | 0 <= i < |s| ensures SampleAt(data, i) == s[i] {
      BigEndianAt(s, i);
      assert data[10 + 2 * i] == BigEndian(s)[2 * i] && data[10 + 2 * i + 1] == BigEndian(s)[2 * i + 1];
    }
  }

  /** A frame with another tag, or of at most ten bytes, carries none; an odd byte at the end is not looked at. */
  lemma NoSamples(data: seq<byte>)
    ensures |data| <= 10 || data[..3] != [0x53, 0x4E, 0x44] ==> FrameSamples(data) == []
    ensures |data| > 10 && |data| % 2 == 1 ==> FrameSamples(data) == FrameSamples(data[..|data|-1])
  {
    if |data| > 10 {
      var init := data[..|data|-1];
      assert init[..3] == data[..3];
    }
  }

  /** How many buffers are ready to be played. */
  function ReadyIn(state: seq<int>): nat {
    if state == [] then 0 else ReadyIn(state[..|state|-1]) + if state[|state|-1] == READY then 1 else 0
  }

  lemma {:induction false} ReadyInUpdate(state: seq<int>, i: nat, v: int)
    requires i < |state| && state[i] != READY && v != READY
    ensures ReadyIn(state[i := v]) == ReadyIn(state)
  {
    var n := |state| - 1;
    if i < n {
      ReadyInUpdate(state[..n], i, v);
      assert state[i := v][..n] == state[..n][i := v];
    } else {
      assert state[i := v][..n] == state[..n];
    }
  }

  /** The oldest buffer in the queue is being played. */
  lemma OldestPlays(c: Control)
    requires RingControl.Inv(c) && c.c.qn > 0
    ensures c.b.state[c.c.q0] == PLAYING
  {
    RingShape(c, 0);
  }

  class Globals {
    const bufState: array<int>
    const audioBuf: array<seq<Sample>>
    const q: array<nat>
    var fillIdx: nat
    var fillPos: nat
    var qn: nat
    var playIdx: nat
    var primed: bool
    ghost var r: Ring        // the ring these variables stand for

    /** The variables are those of the ring. */
    ghost predicate Same()
      reads this, bufState, audioBuf, q
    {
      && bufState.Length == NBUF && audioBuf.Length == NBUF && q.Length == 2 && fillIdx < NBUF && playIdx < NBUF
      && bufState[..] == r.ctl.b.state && audioBuf[..] == r.audio
      && fillIdx == r.ctl.p.fillIdx && fillPos == r.ctl.p.fillPos
      && q[0] == r.ctl.c.q0 && q[1] == r.ctl.c.q1 && qn == r.ctl.c.qn
      && playIdx == r.ctl.c.playIdx && primed == r.ctl.c.primed
    }

    /** The code just made one step of the machine, after `steps` from r0 on; `r` changes in no other way. */
    ghost method Did(r0: Ring, steps: seq<Step>, step: Step)
      requires Ran(r0, steps, r) && AudioRing.Inv(r) && Possible(r, step)
      modifies this`r
      ensures r == Next(old(r), step) && Ran(r0, steps + [step], r)
    {
      RanMore(r0, steps, r, step);
      r := Next(r, step);
    }

    // ---------- producer ----------

    /** Looks at the buffer to be filled; false when it is still in use. */
    method FindRoom(v: Sample, ghost r0: Ring, ghost steps: seq<Step>) returns (room: bool)
      requires Same() && Ran(r0, steps, r) && r.ctl.p.at == Check
      modifies this`r
      ensures Same() && Ran(r0, steps + [ByProducer(v)], r) && Accepted(r) == old(Accepted(r))
      ensures r.ctl.p.at == if room then Write else Check
      ensures !room <==> r.ctl.p.published == r.ctl.c.released + NBUF
      ensures !room ==> r.ctl.p.fillPos == 0
    {
      RanKeepsInv(r0, steps, r);
      room := bufState[fillIdx] == FREE;
      DropsBetweenBuffers(r.ctl);
      Did(r0, steps, ByProducer(v));
    }

    /** Appends one sample to the buffer being filled, which is free. */
    method StoreSample(v: Sample, ghost r0: Ring, ghost steps: seq<Step>)
      requires Same() && Ran(r0, steps, r) && r.ctl.p.at == Write
      modifies this`fillPos, this`r, audioBuf
      ensures Same() && Ran(r0, steps + [ByProducer(v)], r) && Accepted(r) == old(Accepted(r)) + [v]
      ensures r.ctl.p.at == if fillPos >= SAMPLES then Publish else Check
    {
      RanKeepsInv(r0, steps, r);
      AcceptedGrows(r, ByProducer(v));
      audioBuf[fillIdx] := audioBuf[fillIdx][..fillPos] + [v] + audioBuf[fillIdx][fillPos + 1..];
      fillPos := fillPos + 1;
      Did(r0, steps, ByProducer(v));
    }

    method MarkReady(ghost v: Sample, ghost r0: Ring, ghost steps: seq<Step>)
      requires Same() && Ran(r0, steps, r) && r.ctl.p.at == Publish
      modifies this`r, bufState
      ensures Same() && Ran(r0, steps + [ByProducer(v)], r) && Accepted(r) == old(Accepted(r)) && r.ctl.p.at == Advance
    {
      RanKeepsInv(r0, steps, r);
      bufState[fillIdx] := READY;
      Did(r0, steps, ByProducer(v));
    }

    method MoveOn(ghost v: Sample, ghost r0: Ring, ghost steps: seq<Step>)
      requires Same() && Ran(r0, steps, r) && r.ctl.p.at == Advance
      modifies this`fillIdx, this`fillPos, this`r
      ensures Same() && Ran(r0, steps + [ByProducer(v)], r) && Accepted(r) == old(Accepted(r)) && r.ctl.p.at == Check
    {
      RanKeepsInv(r0, steps, r);
      fillIdx := (fillIdx + 1) % NBUF;
      fillPos := 0;
      Did(r0, steps, ByProducer(v));
    }

    /** Marks the full buffer ready and moves on to the next. */
    method CloseBuffer(ghost v: Sample, ghost r0: Ring, ghost before: seq<Step>) returns (ghost steps: seq<Step>)
      requires Same() && Ran(r0, before, r) && AllByProducer(before) && r.ctl.p.at == Publish
      modifies this`fillIdx, this`fillPos, this`r, bufState
      ensures Same() && Ran(r0, steps, r) && AllByProducer(steps) && r.ctl.p.at == Check
              && Accepted(r) == old(Accepted(r))
    {
      MarkReady(v, r0, before);
      steps := before + [ByProducer(v)];
      MoveOn(v, r0, steps);
      steps := steps + [ByProducer(v)];
    }

    /** Stores the sample and closes the buffer if it is full. */
    method FillRoom(v: Sample, ghost r0: Ring, ghost before: seq<Step>) returns (ghost steps: seq<Step>)
      requires Same() && Ran(r0, before, r) && AllByProducer(before) && r.ctl.p.at == Write
      modifies this`fillIdx, this`fillPos, this`r, bufState, audioBuf
      ensures Same() && Ran(r0, steps, r) && AllByProducer(steps) && r.ctl.p.at == Check
      ensures Accepted(r) == old(Accepted(r)) + [v]
    {
      StoreSample(v, r0, before);
      steps := before + [ByProducer(v)];
      if fillPos >= SAMPLES { steps := CloseBuffer(v, r0, steps); }
    }

    /** One turn of the frame loop; false when the buffer to fill is still in use. */
    method TakeSample(v: Sample, ghost r0: Ring, ghost before: seq<Step>) returns (taken: bool, ghost steps: seq<Step>)
      requires Same() && Ran(r0, before, r) && AllByProducer(before) && r.ctl.p.at == Check
      modifies this`fillIdx, this`fillPos, this`r, bufState, audioBuf
      ensures Same() && Ran(r0, steps, r) && AllByProducer(steps) && r.ctl.p.at == Check
      ensures Accepted(r) == old(Accepted(r)) + if taken then [v] else []
      ensures !taken ==> r.ctl.p.fillPos == 0 && r.ctl.p.published == r.ctl.c.released + NBUF
    {
      taken := FindRoom(v, r0, before);
      steps := before + [ByProducer(v)];
      if taken { steps := FillRoom(v, r0, steps); }
    }

    method TakeSamples(data: seq<byte>, samples: nat, ghost all: seq<Sample>)
        returns (ghost n: nat, ghost steps: seq<Step>)
      requires Same() && AudioRing.Inv(r) && r.ctl.p.at == Check && HEADER_SKIP + 2 * samples <= |data|
      requires |all| == samples && forall i | 0 <= i < samples :: all[i] == SampleAt(data, i)
      modifies this`fillIdx, this`fillPos, this`r, bufState, audioBuf
      ensures Same() && Ran(old(r), steps, r) && AllByProducer(steps) && r.ctl.p.at == Check
      ensures n <= samples && Accepted(r) == old(Accepted(r)) + all[..n]
      ensures n < samples ==> r.ctl.p.fillPos == 0 && r.ctl.p.published == r.ctl.c.released + NBUF
    {
      n, steps := 0, [];
      ghost var r0, accepted := r, Accepted(r);
      for i := 0 to samples
        invariant Same() && Ran(r0, steps, r) && AllByProducer(steps) && r.ctl.p.at == Check
        invariant n == i && Accepted(r) == accepted + all[..i]
      {
        var taken;
        taken, steps := TakeSample(SampleAt(data, i), r0, steps);
        if !taken { return; }
        assert all[..i+1] == all[..i] + [SampleAt(data, i)];
        n := i + 1;
      }
    }

    /** Takes the samples of a frame in order; only when the next buffer in turn is still in use is the rest of
        the frame dropped. What happens to the ring is a run of producer steps. */
    method HandleAudioFrame(data: seq<byte>) returns (ghost n: nat, ghost steps: seq<Step>)
      requires Same() && AudioRing.Inv(r) && r.ctl.p.at == Check
      modifies this, bufState, audioBuf
      ensures Same() && Ran(old(r), steps, r) && AllByProducer(steps) && r.ctl.p.at == Check
      ensures n <= |FrameSamples(data)| && Accepted(r) == old(Accepted(r)) + FrameSamples(data)[..n]
      ensures n < |FrameSamples(data)| ==> r.ctl.p.fillPos == 0 && r.ctl.p.published == r.ctl.c.released + NBUF
    {
      n, steps := 0, [];
      if |data| <= HEADER_SKIP { return; }
      if data[..3] != [0x53, 0x4E, 0x44] { return; }
      n, steps := TakeSamples(data, (|data| - HEADER_SKIP) / 2, FrameSamples(data));
    }

    // ---------- consumer ----------

    /** One playback round, with what the speaker says it is playing: a run of consumer steps. */
    method PlaybackRound(playing: nat) returns (ghost steps: seq<Step>)
      requires Same() && AudioRing.Inv(r) && r.ctl.c.at == Poll && playing == |r.ctl.sp.held|
      modifies this, bufState, audioBuf, q
      ensures Same() && Ran(old(r), steps, r) && steps != [] && AllByConsumer(steps) && r.ctl.c.at == Poll
      ensures old(r.ctl.sp.held) <= r.ctl.sp.held && |r.ctl.sp.held| <= 2
      ensures primed && |r.ctl.sp.held| < 2 ==> bufState[playIdx] != READY
      ensures ghost var ready := ReadyIn(old(bufState[..]));
        primed <==> (old(primed) || ready >= 3) && !(playing == 0 && ready == 0)
    {
      ghost var r0 := r;
      steps := AskSpeaker(playing);
      steps := FreeFinished(playing, r0, steps);
      steps := CountAndPrime(playing, r0, steps);
      steps := PlayReady(playing, r0, steps);
    }

    /** The consumer learns how much the speaker holds. */
    ghost method AskSpeaker(playing: nat) returns (steps: seq<Step>)
      requires Same() && AudioRing.Inv(r) && r.ctl.c.at == Poll && playing == |r.ctl.sp.held|
      modifies this`r
      ensures Same() && Ran(old(r), steps, r) && AllByConsumer(steps)
      ensures r.ctl.c.at == Release && r.ctl.c.pl == playing && r.ctl.sp == old(r.ctl.sp)
    {
      Did(r, [], ByConsumer);
      steps := [] + [ByConsumer];
    }

    /** Playing starts with three ready buffers and stops when nothing is left. */
    method CountAndPrime(playing: nat, ghost r0: Ring, ghost before: seq<Step>) returns (ghost steps: seq<Step>)
      requires Same() && Ran(r0, before, r) && AllByConsumer(before)
      requires r.ctl.c.at == Count(0, 0) && r.ctl.c.pl == playing
      modifies this`primed, this`r
      ensures Same() && Ran(r0, steps, r) && AllByConsumer(steps)
      ensures r.ctl.c.at == Test && r.ctl.c.pl == playing <= 2 && r.ctl.sp == old(r.ctl.sp)
      ensures ghost var ready := ReadyIn(bufState[..]);
        primed <==> (old(primed) || ready >= 3) && !(playing == 0 && ready == 0)
    {
      var ready;
      ready, steps := CountReady(r0, before);
      DecidePrimed(playing, ready, r0, steps);
      steps := steps + [ByConsumer];
    }

    method FreeFinished(pl: nat, ghost r0: Ring, ghost before: seq<Step>) returns (ghost steps: seq<Step>)
      requires Same() && Ran(r0, before, r) && AllByConsumer(before) && r.ctl.c.at == Release && r.ctl.c.pl == pl
      modifies this`qn, this`r, bufState, q
      ensures Same() && Ran(r0, steps, r) && AllByConsumer(steps)
      ensures r.ctl.c.at == Count(0, 0) && r.ctl.c.pl == pl && r.ctl.sp == old(r.ctl.sp)
      ensures ReadyIn(bufState[..]) == ReadyIn(old(bufState[..]))
    {
      steps := before;
      while qn > pl
        invariant ReadyIn(bufState[..]) == ReadyIn(old(bufState[..]))
        invariant Same() && Ran(r0, steps, r) && AllByConsumer(steps)
        invariant r.ctl.c.at == Release && r.ctl.c.pl == pl && r.ctl.sp == old(r.ctl.sp)
        decreases qn
      {
        FreeOldest(r0, steps);
        steps := steps + [ByConsumer];
      }
      StopFreeing(pl, r0, steps);
      steps := steps + [ByConsumer];
    }

    method FreeOldest(ghost r0: Ring, ghost steps: seq<Step>)
      requires Same() && Ran(r0, steps, r) && r.ctl.c.at == Release && qn > r.ctl.c.pl
      modifies this`qn, this`r, bufState, q
      ensures Same() && Ran(r0, steps + [ByConsumer], r) && qn == old(qn) - 1
      ensures r.ctl.c.at == Release && r.ctl.c.pl == old(r.ctl.c.pl) && r.ctl.sp == old(r.ctl.sp)
      ensures ReadyIn(bufState[..]) == ReadyIn(old(bufState[..]))
    {
      RanKeepsInv(r0, steps, r);
      OldestPlays(r.ctl);
      ReadyInUpdate(bufState[..], q[0], FREE);
      bufState[q[0]] := FREE;
      q[0] := q[1];
      qn := qn - 1;
      Did(r0, steps, ByConsumer);
    }

    method StopFreeing(pl: nat, ghost r0: Ring, ghost steps: seq<Step>)
      requires Same() && Ran(r0, steps, r) && r.ctl.c.at == Release && r.ctl.c.pl == pl && qn <= pl
      modifies this`r
      ensures Same() && Ran(r0, steps + [ByConsumer], r)
      ensures r.ctl.c.at == Count(0, 0) && r.ctl.c.pl == pl && r.ctl.sp == old(r.ctl.sp)
    {
      RanKeepsInv(r0, steps, r);
      Did(r0, steps, ByConsumer);
    }

    method CountReady(ghost r0: Ring, ghost before: seq<Step>) returns (ready: nat, ghost steps: seq<Step>)
      requires Same() && Ran(r0, before, r) && AllByConsumer(before) && r.ctl.c.at == Count(0, 0)
      modifies this`r
      ensures Same() && Ran(r0, steps, r) && AllByConsumer(steps)
      ensures r.ctl.c.at == Prime(ready) && r.ctl.c.pl == old(r.ctl.c.pl) && r.ctl.sp == old(r.ctl.sp)
      ensures ready == ReadyIn(bufState[..])
    {
      ready, steps := 0, before;
      assert bufState[..] == bufState[..NBUF];
      for j := 0 to NBUF
        invariant ready == ReadyIn(bufState[..j])
        invariant Same() && Ran(r0, steps, r) && AllByConsumer(steps)
        invariant r.ctl.c.at == Count(j, ready) && r.ctl.c.pl == old(r.ctl.c.pl) && r.ctl.sp == old(r.ctl.sp)
      {
        assert bufState[..j + 1][..j] == bufState[..j];
        ready := CountOne(j, ready, r0, steps);
        steps := steps + [ByConsumer];
      }
      StopCounting(ready, r0, steps);
      steps := steps + [ByConsumer];
    }

    method CountOne(j: nat, ready: nat, ghost r0: Ring, ghost steps: seq<Step>) returns (more: nat)
      requires Same() && Ran(r0, steps, r) && j < NBUF && r.ctl.c.at == Count(j, ready)
      modifies this`r
      ensures Same() && Ran(r0, steps + [ByConsumer], r) && more == ready + if bufState[j] == READY then 1 else 0
      ensures r.ctl.c.at == Count(j + 1, more) && r.ctl.c.pl == old(r.ctl.c.pl) && r.ctl.sp == old(r.ctl.sp)
    {
      RanKeepsInv(r0, steps, r);
      more := if bufState[j] == READY then ready + 1 else ready;
      Did(r0, steps, ByConsumer);
    }

    method StopCounting(ready: nat, ghost r0: Ring, ghost steps: seq<Step>)
      requires Same() && Ran(r0, steps, r) && r.ctl.c.at == Count(NBUF, ready)
      modifies this`r
      ensures Same() && Ran(r0, steps + [ByConsumer], r)
      ensures r.ctl.c.at == Prime(ready) && r.ctl.c.pl == old(r.ctl.c.pl) && r.ctl.sp == old(r.ctl.sp)
    {
      RanKeepsInv(r0, steps, r);
      Did(r0, steps, ByConsumer);
    }

    method DecidePrimed(pl: nat, ready: nat, ghost r0: Ring, ghost steps: seq<Step>)
      requires Same() && Ran(r0, steps, r) && r.ctl.c.at == Prime(ready) && r.ctl.c.pl == pl
      modifies this`primed, this`r
      ensures Same() && Ran(r0, steps + [ByConsumer], r)
      ensures r.ctl.c.at == Test && r.ctl.c.pl == pl <= 2 && r.ctl.sp == old(r.ctl.sp)
      ensures primed <==> (old(primed) || ready >= 3) && !(pl == 0 && ready == 0)
    {
      RanKeepsInv(r0, steps, r);
      if !primed && ready >= PREBUFFER { primed := true; }
      if primed && pl == 0 && ready == 0 { primed := false; }
      Did(r0, steps, ByConsumer);
    }

    method PlayReady(playing: nat, ghost r0: Ring, ghost before: seq<Step>) returns (ghost steps: seq<Step>)
      requires Same() && Ran(r0, before, r) && AllByConsumer(before)
      requires r.ctl.c.at == Test && r.ctl.c.pl == playing == |r.ctl.sp.held| <= 2
      modifies this`qn, this`playIdx, this`r, bufState, audioBuf, q
      ensures Same() && Ran(r0, steps, r) && steps != [] && AllByConsumer(steps) && r.ctl.c.at == Poll
      ensures old(r.ctl.sp.held) <= r.ctl.sp.held && |r.ctl.sp.held| <= 2
      ensures primed && |r.ctl.sp.held| < 2 ==> bufState[playIdx] != READY
    {
      var pl := playing;
      steps := before;
      while primed && pl < 2 && bufState[playIdx] == READY
        invariant Same() && Ran(r0, steps, r) && AllByConsumer(steps)
        invariant r.ctl.c.at == Test && r.ctl.c.pl == pl == |r.ctl.sp.held| <= 2 && old(r.ctl.sp.held) <= r.ctl.sp.held
        decreases 2 - pl
      {
        steps := PlayNext(r0, steps);
        pl := pl + 1;
      }
      StopPlaying(pl, r0, steps);
      steps := steps + [ByConsumer];
    }

    method StopPlaying(pl: nat, ghost r0: Ring, ghost steps: seq<Step>)
      requires Same() && Ran(r0, steps, r) && r.ctl.c.at == Test && r.ctl.c.pl == pl
      requires !(primed && pl < 2 && bufState[playIdx] == READY)
      modifies this`r
      ensures Same() && Ran(r0, steps + [ByConsumer], r) && r.ctl.c.at == Poll && r.ctl.sp == old(r.ctl.sp)
    {
      RanKeepsInv(r0, steps, r);
      Did(r0, steps, ByConsumer);
    }

    /** Amplifies the next ready buffer, hands it to the speaker and queues it. */
    method PlayNext(ghost r0: Ring, ghost before: seq<Step>) returns (ghost steps: seq<Step>)
      requires Same() && Ran(r0, before, r) && AllByConsumer(before)
      requires r.ctl.c.at == Test && primed && r.ctl.c.pl < 2 && bufState[playIdx] == READY
      modifies this`qn, this`playIdx, this`r, bufState, audioBuf, q
      ensures Same() && Ran(r0, steps, r) && AllByConsumer(steps)
      ensures r.ctl.c.at == Test && r.ctl.c.pl == old(r.ctl.c.pl) + 1
      ensures r.ctl.sp.held == old(r.ctl.sp.held) + [old(playIdx)]
    {
      steps := MakeLoud(r0, before);
      steps := PutOn(r0, steps);
    }

    method MakeLoud(ghost r0: Ring, ghost before: seq<Step>) returns (ghost steps: seq<Step>)
      requires Same() && Ran(r0, before, r) && AllByConsumer(before)
      requires r.ctl.c.at == Test && primed && r.ctl.c.pl < 2 && bufState[playIdx] == READY
      modifies this`r, audioBuf
      ensures Same() && Ran(r0, steps, r) && AllByConsumer(steps)
      ensures r.ctl.c.at == PlayRaw && r.ctl.c.pl == old(r.ctl.c.pl) && r.ctl.sp == old(r.ctl.sp)
    {
      StartNext(r0, before);
      steps := before + [ByConsumer];
      AmplifyNext(r0, steps);
      steps := steps + [ByConsumer];
    }

    method PutOn(ghost r0: Ring, ghost before: seq<Step>) returns (ghost steps: seq<Step>)
      requires Same() && Ran(r0, before, r) && AllByConsumer(before) && r.ctl.c.at == PlayRaw
      modifies this`qn, this`playIdx, this`r, bufState, q
      ensures Same() && Ran(r0, steps, r) && AllByConsumer(steps)
      ensures r.ctl.c.at == Test && r.ctl.c.pl == old(r.ctl.c.pl) + 1
      ensures r.ctl.sp.held == old(r.ctl.sp.held) + [old(playIdx)]
    {
      HandOver(r0, before);
      steps := before + [ByConsumer];
      QueueNext(r0, steps);
      steps := steps + [ByConsumer];
    }

    method StartNext(ghost r0: Ring, ghost steps: seq<Step>)
      requires Same() && Ran(r0, steps, r)
      requires r.ctl.c.at == Test && primed && r.ctl.c.pl < 2 && bufState[playIdx] == READY
      modifies this`r
      ensures Same() && Ran(r0, steps + [ByConsumer], r)
      ensures r.ctl.c.at == Amplify && r.ctl.c.pl == old(r.ctl.c.pl) && r.ctl.sp == old(r.ctl.sp)
    {
      RanKeepsInv(r0, steps, r);
      Did(r0, steps, ByConsumer);
    }

    method AmplifyNext(ghost r0: Ring, ghost steps: seq<Step>)
      requires Same() && Ran(r0, steps, r) && r.ctl.c.at == Amplify
      modifies this`r, audioBuf
      ensures Same() && Ran(r0, steps + [ByConsumer], r)
      ensures r.ctl.c.at == PlayRaw && r.ctl.c.pl == old(r.ctl.c.pl) && r.ctl.sp == old(r.ctl.sp)
    {
      RanKeepsInv(r0, steps, r);
      audioBuf[playIdx] := Louder(audioBuf[playIdx]);
      Did(r0, steps, ByConsumer);
    }

    method HandOver(ghost r0: Ring, ghost steps: seq<Step>)
      requires Same() && Ran(r0, steps, r) && r.ctl.c.at == PlayRaw
      modifies this`r
      ensures Same() && Ran(r0, steps + [ByConsumer], r)
      ensures r.ctl.c.at == Mark && r.ctl.c.pl == old(r.ctl.c.pl) && r.ctl.sp.held == old(r.ctl.sp.held) + [playIdx]
    {
      RanKeepsInv(r0, steps, r);
      Did(r0, steps, ByConsumer);
    }

    method QueueNext(ghost r0: Ring, ghost steps: seq<Step>)
      requires Same() && Ran(r0, steps, r) && r.ctl.c.at == Mark
      modifies this`qn, this`playIdx, this`r, bufState, q
      ensures Same() && Ran(r0, steps + [ByConsumer], r)
      ensures r.ctl.c.at == Test && r.ctl.c.pl == old(r.ctl.c.pl) + 1 && r.ctl.sp == old(r.ctl.sp)
    {
      RanKeepsInv(r0, steps, r);
      bufState[playIdx] := PLAYING;
      q[qn] := playIdx;
      qn := qn + 1;
      playIdx := (playIdx + 1) % NBUF;
      Did(r0, steps, ByConsumer);
    }
  }
}
