/** Streaming a firmware image into the free slot: begin, write, end with a signature, end without one,
    abort; and what any sequence of such calls leaves in the slot. */
module FlashStream {
  import opened CText

  type Bytes = seq<byte>

  /** What the flash driver and the signature check answer. The digest of the absorbed bytes and the
      check itself are abstract. */
  datatype Crypto = Crypto(sha: Bytes -> Bytes, accepts: (Bytes, Bytes) -> bool)

  /** `image` is what lies in the slot, `hashed` what the running digest has absorbed, `erased` whether the image
      header was destroyed. Before the first begin the slot holds whatever was there. */
  datatype Stream = Stream(active: bool, image: Bytes, hashed: Bytes, erased: bool)

  /** A call, with the answers it gets: whether a slot is found and opened, whether flash takes a write (and how
      much of a refused one still lands), and whether the finished image passes the driver's check. */
  datatype Call =
    | Begin(slotFound: bool, started: bool)
    | Write(data: Bytes, taken: bool, landed: nat)
    | EndVerified(hasSignature: bool, signature: Bytes, imageOk: bool)
    | End
    | Abort

  ghost predicate Sane(c: Call) { c.Write? ==> c.landed <= |c.data| }

  /** The new state and the value the call returns. */
  function Do(s: Stream, c: Call, k: Crypto): (Stream, bool)
    requires Sane(c)
  {
    match c
    case Begin(found, started) =>
      if s.active || !found || !started then (s, false) else (Stream(true, [], [], false), true)
    case Write(data, taken, landed) =>
      if !s.active then (s, false)
      else if !taken then (s.(image := s.image + data[..landed]), false)
      else (s.(image := s.image + data, hashed := s.hashed + data), true)
    case EndVerified(hasSignature, signature, imageOk) =>
      if !s.active then (s, false)
      else if !hasSignature || !k.accepts(k.sha(s.hashed), signature) then (s.(active := false, erased := true), false)
      else (s.(active := false), imageOk)
    case End => (if s.active then s.(active := false, erased := true) else s, false)
    case Abort => (if s.active then s.(active := false, erased := true) else s, false)
  }

  ghost predicate AllSane(calls: seq<Call>) { forall i | 0 <= i < |calls| :: Sane(calls[i]) }

  /** What the calls make of the stream that was found. */
  function Run(found: Stream, calls: seq<Call>, k: Crypto): Stream
    requires AllSane(calls)
  {
    if calls == [] then found else Do(Run(found, calls[..|calls|-1], k), calls[|calls|-1], k).0
  }

  function Returned(found: Stream, calls: seq<Call>, k: Crypto): bool
    requires calls != [] && AllSane(calls)
  {
    Do(Run(found, calls[..|calls|-1], k), calls[|calls|-1], k).1
  }

  // ---------- what the calls themselves say ----------

  /** Whether a begin has opened a stream. */
  predicate Begun(calls: seq<Call>) {
    calls != [] && (Begun(calls[..|calls|-1]) || Open(calls))
  }

  /** Whether the history of calls has an open stream: a begin that succeeded and no end or abort since. */
  predicate Open(calls: seq<Call>) {
    if calls == [] then false
    else
      var before, c := Open(calls[..|calls|-1]), calls[|calls|-1];
      match c
      case Begin(found, started) => before || (found && started)
      case Write(_, _, _) => before
      case _ => false
  }

  /** The data of the accepted writes since the last begin that opened a stream. */
  function Written(calls: seq<Call>): Bytes {
    if calls == [] then []
    else
      var earlier, c := calls[..|calls|-1], calls[|calls|-1];
      match c
      case Begin(found, started) => if !Open(earlier) && found && started then [] else Written(earlier)
      case Write(data, taken, _) => if Open(earlier) && taken then Written(earlier) + data else Written(earlier)
      case _ => Written(earlier)
  }

  /** How many bytes of refused writes were left in the slot since the last begin that opened a stream. */
  function Stray(calls: seq<Call>): nat {
    if calls == [] then 0
    else
      var earlier, c := calls[..|calls|-1], calls[|calls|-1];
      match c
      case Begin(found, started) => if !Open(earlier) && found && started then 0 else Stray(earlier)
      case Write(_, taken, landed) => if Open(earlier) && !taken then Stray(earlier) + landed else Stray(earlier)
      case _ => Stray(earlier)
  }

  lemma OpenMeansBegun(calls: seq<Call>)
    ensures Open(calls) ==> Begun(calls)
  {
  }

  /** Until a begin opens a stream, no call changes anything. After that the stream is active exactly while one is
      open, the digest covers exactly the accepted writes, and the slot holds exactly them if and only if no refused
      write left bytes there. */
  lemma {:induction false} RunMeaning(found: Stream, calls: seq<Call>, k: Crypto)
    requires AllSane(calls) && !found.active
    ensures var s := Run(found, calls, k);
      && s.active == Open(calls)
      && if Begun(calls) then
           && s.hashed == Written(calls) && |s.image| == |Written(calls)| + Stray(calls)
           && (s.image == Written(calls) <==> Stray(calls) == 0)
         else s == found
  {
    if calls != [] {
      var earlier := calls[..|calls|-1];
      RunMeaning(found, earlier, k);
      OpenMeansBegun(earlier);
    }
  }

  /** What a verified end is given: a signature that is accepted for the digest of exactly the accepted writes. */
  ghost predicate SignedEnd(calls: seq<Call>, i: nat, k: Crypto)
    requires i < |calls|
  {
    var c := calls[i];
    c.EndVerified? && Open(calls[..i]) && c.hasSignature && k.accepts(k.sha(Written(calls[..i])), c.signature)
  }

  /** A verified end returns true exactly if the stream is open, the signature given is accepted for the accepted
      writes and the finished image passes the driver's check. */
  lemma VerifiedEndMeansSigned(found: Stream, calls: seq<Call>, k: Crypto)
    requires calls != [] && AllSane(calls) && calls[|calls|-1].EndVerified? && !found.active
    ensures Returned(found, calls, k) <==> SignedEnd(calls, |calls| - 1, k) && calls[|calls|-1].imageOk
  {
    RunMeaning(found, calls[..|calls|-1], k);
    OpenMeansBegun(calls[..|calls|-1]);
  }

  /** A begin returns true exactly if no stream is open, a slot is found and its write can start; a write exactly if a
      stream is open and flash takes it; an end without a signature and an abort never. */
  lemma {:induction false} OthersReturn(found: Stream, calls: seq<Call>, k: Crypto)
    requires calls != [] && AllSane(calls) && !calls[|calls|-1].EndVerified? && !found.active
    ensures var open, c := Open(calls[..|calls|-1]), calls[|calls|-1];
      Returned(found, calls, k) <==>
      (c.Begin? && !open && c.slotFound && c.started) || (c.Write? && open && c.taken)
  {
    RunMeaning(found, calls[..|calls|-1], k);
  }

  /** An open stream is closed by an end of either kind or an abort, and by nothing else; its header is then
      erased, except exactly after a verified end whose signature was accepted, whatever the image check says. */
  lemma ClosingErases(s: Stream, c: Call, k: Crypto)
    requires Sane(c) && s.active && !s.erased
    ensures Do(s, c, k).0.active <==> c.Begin? || c.Write?
    ensures Do(s, c, k).0.erased <==>
            c == Abort || c == End ||
            (c.EndVerified? && !(c.hasSignature && k.accepts(k.sha(s.hashed), c.signature)))
    ensures Do(s, c, k).0.image != s.image ==> c.Write?
  {
  }

  /** A failed image check with an accepted signature: the end returns false and the header stays. */
  lemma FailedCheckKeepsHeader(found: Stream, k: Crypto, sig: Bytes)
    requires k.accepts(k.sha([1]), sig) && !found.active
    ensures var calls := [Begin(true, true), Write([1], true, 0), EndVerified(true, sig, false)];
      && !Returned(found, calls, k)
      && Run(found, calls, k) == Stream(false, [1], [1], false)
  {
    var b, w, e := Begin(true, true), Write([1], true, 0), EndVerified(true, sig, false);
    assert [b, w, e][..2] == [b, w] && [b, w][..1] == [b] && [b][..0] == [];
    assert Run(found, [b], k) == Stream(true, [], [], false);
    assert Run(found, [b, w], k) == Stream(true, [1], [1], false);
  }

  /** Whatever the calls were, once a begin has opened a stream: the header of a closed slot survives if and only if
      a verified end was given a signature accepted for the digest of exactly the bytes written since the last begin,
      and no begin has opened a stream since. Before that the slot is as it was found, vouched for or not. */
  lemma {:induction false} SurvivingSlotIsSigned(found: Stream, calls: seq<Call>, k: Crypto)
    requires AllSane(calls) && !found.active
    ensures var s := Run(found, calls, k);
      if Begun(calls) then
        if s.active then !s.erased else !s.erased <==> Vouched(calls, k)
      else s == found && !Vouched(calls, k)
  {
    RunMeaning(found, calls, k);
    if calls != [] {
      var earlier := calls[..|calls|-1];
      SurvivingSlotIsSigned(found, earlier, k);
      RunMeaning(found, earlier, k);
      OpenMeansBegun(earlier);
      VouchedStep(earlier, calls[|calls|-1], k);
      assert calls == earlier + [calls[|calls|-1]];
    }
  }

  /** Some call was a verified end with an accepted signature for what was then written, and nothing has been
      opened since. */
  ghost predicate Vouched(calls: seq<Call>, k: Crypto) { exists i: nat :: VouchedAt(calls, i, k) }

  ghost predicate VouchedAt(calls: seq<Call>, i: nat, k: Crypto) {
    i < |calls| && SignedEnd(calls, i, k) && Written(calls[..i]) == Written(calls) && Quiet(calls, i + 1)
  }

  /** From call i on no stream has been open. */
  ghost predicate Quiet(calls: seq<Call>, i: nat) { forall j | i <= j <= |calls| :: !Open(calls[..j]) }

  lemma {:induction false} SignedBefore(earlier: seq<Call>, c: Call, i: nat, k: Crypto)
    requires i < |earlier|
    ensures SignedEnd(earlier + [c], i, k) <==> SignedEnd(earlier, i, k)
    ensures (earlier + [c])[..i] == earlier[..i]
  {
    assert (earlier + [c])[..i] == earlier[..i];
  }

  lemma {:induction false} QuietMore(earlier: seq<Call>, c: Call, i: nat)
    requires i <= |earlier|
    ensures Quiet(earlier + [c], i) <==> Quiet(earlier, i) && !Open(earlier + [c])
  {
    var calls := earlier + [c];
    assert calls[..|calls|] == calls;
    forall j | i <= j <= |earlier| ensures calls[..j] == earlier[..j] {}
  }

  lemma {:induction false} VouchedBefore(earlier: seq<Call>, c: Call, i: nat, k: Crypto)
    requires i < |earlier| && Written(earlier + [c]) == Written(earlier)
    ensures VouchedAt(earlier + [c], i, k) <==> VouchedAt(earlier, i, k) && !Open(earlier + [c])
  {
    SignedBefore(earlier, c, i, k);
    QuietMore(earlier, c, i + 1);
  }

  lemma {:induction false} VouchedNow(earlier: seq<Call>, c: Call, k: Crypto)
    ensures VouchedAt(earlier + [c], |earlier|, k) <==> !Open(earlier + [c]) && SignedEnd(earlier + [c], |earlier|, k)
  {
    var calls := earlier + [c];
    assert calls[..|earlier|] == earlier && calls[..|calls|] == calls;
  }

  lemma {:induction false} QuietMeansClosed(earlier: seq<Call>, c: Call, i: nat)
    requires i <= |earlier| && Quiet(earlier + [c], i)
    ensures !Open(earlier + [c]) && !Open(earlier) && Written(earlier + [c]) == Written(earlier)
  {
    var calls := earlier + [c];
    assert calls[..|earlier|] == earlier && calls[..|calls|] == calls;
  }

  lemma {:induction false} VouchedStep(earlier: seq<Call>, c: Call, k: Crypto)
    ensures var calls := earlier + [c];
      Vouched(calls, k) <==>
      !Open(calls) && (SignedEnd(calls, |earlier|, k) || (Vouched(earlier, k) && Written(calls) == Written(earlier)))
  {
    var calls := earlier + [c];
    VouchedNow(earlier, c, k);
    if Vouched(calls, k) {
      var i: nat :| VouchedAt(calls, i, k);
      if i < |earlier| {
        QuietMeansClosed(earlier, c, i + 1);
        VouchedBefore(earlier, c, i, k);
      }
    }
    if !Open(calls) && Vouched(earlier, k) && Written(calls) == Written(earlier) {
      var i: nat :| VouchedAt(earlier, i, k);
      VouchedBefore(earlier, c, i, k);
    }
  }

  /** A verified end does not notice a refused write that left bytes: here it returns true on a slot that holds
      more than was signed. */
  lemma RefusedBytesGoUnnoticed(found: Stream, k: Crypto, sig: Bytes)
    requires k.accepts(k.sha([2]), sig) && !found.active
    ensures var calls := [Begin(true, true), Write([1], false, 1), Write([2], true, 0), EndVerified(true, sig, true)];
      && Returned(found, calls, k) && Vouched(calls, k)
      && Written(calls) == [2] && Run(found, calls, k).image == [1, 2]
  {
    var b, x, w, e := Begin(true, true), Write([1], false, 1), Write([2], true, 0), EndVerified(true, sig, true);
    var calls := [b, x, w, e];
    forall i | 0 <= i < |calls| ensures Sane(calls[i]) {}
    assert calls == [b, x, w] + [e];
    assert calls[..3] == [b, x, w];
    assert [b, x, w][..2] == [b, x] && [b, x][..1] == [b] && [b][..0] == [];
    assert Run(found, [b], k) == Stream(true, [], [], false);
    assert Run(found, [b, x], k) == Stream(true, [1], [], false);
    assert Run(found, [b, x, w], k) == Stream(true, [1, 2], [2], false);
    assert Written([b, x]) == [] && Open([b, x]);
    assert Written([b, x, w]) == [2] && Open([b, x, w]);
    assert Begun(calls);
    SurvivingSlotIsSigned(found, calls, k);
  }

  // ---------- the code ----------

  class Flash {
    var active: bool
    var image: Bytes
    var hashed: Bytes
    var erased: bool
    const crypto: Crypto

    ghost function State(): Stream
      reads this
    {
      Stream(active, image, hashed, erased)
    }

    /** At power-up no stream is open, and the slot holds what it held before. */
    constructor (crypto: Crypto, image: Bytes, erased: bool)
      ensures State() == Stream(false, image, [], erased) && this.crypto == crypto
    {
      active, this.image, hashed, this.erased, this.crypto := false, image, [], erased, crypto;
    }

    method Invalidate()
      modifies this`erased
      ensures erased
    {
      erased := true;
    }

    method StreamBegin(slotFound: bool, started: bool) returns (ok: bool)
      modifies this
      ensures (State(), ok) == Do(old(State()), Begin(slotFound, started), crypto)
    {
      if active { return false; }
      if !slotFound { return false; }
      if !started { return false; }
      image, hashed, erased := [], [], false;
      active := true;
      return true;
    }

    method StreamWrite(data: Bytes, taken: bool, landed: nat) returns (ok: bool)
      requires landed <= |data|
      modifies this`image, this`hashed
      ensures (State(), ok) == Do(old(State()), Write(data, taken, landed), crypto)
    {
      if !active { return false; }
      image := image + if taken then data else data[..landed];
      if !taken { return false; }
      hashed := hashed + data;
      return true;
    }

    method StreamEndVerified(hasSignature: bool, signature: Bytes, imageOk: bool) returns (ok: bool)
      modifies this`active, this`erased
      ensures (State(), ok) == Do(old(State()), EndVerified(hasSignature, signature, imageOk), crypto)
    {
      if !active { return false; }
      var digest := crypto.sha(hashed);
      if !hasSignature || !crypto.accepts(digest, signature) {
        active := false;
        Invalidate();
        return false;
      }
      active := false;
      return imageOk;
    }

    method StreamEnd() returns (ok: bool)
      modifies this`active, this`erased
      ensures (State(), ok) == Do(old(State()), End, crypto)
    {
      if active {
        active := false;
        Invalidate();
      }
      return false;
    }

    method StreamAbort()
      modifies this`active, this`erased
      ensures State() == Do(old(State()), Abort, crypto).0
    {
      if !active { return; }
      active := false;
      Invalidate();
    }
  }
}
