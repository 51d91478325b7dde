/** The installer's code: counters, head buffer and flash stream updated chunk by chunk. */
module FirmwareInstaller {
  import opened CText
  import opened FirmwareInstall
  import opened Options
  import FS = FlashStream

  const PIECE: nat := 512

  /** What one more piece does to what has been written. */
  function Grown(p: Bytes, piece: Bytes, lim: Limit): Progress {
    if piece == [] then Written(p)
    else if p == [] && piece[0] != IMAGE_MAGIC then Failed(NotAnApp, [])
    else if |p| + |piece| > lim.room then Failed(WriteFailed, (p + piece)[..Min(lim.left, lim.room + 1)])
    else Written(p + piece)
  }

  /** The part of c that falls into the window when c comes after p bytes. */
  function PieceOf(c: Bytes, p: nat, w: Window): Bytes
    requires w.Window? && w.start <= w.limit
  {
    var end := p + |c|;
    var from, to := if p < w.start then w.start else p, if end > w.limit then w.limit else end;
    if to > from then c[from - p..to - p] else []
  }

  lemma SliceLeft(f: Bytes, c: Bytes, a: nat, b: nat)
    requires a <= b <= |f|
    ensures (f + c)[a..b] == f[a..b]
  {
  }

  lemma SliceRight(f: Bytes, c: Bytes, a: nat, b: nat)
    requires |f| <= a <= b <= |f| + |c|
    ensures (f + c)[a..b] == c[a - |f|..b - |f|]
  {
  }

  lemma SliceAcross(f: Bytes, c: Bytes, a: nat, b: nat)
    requires a <= |f| <= b <= |f| + |c|
    ensures (f + c)[a..b] == f[a..] + c[..b - |f|]
  {
  }

  lemma PayloadBefore(f: Bytes, c: Bytes, w: Window)
    requires w.Window? && w.start <= w.limit <= |f|
    ensures Payload(f + c, w) == Payload(f, w) && PieceOf(c, |f|, w) == []
  {
    SliceLeft(f, c, w.start, w.limit);
  }

  lemma PayloadAfter(f: Bytes, c: Bytes, w: Window)
    requires w.Window? && |f| <= w.start <= w.limit
    ensures Payload(f, w) == [] && Payload(f + c, w) == PieceOf(c, |f|, w)
  {
    var n := |f| + |c|;
    if w.start < n { SliceRight(f, c, w.start, Min(w.limit, n)); }
  }

  lemma PayloadAcross(f: Bytes, c: Bytes, w: Window)
    requires w.Window? && w.start < |f| < w.limit
    ensures Payload(f, w) == f[w.start..] && Payload(f + c, w) == f[w.start..] + PieceOf(c, |f|, w)
  {
    var b := Min(w.limit, |f + c|);
    SliceAcross(f, c, w.start, b);
    assert f[w.start..|f|] == f[w.start..] && c[0..b - |f|] == c[..b - |f|];
  }

  /** The part of a piece that falls into the window is what the payload grows by. */
  lemma PayloadOfPiece(f: Bytes, c: Bytes, w: Window)
    requires w.Window? && w.start <= w.limit
    ensures Payload(f + c, w) == Payload(f, w) + PieceOf(c, |f|, w)
  {
    if w.limit <= |f| {
      PayloadBefore(f, c, w);
      assert Payload(f, w) + [] == Payload(f, w);
    } else if |f| <= w.start {
      PayloadAfter(f, c, w);
      assert [] + PieceOf(c, |f|, w) == PieceOf(c, |f|, w);
    } else {
      PayloadAcross(f, c, w);
    }
  }

  lemma StreamOfPiece(f: Bytes, c: Bytes, w: Window, lim: Limit)
    requires w.Window? && w.start <= w.limit && Stream(f, w, lim).Written?
    ensures Stream(f + c, w, lim) == Grown(Stream(f, w, lim).bytes, PieceOf(c, |f|, w), lim)
  {
    var piece := PieceOf(c, |f|, w);
    PayloadOfPiece(f, c, w);
    assert piece == [] ==> Payload(f, w) + piece == Payload(f, w);
  }

  lemma WrittenStays(f: Bytes, w: Window, lim: Limit, more: Limit)
    requires w.Window? && w.start <= w.limit && Stream(f, w, lim).Written? && lim.room <= more.room
    ensures Stream(f, w, more) == Stream(f, w, lim)
  {
  }

  lemma PieceThrough(f: Bytes, c: Bytes, w: Window, lim: Limit, more: Limit)
    requires w.Window? && w.start <= w.limit && Stream(f, w, lim).Written? && lim.room <= more.room
    ensures Stream(f, w, lim).bytes == Payload(f, w)
    ensures Payload(f + c, w) == Payload(f, w) + PieceOf(c, |f|, w)
    ensures Stream(f + c, w, more) == Grown(Payload(f, w), PieceOf(c, |f|, w), more)
  {
    WrittenStays(f, w, lim, more);
    StreamOfPiece(f, c, w, more);
    PayloadOfPiece(f, c, w);
  }

  lemma NoWrap(n: nat)
    requires n < WORD
    ensures n % WORD == n
  {
  }

  class Installer {
    const head: array<byte>
    const flash: FS.Flash
    const d: Device
    const driver: Driver
    var headLen: nat
    var decided: bool
    var began: bool
    var failed: bool
    var why: Why
    var start: nat
    var limit: nat
    var pos: nat
    var written: nat
    var hashed: Bytes       // absorbed by the digest of the whole download
    ghost var seen: Bytes   // the file as far as it has gone through the window
    ghost var lim: Limit    // how much flash has taken, or where it gave up
    ghost var writes: Writes   // what the driver was given
    ghost const before: FS.Stream   // the flash stream as it was found

    constructor (flash: FS.Flash, d: Device, driver: Driver)
      ensures Waiting([], d.(canOpen := d.canOpen && !flash.active))
      ensures fresh(head) && this.flash == flash && this.d == d && this.driver == driver && before == flash.State()
    {
      head := new byte[TP_HEAD](_ => 0);
      this.flash, this.d, this.driver, lim, writes := flash, d, driver, Limit(0, 0), Writes([], None);
      headLen, decided, began, failed, why := 0, false, false, false, NotAnApp;
      start, limit, pos, written, hashed, seen, before := 0, 0, 0, 0, [], [], flash.State();
    }

    /** Nothing was written yet. */
    ghost predicate Untouched()
      reads this
    {
      !began && !failed && written == 0 && lim.room == 0 && writes == Writes([], None)
    }

    /** What is in the slot is what the writes led to; a write is refused if and only if that is the failure. */
    ghost predicate WritesTell()
      reads this, flash
    {
      writes.LeadTo(driver, flash.image) && (writes.refused.Some? <==> failed && why == WriteFailed)
    }

    /** Until the installer opens the flash stream, it leaves it alone. */
    ghost predicate Owned()
      reads this, flash
    {
      if began then flash.active && WritesTell() else flash.State() == before && !(failed && why == WriteFailed)
    }

    ghost predicate Tracks(p: Progress)
      reads this, flash
    {
      match p
      case Failed(reason, left) => failed && why == reason && flash.active && flash.image == left
      case Unopened(_) => false
      case Written(bytes) => !failed && flash.active && !flash.erased && flash.image == bytes && written == |bytes|
    }

    /** The window is open and everything in `seen` went through it. */
    ghost predicate Streaming()
      reads this, flash
    {
      && began && start <= limit < WORD && |seen| < WORD
      && (failed || (pos == |seen| && written == lim.room))
      && Tracks(Stream(seen, Window(start, limit), lim))
      && WritesTell() && writes.Offered() <= Payload(seen, Window(start, limit))
    }

    // ---------- the window ----------

    /** Moves past c, and gives the part of it that lies in the window. */
    method ClipPiece(c: Bytes) returns (piece: Bytes)
      requires start <= limit < WORD && pos + |c| < WORD
      modifies this`pos
      ensures pos == old(pos) + |c| && piece == PieceOf(c, old(pos), Window(start, limit))
    {
      var p := pos;
      var end := (p + |c|) % WORD;
      NoWrap(p + |c|);
      pos := end;
      var from := if p < start then start else p;
      var to := if end > limit then limit else end;
      piece := if to > from then c[from - p..to - p] else [];
    }

    method StreamPiece(c: Bytes) returns (ok: bool)
      requires Streaming() && !failed && |seen| + |c| < WORD
      modifies this`pos, this`failed, this`why, this`written, this`lim, this`writes, this`seen
      modifies flash`image, flash`hashed
      ensures Streaming() && seen == old(seen) + c && ok == !failed
    {
      ghost var w, f, before := Window(start, limit), seen, lim;
      var piece := ClipPiece(c);
      ok := SendPiece(piece);
      PieceThrough(f, c, w, before, lim);
      seen := seen + c;
    }

    method SendPiece(piece: Bytes) returns (ok: bool)
      requires !failed && flash.active && !flash.erased && written == |flash.image| == lim.room
      requires WritesTell()
      modifies this`failed, this`why, this`written, this`lim, this`writes, flash`image, flash`hashed
      ensures ok == !failed && Tracks(Grown(old(flash.image), piece, lim))
      ensures lim.room >= old(lim.room) && (ok ==> written == lim.room)
      ensures WritesTell() && writes.Offered() <= old(flash.image) + piece
    {
      ok := true;
      if piece != [] { ok := StreamBytes(piece); } else { assert flash.image + [] == flash.image; }
    }

    /** The first byte ever written must be that of an application image. */
    method StreamBytes(piece: Bytes) returns (ok: bool)
      requires piece != [] && !failed && flash.active && !flash.erased && written == |flash.image| == lim.room
      requires WritesTell()
      modifies this`failed, this`why, this`written, this`lim, this`writes, flash`image, flash`hashed
      ensures ok == !failed && Tracks(Grown(old(flash.image), piece, lim))
      ensures lim.room >= old(lim.room) && (ok ==> written == lim.room)
      ensures WritesTell() && writes.Offered() <= old(flash.image) + piece
    {
      if written == 0 && piece[0] != IMAGE_MAGIC {
        failed, why := true, NotAnApp;
        return false;
      }
      ok := Program(piece);
    }

    /** Writes into the slot; if flash refuses, some of the bytes may be there all the same. */
    method Program(piece: Bytes) returns (ok: bool)
      requires piece != [] && flash.active && written == |flash.image| == lim.room && !failed && WritesTell()
      modifies this`failed, this`why, this`written, this`lim, this`writes, flash`image, flash`hashed
      ensures ok ==> !failed && flash.image == old(flash.image) + piece && written == |flash.image| == lim.room
      ensures !ok ==> failed && why == WriteFailed && old(written) <= lim.room < old(written) + |piece|
      ensures !ok ==> flash.image == (old(flash.image) + piece)[..Min(lim.left, lim.room + 1)]
      ensures WritesTell() && writes.Offered() == old(flash.image) + piece
    {
      TakenMore(driver, writes, flash.image, piece);
      var landed := Min(driver.lands(flash.image, piece), |piece|);
      ok := flash.StreamWrite(piece, driver.takes(flash.image, piece), landed);
      if ok {
        written := written + |piece|;
        lim, writes := Limit(written, 0), Writes(writes.taken + [piece], None);
      } else {
        failed, why := true, WriteFailed;
        lim, writes := Limit(written + |piece| - 1, written + landed), Writes(writes.taken, Some(piece));
      }
    }

    // ---------- the decision ----------

    /** `fed` is what the download delivered so far; the head buffer holds its beginning. */
    ghost predicate Waiting(fed: Bytes, dev: Device)
      reads this, head, flash
    {
      && head.Length == TP_HEAD && headLen == |fed| < TP_HEAD && head[..headLen] == fed && hashed == fed
      && !decided && Untouched() && Owned()
      && dev == d.(canOpen := d.canOpen && !flash.active)
    }

    /** What the driver was given is the beginning of the file's window. */
    ghost predicate OfferFits(fed: Bytes, dev: Device)
      reads this
    {
      var w := Decide(Head(fed), dev);
      w.Window? && writes.Offered() <= Payload(fed, w)
    }

    ghost predicate Decided(fed: Bytes, dev: Device)
      reads this, flash
    {
      && decided && head.Length == TP_HEAD && Owned() && (exists canOpen :: dev == d.(canOpen := canOpen))
      && match ProgressOf(fed, dev, lim)
         case Unopened(reason) => failed && why == reason && !began
         case Failed(reason, left) => failed && why == reason && began && flash.image == left && OfferFits(fed, dev)
         case Written(_) =>
           !failed && Streaming() && seen == fed && hashed == fed && Decide(Head(fed), dev) == Window(start, limit)
    }

    method OpenWindow() returns (ok: bool)
      requires head.Length == TP_HEAD && headLen <= TP_HEAD && Untouched()
      modifies this`start, this`limit, this`began, this`failed, this`why, this`pos, this`seen, flash
      ensures ghost var w := Decide(head[..headLen], d);
        if w.NoWindow? then !ok && failed && why == w.why && !began && flash.State() == old(flash.State())
        else if old(flash.active) || !d.canOpen
          then !ok && failed && why == NoSlot && !began && flash.State() == old(flash.State())
        else ok && !failed && Streaming() && seen == [] && Window(start, limit) == w
    {
      var w := Decide(head[..headLen], d);
      if w.NoWindow? {
        failed, why := true, w.why;
        return false;
      }
      start, limit := w.start, w.limit;
      var ready := flash.StreamBegin(true, d.canOpen);
      if !ready {
        failed, why := true, NoSlot;
        return false;
      }
      began := true;
      pos, seen := 0, [];
      ok := true;
    }

    /** Sends the buffered head through the window, in pieces. */
    method Replay() returns (ok: bool)
      requires head.Length == TP_HEAD && headLen <= TP_HEAD && Streaming() && !failed && seen == []
      modifies this`pos, this`failed, this`why, this`written, this`lim, this`writes, this`seen
      modifies flash`image, flash`hashed
      ensures Streaming() && ok == !failed
      ensures ok ==> seen == head[..headLen]
      ensures !ok ==> seen <= head[..headLen]
    {
      var o: nat := 0;
      while o < headLen
        invariant Streaming() && !failed && seen == head[..Min(o, headLen)]
        decreases headLen - o
      {
        ok := ReplayPiece(o, Min(headLen - o, PIECE));
        if !ok { return; }
        o := o + PIECE;
      }
      ok := true;
    }

    method ReplayPiece(o: nat, m: nat) returns (ok: bool)
      requires head.Length == TP_HEAD && o + m <= headLen <= TP_HEAD && Streaming() && !failed && seen == head[..o]
      modifies this`pos, this`failed, this`why, this`written, this`lim, this`writes, this`seen
      modifies flash`image, flash`hashed
      ensures Streaming() && ok == !failed && seen == head[..o + m]
    {
      assert head[..o] + head[o..o + m] == head[..o + m];
      ok := StreamPiece(head[o..o + m]);
    }

    /** A failure in the head is the verdict on the file. */
    static lemma FailureInHead(fed: Bytes, seen: Bytes, w: Window, lim: Limit)
      requires w.Window? && w.start <= w.limit && seen <= Head(fed) && Rejects(Stream(seen, w, lim))
      ensures Stream(fed, w, lim) == Stream(seen, w, lim) && Payload(seen, w) <= Payload(fed, w)
    {
      var rest := fed[|seen|..];
      assert seen <= fed && fed == seen + rest;
      PayloadExtends(seen, rest, w);
      FailureStays(seen, rest, w, lim);
    }

    /** Sends the head through the window just opened; if that fails, the file has failed. */
    method ReplayHead(ghost fed: Bytes) returns (ok: bool)
      requires head.Length == TP_HEAD && headLen <= TP_HEAD && head[..headLen] == Head(fed)
      requires Streaming() && !failed && seen == []
      modifies this`pos, this`failed, this`why, this`written, this`lim, this`writes, this`seen
      modifies flash`image, flash`hashed
      ensures Streaming() && ok == !failed
      ensures ok ==> seen == Head(fed)
      ensures !ok ==> Stream(fed, Window(start, limit), lim) == Failed(why, flash.image)
      ensures !ok ==> writes.Offered() <= Payload(fed, Window(start, limit))
    {
      ok := Replay();
      if !ok { FailureInHead(fed, seen, Window(start, limit), lim); }
    }

    /** Decides what to do with the file, whose beginning is in the head buffer. */
    method TpDecide(ghost fed: Bytes, ghost dev: Device) returns (ok: bool)
      requires head.Length == TP_HEAD && headLen <= TP_HEAD && !decided && Untouched()
      requires head[..headLen] == Head(fed) && dev == d.(canOpen := d.canOpen && !flash.active) && Owned()
      modifies this`decided, this`start, this`limit, this`began, this`failed, this`why, this`pos, this`written
      modifies this`lim, this`writes, this`seen, flash
      ensures decided && ok == !failed && Owned()
      ensures ok ==> Streaming() && seen == Head(fed) && Decide(Head(fed), dev) == Window(start, limit)
      ensures ok ==> ProgressOf(fed, dev, lim) == Stream(fed, Window(start, limit), lim)
      ensures !ok && !began ==> ProgressOf(fed, dev, lim) == Unopened(why)
      ensures !ok && began ==> ProgressOf(fed, dev, lim) == Failed(why, flash.image) && OfferFits(fed, dev)
    {
      decided := true;
      ok := OpenWindow();
      if !ok { return; }
      ok := ReplayHead(fed);
    }

    // ---------- the download ----------

    /** Moves what still fits into the head buffer. */
    method FillHead(c: Bytes, ghost fed: Bytes) returns (rest: Bytes)
      requires head.Length == TP_HEAD && headLen == |fed| < TP_HEAD && head[..headLen] == fed
      modifies this`headLen, head
      ensures headLen == Min(|fed + c|, TP_HEAD) && head[..headLen] == Head(fed + c)
      ensures Head(fed + c) + rest == fed + c
    {
      var take := Min(TP_HEAD - headLen, |c|);
      forall i | 0 <= i < take { head[headLen + i] := c[i]; }
      assert head[..headLen] == fed;
      headLen := headLen + take;
      assert head[..headLen] == fed + c[..take] == Head(fed + c);
      rest := c[take..];
      assert fed + c == fed + (c[..take] + rest);
    }

    /** Sends what follows `seen` through the open window. */
    method StreamRest(rest: Bytes, ghost fed: Bytes, ghost dev: Device)
      requires decided && head.Length == TP_HEAD && Owned() && Streaming() && !failed && hashed == fed && |fed| < WORD
               && seen + rest == fed
      requires (exists canOpen :: dev == d.(canOpen := canOpen)) && Decide(Head(fed), dev) == Window(start, limit)
      requires ProgressOf(fed, dev, lim) == Stream(fed, Window(start, limit), lim)
      modifies this`pos, this`failed, this`why, this`written, this`lim, this`writes, this`seen
      modifies flash`image, flash`hashed
      ensures Decided(fed, dev)
    {
      if rest != [] { var _ := StreamPiece(rest); }
      assert seen == fed;
    }

    lemma WindowStays(fed: Bytes, c: Bytes, dev: Device, lim: Limit)
      requires |fed| >= TP_HEAD
      ensures Head(fed + c) == Head(fed)
      ensures ProgressOf(fed, dev, lim).Written? ==>
                && Decide(Head(fed), dev).Window?
                && ProgressOf(fed + c, dev, lim) == Stream(fed + c, Decide(Head(fed), dev), lim)
    {
      assert Head(fed + c) == Head(fed);
    }

    method TpFeed(c: Bytes, ghost fed: Bytes, ghost dev: Device)
      requires Waiting(fed, dev) || (Decided(fed, dev) && !failed && |fed| >= TP_HEAD)
      requires |fed| + |c| < WORD
      modifies this, head, flash
      ensures if |fed + c| < TP_HEAD then Waiting(fed + c, dev) else Decided(fed + c, dev)
    {
      hashed := hashed + c;
      if decided {
        WindowStays(fed, c, dev, lim);
        StreamRest(c, fed + c, dev);
      } else {
        var rest := FillHead(c, fed);
        if headLen < TP_HEAD { return; }
        var ok := TpDecide(fed + c, dev);
        if ok { StreamRest(rest, fed + c, dev); }
      }
    }
  }

  /** A failure stays when more of the file comes. */
  lemma DecidedStays(c: Installer, fed: Bytes, more: Bytes, dev: Device)
    requires c.Decided(fed, dev) && c.failed && |fed| >= TP_HEAD
    ensures c.Decided(fed + more, dev)
  {
    VerdictStays(fed, more, dev, c.lim);
    assert Head(fed + more) == Head(fed);
    var w := Decide(Head(fed), dev);
    if w.Window? { PayloadExtends(fed, more, w); }
  }

  /** Feeds the chunks of answers with status 200, except what follows a failure. */
  method Download(c: Installer, chunks: seq<Chunk>, ghost dev: Device)
    requires c.Waiting([], dev) && |FileOf(chunks)| < WORD
    modifies c, c.head, c.flash
    ensures ghost var f := FileOf(chunks);
      if |f| < TP_HEAD then c.Waiting(f, dev) else c.Decided(f, dev)
  {
    for i := 0 to |chunks|
      invariant ghost var f := FileOf(chunks[..i]);
        if |f| < TP_HEAD then c.Waiting(f, dev) else c.Decided(f, dev)
    {
      ghost var f := FileOf(chunks[..i]);
      assert chunks[..i+1][..i] == chunks[..i];
      FilePrefix(chunks, i + 1);
      if chunks[i].status == 200 {
        if c.failed {
          DecidedStays(c, f, chunks[i].data, dev);
        } else {
          c.TpFeed(chunks[i].data, f, dev);
        }
      } else {
        assert f + [] == f;
      }
    }
    assert chunks[..|chunks|] == chunks;
  }

  /** A file that ends within the head is decided on at its end. */
  method DecideShort(c: Installer, ghost f: Bytes, ghost dev: Device)
    requires c.Waiting(f, dev)
    modifies c, c.flash
    ensures c.Decided(f, dev)
  {
    assert Head(f) == f;
    var open := c.TpDecide(f, dev);
    if open { c.StreamRest([], f, dev); }
  }

  /** Gives up an opened slot unless all went well; a finished image still has to pass the driver's check. */
  method Conclude(c: Installer, ghost f: Bytes, ghost dev: Device, downloaded: bool, status: nat) returns (o: Outcome)
    requires if |f| < TP_HEAD && !(downloaded && status == 200 && f != []) then c.Waiting(f, dev) else c.Decided(f, dev)
    modifies c.flash
    ensures o == OutcomeOf(f, downloaded, status, dev, c.lim)
    ensures o.Installed? ==> c.flash.image == o.slot && !c.flash.active && !c.flash.erased
    ensures o.Rejected? && o.left.None? ==> c.flash.State() == c.before
    ensures o.Rejected? && o.left.Some? ==> !c.flash.active && c.flash.erased && c.flash.image == o.left.value
    ensures o.Installed? || o.left.Some? ==>
              && c.writes.LeadTo(c.driver, c.flash.image)
              && (c.writes.refused.Some? <==> Refused(o)) && c.OfferFits(f, dev)
    ensures o.Rejected? && o.left.None? ==> !Refused(o)
  {
    var ok := downloaded && status == 200 && !c.failed && c.written > 0;
    if !ok {
      if c.began { c.flash.StreamAbort(); }
      var why := if c.failed then c.why else BadDownload(downloaded, status);
      o := Rejected(why, if c.began then Some(c.flash.image) else None);
    } else {
      c.flash.active := false;
      if c.d.imageOk(c.flash.image) {
        o := Installed(c.flash.image, c.hashed);
      } else {
        c.flash.Invalidate();
        o := Rejected(ImageCheck, Some(c.flash.image));
      }
    }
  }

  /** What an installation did to the slot: the writes are pieces of the file's window, one behind the other, and one
      was refused if and only if that is the outcome. */
  ghost predicate WritesMade(w: Writes, o: Outcome, driver: Driver, f: Bytes, dev: Device) {
    if o.Rejected? && o.left.None? then !Refused(o)
    else
      && w.LeadTo(driver, if o.Installed? then o.slot else o.left.value) && (w.refused.Some? <==> Refused(o))
      && Decide(Head(f), dev).Window? && w.Offered() <= Payload(f, Decide(Head(f), dev))
  }

  /** Installs a file that arrives in the given chunks. Unless the driver refuses one of the writes, the outcome and
      the slot's bytes depend on the whole file only; if it does, the slot holds what was taken before. A slot that
      was opened in vain is left closed with its header erased. */
  method Install(flash: FS.Flash, d: Device, driver: Driver, chunks: seq<Chunk>, downloaded: bool, status: nat)
    returns (o: Outcome, ghost writes: Writes)
    requires |FileOf(chunks)| < WORD
    modifies flash
    ensures ghost var f, dev := FileOf(chunks), d.(canOpen := d.canOpen && !old(flash.active));
      && (o == IdealOutcome(f, downloaded, status, dev) <==> !Refused(o))
      && (exists lim :: o == OutcomeOf(f, downloaded, status, dev, lim))
      && WritesMade(writes, o, driver, f, dev)
    ensures o.Installed? ==> flash.image == o.slot && !flash.active && !flash.erased
    ensures o.Rejected? && o.left.None? ==> flash.State() == old(flash.State())
    ensures o.Rejected? && o.left.Some? ==> !flash.active && flash.erased && flash.image == o.left.value
  {
    ghost var dev := d.(canOpen := d.canOpen && !flash.active);
    var c := new Installer(flash, d, driver);
    Download(c, chunks, dev);
    ghost var f := FileOf(chunks);
    if downloaded && status == 200 && !c.failed && !c.decided && c.headLen > 0 { DecideShort(c, f, dev); }
    o := Conclude(c, f, dev, downloaded, status);
    writes := c.writes;
    LimitMattersNot(f, downloaded, status, dev, c.lim);
  }

  /** So on a driver that takes whatever fits the slot the outcome depends on the file alone. */
  lemma GoodFlashIsIdeal(w: Writes, o: Outcome, driver: Driver, f: Bytes, downloaded: bool, status: nat, dev: Device)
    requires forall before, piece | |before| + |piece| <= dev.slotSize :: driver.takes(before, piece)
    requires WritesMade(w, o, driver, f, dev) && (!Refused(o) ==> o == IdealOutcome(f, downloaded, status, dev))
    ensures o == IdealOutcome(f, downloaded, status, dev)
  {
    if Refused(o) { NothingRefused(driver, w, o.left.value, f, dev); }
  }
}
