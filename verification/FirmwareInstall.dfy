/** Installing a third-party image while it downloads: chunks of any size go through a head buffer, a
    decision and a window onto the slot. The result is that of looking at the whole file at once. */
module FirmwareInstall {
  import opened CText
  import opened Options

  type Bytes = seq<byte>

  const TP_HEAD: nat := 0x8C00
  const TABLE: nat := 0x8000           // where a full flash image keeps its partition table
  const WORD: nat := 0x1_0000_0000
  const IMAGE_MAGIC: byte := 0xE9

  datatype Why = NotAnApp | WriteFailed | NoApp | TooBig | NoSlot | DownloadError | Not200 | EmptyFile | ImageCheck

  /** What the device answers: the slot's size, the announced length (0 if none), whether the slot can be opened,
      and the driver's verdict on a finished image. */
  datatype Device = Device(slotSize: nat, total: nat, canOpen: bool, imageOk: Bytes -> bool)

  /** Where flash gave up: it refused the write that went beyond `room` bytes, and holds `left` of them then. */
  datatype Limit = Limit(room: nat, left: nat)

  datatype Window = Window(start: nat, limit: nat) | NoWindow(why: Why)

  // ---------- the decision ----------

  function Le32(h: Bytes, o: nat): (v: nat)
    requires o + 4 <= |h|
    ensures v < WORD
  {
    var b0: int, b1: int, b2: int, b3: int := h[o], h[o+1], h[o+2], h[o+3];
    b0 + 0x100 * b1 + 0x1_0000 * b2 + 0x100_0000 * b3
  }

  predicate IsTableEntry(h: Bytes, o: nat)
    requires o + 2 <= |h|
  {
    h[o] == 0xAA && h[o+1] == 0x50
  }

  /** The first app entry of the partition table, from entry o on; `NoApp` when the table ends before one. */
  function FindApp(h: Bytes, o: nat): (w: Window)
    decreases |h| - o
    ensures if w.Window? then w.start <= w.limit < WORD else w.why == NoApp
  {
    if o + 32 > |h| || !IsTableEntry(h, o) then NoWindow(NoApp)
    else if h[o+2] == 0 then
      var off, sz := Le32(h, o + 4), Le32(h, o + 8);
      Window(off, if sz > WORD - 1 - off then WORD - 1 else off + sz)
    else FindApp(h, o + 32)
  }

  /** The part of the file that goes to the slot, judged from the head of the file alone. */
  function Decide(head: Bytes, d: Device): (w: Window)
    ensures if w.Window? then w.start <= w.limit < WORD && w.limit - w.start <= d.slotSize else w.why != WriteFailed
  {
    var w :=
      if |head| >= 0x8020 && IsTableEntry(head, TABLE) then FindApp(head, TABLE)
      else if d.total != 0 && d.total > d.slotSize then NoWindow(TooBig)
      else Window(0, WORD - 1);
    if w.Window? && w.limit - w.start > d.slotSize then Window(w.start, w.start + d.slotSize) else w
  }

  // ---------- the whole file at once ----------

  function Min(a: nat, b: nat): nat { if a < b then a else b }

  /** The bytes of f inside the window. */
  function Payload(f: Bytes, w: Window): (p: Bytes)
    requires w.Window? && w.start <= w.limit
    ensures |p| == Min(w.limit, |f|) - Min(w.start, |f|)
  {
    f[Min(w.start, |f|)..Min(w.limit, |f|)]
  }

  /** What has become of the slot: the bytes written, or why it failed and what was written until then, or why it
      was not opened. */
  datatype Progress = Written(bytes: Bytes) | Failed(why: Why, left: Bytes) | Unopened(why: Why)

  predicate Rejects(p: Progress) { !p.Written? }

  function Stream(f: Bytes, w: Window, lim: Limit): Progress
    requires w.Window? && w.start <= w.limit
  {
    var p := Payload(f, w);
    if p != [] && p[0] != IMAGE_MAGIC then Failed(NotAnApp, [])
    else if |p| > lim.room then Failed(WriteFailed, p[..Min(lim.left, lim.room + 1)])
    else Written(p)
  }

  function Head(f: Bytes): Bytes { f[..Min(|f|, TP_HEAD)] }

  /** An image in the slot, with the digest of the whole file, or what went wrong; the slot was then either not
      touched or holds these bytes, with its header erased. */
  datatype Outcome = Installed(slot: Bytes, hashed: Bytes) | Rejected(why: Why, left: Option<Bytes>)

  /** What has become of the slot once it was decided what to do with f. */
  function ProgressOf(f: Bytes, d: Device, lim: Limit): Progress {
    var w := Decide(Head(f), d);
    if w.NoWindow? then Unopened(w.why)
    else if !d.canOpen then Unopened(NoSlot)
    else Stream(f, w, lim)
  }

  /** What is wrong with a download that was not finished, or empty. */
  function BadDownload(downloaded: bool, status: nat): Why {
    if !downloaded then DownloadError else if status != 200 then Not200 else EmptyFile
  }

  /** The result of installing a file whose download ended well or not. */
  function OutcomeOf(f: Bytes, downloaded: bool, status: nat, d: Device, lim: Limit): Outcome {
    if |f| < TP_HEAD && !(downloaded && status == 200 && f != []) then Rejected(BadDownload(downloaded, status), None)
    else
      match ProgressOf(f, d, lim)
      case Unopened(why) => Rejected(why, None)
      case Failed(why, left) => Rejected(why, Some(left))
      case Written(bytes) =>
        if !downloaded || status != 200 || bytes == [] then Rejected(BadDownload(downloaded, status), Some(bytes))
        else if !d.imageOk(bytes) then Rejected(ImageCheck, Some(bytes))
        else Installed(bytes, f)
  }

  /** A piece of an answer, with the status of the answer it belongs to. */
  datatype Chunk = Chunk(status: nat, data: Bytes)

  /** The file: what came in answers with status 200. Other answers, of redirections or errors, are dropped. */
  function FileOf(chunks: seq<Chunk>): Bytes {
    if chunks == [] then []
    else FileOf(chunks[..|chunks|-1]) + if chunks[|chunks|-1].status == 200 then chunks[|chunks|-1].data else []
  }

  // ---------- what the result means ----------

  /** More of the file only ever extends what goes into the slot. */
  lemma PayloadExtends(f: Bytes, g: Bytes, w: Window)
    requires w.Window? && w.start <= w.limit
    ensures Payload(f, w) <= Payload(f + g, w)
  {
  }

  /** A failure is final: it stays the verdict whatever follows. */
  lemma FailureStays(f: Bytes, g: Bytes, w: Window, lim: Limit)
    requires w.Window? && w.start <= w.limit && Rejects(Stream(f, w, lim))
    ensures Stream(f + g, w, lim) == Stream(f, w, lim)
  {
    PayloadExtends(f, g, w);
  }

  lemma {:induction false} FilePrefix(chunks: seq<Chunk>, n: nat)
    requires n <= |chunks|
    ensures FileOf(chunks[..n]) <= FileOf(chunks)
    decreases |chunks| - n
  {
    if n < |chunks| {
      assert chunks[..n+1][..n] == chunks[..n];
      FilePrefix(chunks, n + 1);
    } else {
      assert chunks[..n] == chunks;
    }
  }

  /** Once the head is complete, a failure is the verdict on every longer file. */
  lemma VerdictStays(f: Bytes, g: Bytes, d: Device, lim: Limit)
    requires |f| >= TP_HEAD && Rejects(ProgressOf(f, d, lim))
    ensures ProgressOf(f + g, d, lim) == ProgressOf(f, d, lim)
  {
    assert Head(f + g) == Head(f);
    var w := Decide(Head(f), d);
    if w.Window? && d.canOpen { FailureStays(f, g, w, lim); }
  }

  /** An installed slot holds exactly the window of the file: it starts with the image magic, is cut at the
      slot's size and the end of the file, and the digest covers the whole file. */
  lemma InstalledIsWindow(f: Bytes, downloaded: bool, status: nat, d: Device, lim: Limit)
    requires |f| < WORD && OutcomeOf(f, downloaded, status, d, lim).Installed?
    ensures var o := OutcomeOf(f, downloaded, status, d, lim);
      var w := Decide(Head(f), d);
      && w.Window? && w.start < |f| && w.start < w.limit
      && o.slot == f[w.start..Min(w.limit, |f|)] && o.hashed == f
      && 0 < |o.slot| <= d.slotSize && o.slot[0] == IMAGE_MAGIC && d.imageOk(o.slot)
      && (!(|f| >= 0x8020 && IsTableEntry(f, TABLE)) ==> w.start == 0 && (d.total == 0 || d.total <= d.slotSize))
  {
    var w := Decide(Head(f), d);
    assert w.Window?;
    assert Payload(f, w) != [];
    if |f| >= 0x8020 {
      assert |Head(f)| >= 0x8020 && Head(f)[TABLE] == f[TABLE] && Head(f)[TABLE+1] == f[TABLE+1];
    }
  }

  /** Whatever is left of a rejected file lies inside the slot and is the beginning of the file's window. */
  lemma RejectedLeavesBeginning(f: Bytes, downloaded: bool, status: nat, d: Device, lim: Limit)
    requires OutcomeOf(f, downloaded, status, d, lim).Rejected? && OutcomeOf(f, downloaded, status, d, lim).left.Some?
    ensures var w := Decide(Head(f), d);
      && w.Window? && d.canOpen
      && OutcomeOf(f, downloaded, status, d, lim).left.value <= Payload(f, w)
      && |OutcomeOf(f, downloaded, status, d, lim).left.value| <= d.slotSize
  {
  }

  predicate Refused(o: Outcome) { o.Rejected? && o.why == WriteFailed }

  /** The outcome on a flash that takes whatever fits the slot. */
  function IdealOutcome(f: Bytes, downloaded: bool, status: nat, d: Device): Outcome {
    OutcomeOf(f, downloaded, status, d, Limit(d.slotSize, 0))
  }

  /** Such a flash refuses nothing, and any other makes a difference only by a refusal. */
  lemma LimitMattersNot(f: Bytes, downloaded: bool, status: nat, d: Device, lim: Limit)
    ensures !Refused(IdealOutcome(f, downloaded, status, d))
    ensures OutcomeOf(f, downloaded, status, d, lim) == IdealOutcome(f, downloaded, status, d) <==>
            !Refused(OutcomeOf(f, downloaded, status, d, lim))
  {
  }

  // ---------- the driver ----------

  /** What the flash driver does with a piece that follows an image: takes it, or refuses it after some bytes. */
  datatype Driver = Driver(takes: (Bytes, Bytes) -> bool, lands: (Bytes, Bytes) -> nat)

  function Flatten(pieces: seq<Bytes>): Bytes {
    if pieces == [] then [] else Flatten(pieces[..|pieces|-1]) + pieces[|pieces|-1]
  }

  /** The driver takes the pieces one behind the other. */
  predicate TakesAll(driver: Driver, pieces: seq<Bytes>) {
    pieces == [] ||
    var init := pieces[..|pieces|-1];
    TakesAll(driver, init) && driver.takes(Flatten(init), pieces[|pieces|-1])
  }

  /** Each piece was offered when all before it were there, and taken. */
  lemma {:induction false} TakesAllMeans(driver: Driver, pieces: seq<Bytes>)
    ensures TakesAll(driver, pieces) <==>
            forall i | 0 <= i < |pieces| :: driver.takes(Flatten(pieces[..i]), pieces[i])
  {
    if pieces != [] {
      var init := pieces[..|pieces|-1];
      TakesAllMeans(driver, init);
      assert forall i | 0 <= i < |init| :: init[..i] == pieces[..i];
    }
  }

  /** The writes that led to an image: the driver took the pieces, and refused one more, if any, of which a beginning
      is there all the same. */
  datatype Writes = Writes(taken: seq<Bytes>, refused: Option<Bytes>) {
    function Offered(): Bytes { Flatten(taken) + if refused.Some? then refused.value else [] }

    predicate LeadTo(driver: Driver, image: Bytes) {
      var before := Flatten(taken);
      && TakesAll(driver, taken)
      && match refused
         case None => image == before
         case Some(p) => !driver.takes(before, p) && image == before + p[..Min(driver.lands(before, p), |p|)]
    }
  }

  lemma TakenMore(driver: Driver, w: Writes, image: Bytes, piece: Bytes)
    requires w.LeadTo(driver, image) && w.refused.None?
    ensures Flatten(w.taken + [piece]) == image + piece
    ensures driver.takes(image, piece) ==> Writes(w.taken + [piece], None).LeadTo(driver, image + piece)
    ensures !driver.takes(image, piece) ==>
              Writes(w.taken, Some(piece)).LeadTo(driver, image + piece[..Min(driver.lands(image, piece), |piece|)])
  {
    assert (w.taken + [piece])[..|w.taken|] == w.taken;
  }

  /** A driver that takes whatever fits the slot refuses none of the writes of a window. */
  lemma NothingRefused(driver: Driver, w: Writes, image: Bytes, f: Bytes, d: Device)
    requires forall before, piece | |before| + |piece| <= d.slotSize :: driver.takes(before, piece)
    requires w.LeadTo(driver, image)
    requires Decide(Head(f), d).Window? && w.Offered() <= Payload(f, Decide(Head(f), d))
    ensures w.refused == None
  {
  }
}
