/** The tar command's code: a 512-byte header array filled in place, files copied block by block, and
    the read loop. Each method is proved against TarFormat and TarArchive. */
module TarTool {
  import opened CText
  import opened TarFormat
  import opened TarArchive

  /** A file being written on a disk with limited room. */
  class OutFile {
    var bytes: Bytes
    const room: nat

    constructor (room: nat)
      ensures bytes == [] && this.room == room
    {
      this.bytes, this.room := [], room;
    }

    /** fwrite of a whole block. */
    method Write(data: Bytes) returns (ok: bool)
      modifies this
      ensures ok == (|old(bytes)| + |data| <= room)
      ensures bytes == if ok then old(bytes) + data else old(bytes)
    {
      ok := |bytes| + |data| <= room;
      if ok { bytes := bytes + data; }
    }
  }

  // ---------- writing ----------

  /** Stores s in a header that is zero from `end` on. */
  method PutNext(h: array<byte>, end: nat, s: Bytes)
    requires end + |s| <= h.Length && h[end..] == Zeros(h.Length - end)
    modifies h
    ensures h[..end + |s|] == old(h[..end]) + s
    ensures h[end + |s|..] == Zeros(h.Length - end - |s|)
  {
    forall i | 0 <= i < |s| { h[end + i] := s[i]; }
  }

  lemma SkipZeros(h: Bytes, end: nat, n: nat)
    requires end + n <= |h| && h[end..] == Zeros(|h| - end)
    ensures h[..end + n] == h[..end] + Zeros(n) && h[end + n..] == Zeros(|h| - end - n)
  {
    forall j | end <= j < |h| ensures h[j] == 0 { assert h[end..][j - end] == 0; }
  }

  method FillFront(h: array<byte>, name: Bytes, size: nat, dir: bool, mtime: nat)
    requires h.Length == BLOCK && h[..] == Zeros(BLOCK)
    modifies h
    ensures h[..148] == Front(name, size, dir, mtime) && h[148..] == Zeros(364)
  {
    assert h[..][0..] == h[..];
    PutNext(h, 0, Cut(name, 100));
    SkipZeros(h[..], |Cut(name, 100)|, 100 - |Cut(name, 100)|);
    assert h[..100] == NameField(name);
    PutNext(h, 100, OctalField(if dir then 0x1ED else 0x1A4, 8));
    PutNext(h, 108, OctalField(0, 8));
    PutNext(h, 116, OctalField(0, 8));
    PutNext(h, 124, OctalField(if dir then 0 else size, 12));
    PutNext(h, 136, OctalField(mtime, 12));
  }

  const BLANKS: Bytes := [SPACE, SPACE, SPACE, SPACE, SPACE, SPACE, SPACE, SPACE]

  const USTAR: Bytes := [0x75, 0x73, 0x74, 0x61, 0x72, 0]

  /** A header filled from the checksum field on, piece by piece. */
  lemma {:induction false} BackPieces(h: Bytes, front: Bytes, kind: byte)
    requires |h| == BLOCK && |front| == 148
    requires h[..265] == front + BLANKS + [kind] + Zeros(100) + USTAR + [0x30, 0x30] && h[265..] == Zeros(247)
    ensures h[..148] == front && h[148..156] == BLANKS
    ensures h[156..] == [kind] + Zeros(100) + USTAR + [0x30, 0x30] + Zeros(247)
  {
    var tail := [kind] + Zeros(100) + USTAR + [0x30, 0x30];
    assert h[..265] == front + BLANKS + tail;
    assert h == (front + BLANKS + tail) + Zeros(247);
    assert h[156..] == tail + Zeros(247);
  }

  method FillBack(h: array<byte>, dir: bool)
    requires h.Length == BLOCK && h[148..] == Zeros(364)
    modifies h
    ensures h[..148] == old(h[..148]) && h[148..156] == BLANKS && h[156..] == Back(dir)
  {
    ghost var front := h[..148];
    var kind: byte := if dir then TYPE_DIR else TYPE_FILE;
    PutNext(h, 148, BLANKS);
    PutNext(h, 156, [kind]);
    SkipZeros(h[..], 157, 100);
    PutNext(h, 257, USTAR);
    PutNext(h, 263, [0x30, 0x30]);
    BackPieces(h[..], front, kind);
  }

  method SumAll(h: array<byte>) returns (sum: nat)
    ensures sum == Sum(h[..])
  {
    sum := 0;
    for i := 0 to h.Length
      invariant sum == Sum(h[..i])
    {
      assert h[..i+1][..i] == h[..i];
      sum := sum + h[i];
    }
    assert h[..h.Length] == h[..];
  }

  lemma SumWithBlanks(front: Bytes, back: Bytes)
    ensures Sum(front + BLANKS + back) == CheckSum(front, back)
  {
    SumConcat(front + BLANKS, back);
    SumConcat(front, BLANKS);
    SumBlanks(8);
  }

  lemma {:induction false} SumBlanks(n: nat)
    requires n <= 8
    ensures Sum(BLANKS[..n]) == n * SPACE
    ensures n == 8 ==> Sum(BLANKS) == 8 * SPACE
  {
    assert BLANKS[..8] == BLANKS;
    if n > 0 {
      assert BLANKS[..n][..n-1] == BLANKS[..n-1];
      SumBlanks(n - 1);
    }
  }

  method FillHeader(h: array<byte>, name: Bytes, size: nat, dir: bool, mtime: nat)
    requires h.Length == BLOCK && h[..] == Zeros(BLOCK)
    modifies h
    ensures h[..] == Header(name, size, dir, mtime)
  {
    FillFront(h, name, size, dir, mtime);
    FillBack(h, dir);
    ghost var front, back := h[..148], h[156..];
    assert h[..] == front + BLANKS + back;
    var sum := SumAll(h);
    SumWithBlanks(front, back);
    var field := SumField(sum);
    forall i | 0 <= i < 8 { h[148 + i] := field[i]; }
    assert h[..148] == front && h[156..] == back;
    assert h[148..156] == field;
    assert h[..] == h[..148] + h[148..156] + h[156..];
  }

  method WriteHeader(f: OutFile, name: Bytes, size: nat, dir: bool, mtime: nat) returns (ok: bool)
    modifies f
    ensures ok == (|old(f.bytes)| + BLOCK <= f.room)
    ensures f.bytes == if ok then old(f.bytes) + Header(name, size, dir, mtime) else old(f.bytes)
  {
    var h := new byte[BLOCK](_ => 0);
    assert h[..] == Zeros(BLOCK);
    FillHeader(h, name, size, dir, mtime);
    ok := f.Write(h[..]);
  }

  /** A copy half done: `done` bytes of whole blocks are written, `left` bytes of the file are to come. */
  ghost predicate Copying(before: Bytes, now: Bytes, room: nat, data: Bytes, size: nat, done: nat, left: nat) {
    && done + Padded(left) == Padded(size) && (left == 0 ==> size <= |data|) && (left > 0 ==> done + left == size)
    && (if left > 0 then done <= |data| && now == before + data[..done]
        else size <= |data| && now == before + data[..size] + Zeros(Padded(size) - size))
    && (done > 0 ==> |before| + done <= room) && (|before| <= room ==> |now| <= room)
  }

  lemma JoinPieces(before: Bytes, data: Bytes, done: nat, want: nat, pad: Bytes)
    requires done + want <= |data|
    ensures before + data[..done] + (data[done..done + want] + pad) == before + data[..done + want] + pad
  {
    assert data[..done + want] == data[..done] + data[done..done + want];
  }

  lemma {:induction false} PaddedStep(left: nat)
    requires left > 0
    ensures Padded(left) == if left <= BLOCK then BLOCK else BLOCK + Padded(left - BLOCK)
  {
  }

  lemma {:induction false} CopyMore(before: Bytes, now: Bytes, room: nat, data: Bytes, size: nat, done: nat, left: nat,
      want: nat)
    requires Copying(before, now, room, data, size, done, left) && left > 0
    requires want == if left < BLOCK then left else BLOCK
    requires done + want <= |data| && |now| + BLOCK <= room
    ensures Copying(before, now + (data[done..done + want] + Zeros(BLOCK - want)),
                    room, data, size, done + BLOCK, left - want)
  {
    JoinPieces(before, data, done, want, Zeros(BLOCK - want));
    PaddedStep(left);
    assert left > want ==> before + data[..done + want] + Zeros(0) == before + data[..done + want];
  }

  method CopyBlock(f: OutFile, data: Bytes, size: nat, done: nat, left: nat, want: nat, ghost before: Bytes)
      returns (ok: bool)
    requires Copying(before, f.bytes, f.room, data, size, done, left) && left > 0
    requires want == if left < BLOCK then left else BLOCK
    modifies f
    ensures ok ==> Copying(before, f.bytes, f.room, data, size, done + BLOCK, left - want)
    ensures !ok ==> size > |data| || |before| + Padded(size) > f.room
    ensures |before| <= f.room ==> |f.bytes| <= f.room
  {
    if done + want > |data| { return false; }
    if |f.bytes| + BLOCK <= f.room { CopyMore(before, f.bytes, f.room, data, size, done, left, want); }
    PaddedStep(left);
    ok := f.Write(data[done..done + want] + Zeros(BLOCK - want));
  }

  /** Copies `size` bytes of a file that holds `data`, in blocks filled up with zeros; fails when the disk is
      full or the file has become shorter. */
  method WriteBlocks(f: OutFile, data: Bytes, size: nat) returns (ok: bool)
    modifies f
    ensures ok == (size <= |data| && (size > 0 ==> |old(f.bytes)| + Padded(size) <= f.room))
    ensures |old(f.bytes)| <= f.room ==> |f.bytes| <= f.room
    ensures ok ==> f.bytes == old(f.bytes) + data[..size] + Zeros(Padded(size) - size)
  {
    ghost var before := f.bytes;
    var done: nat, left: nat := 0, size;
    assert before + data[..0] + Zeros(0) == before == before + data[..0];
    while left > 0
      invariant Copying(before, f.bytes, f.room, data, size, done, left) && (size > 0 && left == 0 ==> done > 0)
      decreases left
    {
      var want := if left < BLOCK then left else BLOCK;
      ok := CopyBlock(f, data, size, done, left, want, before);
      if !ok { return; }
      done, left := done + BLOCK, left - want;
    }
    ok := true;
  }

  const MAX_ENTRIES: nat := 200

  /** What the writer is offered: a name it passes over before it counts (too long, forbidden, or the archive
      itself), one it passes over after that (it cannot be looked at or opened, or lies too deep), an entry, a file
      that has become shorter than it was, and anything for which there is no memory. */
  datatype Candidate = PassedOver | Unreadable | Readable(e: Entry) | Shorter(name: Bytes, size: nat, content: Bytes,
      mtime: nat)
                     | NoMemory

  ghost predicate Offered(c: Candidate) { c.Shorter? ==> |c.content| < c.size }

  /** The entries among the candidates. */
  function Taken(cands: seq<Candidate>): seq<Entry> {
    if cands == [] then []
    else (if cands[0].Readable? then [cands[0].e] else []) + Taken(cands[1..])
  }

  /** Whether all candidates can be dealt with when `count` entries are already in the archive. */
  predicate AllDone(cands: seq<Candidate>, count: nat)
    decreases |cands|
  {
    cands == [] ||
    match cands[0]
    case PassedOver => AllDone(cands[1..], count)
    case Unreadable => count < MAX_ENTRIES && AllDone(cands[1..], count)
    case Readable(_) => count < MAX_ENTRIES && AllDone(cands[1..], count + 1)
    case _ => false
  }

  /** That is so exactly if no file got shorter, there was memory, and nothing that counts comes after 200 entries. */
  lemma {:induction false} AllDoneMeans(cands: seq<Candidate>, count: nat)
    ensures AllDone(cands, count) <==>
      forall i | 0 <= i < |cands| && !cands[i].PassedOver? ::
        (cands[i].Unreadable? || cands[i].Readable?) && count + |Taken(cands[..i])| < MAX_ENTRIES
    decreases |cands|
  {
    if cands != [] {
      var c, rest := cands[0], cands[1..];
      var next := if c.Readable? then count + 1 else count;
      AllDoneMeans(rest, next);
      forall i | 1 <= i < |cands| ensures cands[i] == rest[i - 1]
          && count + |Taken(cands[..i])| == next + |Taken(rest[..i - 1])| {
        assert cands[..i][1..] == rest[..i - 1];
      }
      if AllDone(cands, count) {
        forall i | 0 <= i < |cands| && !cands[i].PassedOver?
          ensures (cands[i].Unreadable? || cands[i].Readable?) && count + |Taken(cands[..i])| < MAX_ENTRIES
        {
          if i > 0 { assert !rest[i - 1].PassedOver?; }
        }
      } else if AllDone(rest, next) {
        assert Taken(cands[..0]) == [];
      } else {
        var k :| 0 <= k < |rest| && !rest[k].PassedOver?
          && !((rest[k].Unreadable? || rest[k].Readable?) && next + |Taken(rest[..k])| < MAX_ENTRIES);
        assert cands[k + 1] == rest[k];
      }
    }
  }

  /** Where the writer stands: what is written and what is still to come make up the records of all entries, and
      the rest can be dealt with if all could. */
  ghost predicate Stands(done: Bytes, count: nat, left: seq<Candidate>, all: Bytes, total: nat, fine: bool) {
    done + Records(Taken(left)) == all && count + |Taken(left)| == total && AllDone(left, count) == fine
  }

  lemma {:induction false} StandsFirst(cands: seq<Candidate>)
    ensures Stands([], 0, cands, Records(Taken(cands)), |Taken(cands)|, AllDone(cands, 0))
  {
    assert [] + Records(Taken(cands)) == Records(Taken(cands));
  }

  lemma {:induction false} StandsNext(done: Bytes, count: nat, left: seq<Candidate>, all: Bytes, total: nat, fine: bool)
    requires Stands(done, count, left, all, total, fine) && left != []
    ensures match left[0]
      case PassedOver => Stands(done, count, left[1..], all, total, fine)
      case Unreadable => if count < MAX_ENTRIES then Stands(done, count, left[1..], all, total, fine) else !fine
      case Readable(e) =>
        && |done| + |Record(e)| <= |all|
        && if count < MAX_ENTRIES then Stands(done + Record(e), count + 1, left[1..], all, total, fine) else !fine
      case _ => !fine
  {
    if left[0].Readable? {
      RecordsCons(left[0].e, Taken(left[1..]));
      JoinRecord(done, Record(left[0].e), Records(Taken(left[1..])), all);
    } else {
      assert Taken(left) == Taken(left[1..]);
    }
  }

  lemma {:induction false} RecordsCons(e: Entry, rest: seq<Entry>)
    ensures Records([e] + rest) == Record(e) + Records(rest)
  {
    assert ([e] + rest)[1..] == rest;
  }

  lemma JoinRecord(done: Bytes, record: Bytes, rest: Bytes, all: Bytes)
    requires done + (record + rest) == all
    ensures (done + record) + rest == all && |done| + |record| <= |all|
  {
  }

  lemma {:induction false} StandsLast(done: Bytes, count: nat, all: Bytes, total: nat, fine: bool)
    requires Stands(done, count, [], all, total, fine)
    ensures done == all && count == total && fine
  {
    assert done + [] == done;
  }

  /** One candidate. */
  method Add(f: OutFile, c: Candidate, count: nat) returns (ok: bool, total: nat)
    requires Offered(c) && |f.bytes| <= f.room
    modifies f
    ensures |f.bytes| <= f.room
    ensures match c
      case PassedOver => ok && total == count && f.bytes == old(f.bytes)
      case Unreadable => ok == (count < MAX_ENTRIES) && total == count && f.bytes == old(f.bytes)
      case Readable(e) =>
        && ok == (count < MAX_ENTRIES && |old(f.bytes)| + |Record(e)| <= f.room)
        && (ok ==> total == count + 1 && f.bytes == old(f.bytes) + Record(e))
      case _ => !ok
  {
    total := count;
    if c.PassedOver? { return true, total; }
    if count >= MAX_ENTRIES { return false, total; }
    match c
    case Unreadable => ok := true;
    case Readable(e) =>
      ok := WriteEntry(f, e);
      total := total + 1;
    case Shorter(name, size, content, mtime) =>
      ok := WriteHeader(f, name, size, false, mtime);
      if ok { ok := WriteBlocks(f, content, size); }
    case NoMemory => ok := false;
  }

  method AddNext(f: OutFile, c: Candidate, count: nat, ghost left: seq<Candidate>, ghost all: Bytes, ghost total: nat,
                 ghost fine: bool) returns (ok: bool, more: nat)
    requires Offered(c) && |f.bytes| <= f.room && left != [] && left[0] == c
    requires Stands(f.bytes, count, left, all, total, fine)
    modifies f
    ensures |f.bytes| <= f.room
    ensures if ok then Stands(f.bytes, more, left[1..], all, total, fine) else !fine || |all| > f.room
  {
    StandsNext(f.bytes, count, left, all, total, fine);
    ok, more := Add(f, c, count);
  }

  method AddAll(f: OutFile, cands: seq<Candidate>, ghost all: Bytes, ghost total: nat, ghost fine: bool)
      returns (ok: bool, count: nat)
    requires forall i | 0 <= i < |cands| :: Offered(cands[i])
    requires |f.bytes| <= f.room && Stands(f.bytes, 0, cands, all, total, fine)
    modifies f
    ensures if ok then f.bytes == all && count == total && fine else !fine || |all| > f.room
  {
    ok, count := true, 0;
    ghost var left := cands;
    for i := 0 to |cands|
      invariant |f.bytes| <= f.room && left == cands[i..] && Stands(f.bytes, count, left, all, total, fine)
    {
      ok, count := AddNext(f, cands[i], count, left, all, total, fine);
      if !ok { return; }
      left := left[1..];
    }
    StandsLast(f.bytes, count, all, total, fine);
    ok := true;
  }

  /** Writes an archive of what it is offered; it is given up when the disk is full, when a file has become shorter
      or there is no memory, and when there are more than 200 entries. */
  method Create(cands: seq<Candidate>, room: nat) returns (ok: bool, f: OutFile, count: nat)
    requires forall i | 0 <= i < |cands| :: Offered(cands[i])
    ensures fresh(f) && ok == (AllDone(cands, 0) && |Archive(Taken(cands))| <= room)
    ensures ok ==> f.bytes == Archive(Taken(cands)) && count == |Taken(cands)|
  {
    f := new OutFile(room);
    StandsFirst(cands);
    ok, count := AddAll(f, cands, Records(Taken(cands)), |Taken(cands)|, AllDone(cands, 0));
    if ok { ok := CloseArchive(f); }
  }

  method CloseArchive(f: OutFile) returns (ok: bool)
    modifies f
    ensures ok == (|old(f.bytes)| + 2 * BLOCK <= f.room)
    ensures ok ==> f.bytes == old(f.bytes) + Zeros(2 * BLOCK)
  {
    ok := f.Write(Zeros(BLOCK));
    if ok { ok := f.Write(Zeros(BLOCK)); }
    assert Zeros(BLOCK) + Zeros(BLOCK) == Zeros(2 * BLOCK);
  }

  lemma {:induction false} RecordOfFile(name: Bytes, content: Bytes, mtime: nat)
    ensures Record(File(name, content, mtime)) ==
            Header(name, |content|, false, mtime) + (content[..|content|] + Zeros(Padded(|content|) - |content|))
    ensures |Record(File(name, content, mtime))| == BLOCK + Padded(|content|)
  {
    assert content[..|content|] == content;
  }

  lemma JoinFile(before: Bytes, head: Bytes, data: Bytes, pad: Bytes)
    ensures before + head + data + pad == before + (head + (data + pad))
  {
  }

  method WriteFileEntry(f: OutFile, name: Bytes, content: Bytes, mtime: nat) returns (ok: bool)
    requires |f.bytes| <= f.room
    modifies f
    ensures |f.bytes| <= f.room
    ensures ok == (|old(f.bytes)| + |Record(File(name, content, mtime))| <= f.room)
    ensures ok ==> f.bytes == old(f.bytes) + Record(File(name, content, mtime))
  {
    ghost var before, head := f.bytes, Header(name, |content|, false, mtime);
    RecordOfFile(name, content, mtime);
    ok := WriteHeader(f, name, |content|, false, mtime);
    if ok { ok := WriteBlocks(f, content, |content|); }
    JoinFile(before, head, content[..|content|], Zeros(Padded(|content|) - |content|));
  }

  method WriteEntry(f: OutFile, e: Entry) returns (ok: bool)
    requires |f.bytes| <= f.room
    modifies f
    ensures |f.bytes| <= f.room && ok == (|old(f.bytes)| + |Record(e)| <= f.room)
    ensures ok ==> f.bytes == old(f.bytes) + Record(e)
  {
    match e
    case File(name, content, mtime) => ok := WriteFileEntry(f, name, content, mtime);
    case Dir(name, mtime) => ok := WriteHeader(f, Cut(Cut(name + [SLASH], 110), 100), 0, true, mtime);
  }

  // ---------- reading ----------

  method ReadOctal(p: Bytes) returns (v: nat)
    ensures v == ParseOctal(0, p)
  {
    v := 0;
    var i := 0;
    ghost var rest := p;
    while i < |p| && IsOctal(p[i])
      invariant i <= |p| && |rest| == |p| - i && forall k | 0 <= k < |rest| :: rest[k] == p[i + k]
      invariant ParseOctal(v, rest) == ParseOctal(0, p)
    {
      v := (v * 8 + (p[i] - 0x30)) % WORD;
      i := i + 1;
      rest := rest[1..];
    }
  }

  /** Adds up a header with its checksum field read as blanks. */
  method SumHeader(h: Bytes) returns (sum: nat)
    requires |h| == BLOCK
    ensures sum == Computed(h)
  {
    sum := 0;
    ghost var seen: Bytes := [];
    for i := 0 to BLOCK
      invariant |seen| == i && sum == Sum(seen)
      invariant forall k | 0 <= k < i :: seen[k] == if 148 <= k < 156 then SPACE else h[k]
    {
      var b: byte := if 148 <= i < 156 then SPACE else h[i];
      assert (seen + [b])[..i] == seen;
      sum, seen := sum + b, seen + [b];
    }
    assert seen == h[..148] + BLANKS + h[156..];
    SumWithBlanks(h[..148], h[156..]);
  }

  method ScanHeaderAt(f: Bytes, pos: nat) returns (s: Scan)
    ensures s == ScanAt(f, pos)
  {
    if pos + BLOCK > |f| { return End; }
    var h := f[pos..pos + BLOCK];
    if h == Zeros(BLOCK) { return End; }
    var stored := ReadOctal(h[148..156]);
    var sum := SumHeader(h);
    if stored != sum { return Bad; }
    var size := ReadOctal(h[124..136]);
    if size > MAX_SIZE { return Bad; }
    var blocks := (size + 511) / 512;
    PaddedIsRounded(size);
    return Found(h[156], NameOf(h), size, pos + BLOCK + blocks * 512);
  }

  function Prepend<T>(items: seq<T>, r: Report<T>): Report<T> { Report(items + r.items, r.bad) }

  lemma PrependCons<T>(items: seq<T>, item: T, r: Report<T>)
    ensures Prepend(items, Cons(item, r)) == Prepend(items + [item], r)
  {
    assert items + ([item] + r.items) == items + [item] + r.items;
  }

  /** tar -t */
  method List(f: Bytes) returns (items: seq<Item>, bad: bool)
    ensures Report(items, bad) == ListFrom(f, 0)
  {
    items, bad := [], false;
    var pos: nat := 0;
    while true
      invariant !bad && ListFrom(f, 0) == Prepend(items, ListFrom(f, pos))
      decreases |f| - pos
    {
      var s := ScanHeaderAt(f, pos);
      ScannerAdvances(f);
      match s
      case End => return;
      case Bad => return items, true;
      case Found(kind, name, size, next) =>
        var item := ItemFound(kind, name, size);
        PrependCons(items, item, ListFrom(f, next));
        items := items + [item];
        pos := next;
    }
  }

  lemma SliceMore(f: Bytes, pos: nat, n: nat, w: nat)
    requires pos + n + BLOCK <= |f| && w <= BLOCK
    ensures f[pos..pos + n] + f[pos + n..pos + n + BLOCK][..w] == f[pos..pos + n + w]
  {
  }

  /** Copies a file's data out of the archive, block by block; false when the archive is cut short. */
  method CopyOut(f: Bytes, pos: nat, size: nat) returns (ok: bool, content: Bytes)
    requires pos <= |f|
    ensures ok == (pos + Padded(size) <= |f|)
    ensures ok ==> content == f[pos..pos + size]
  {
    PaddedIsRounded(size);
    var blocks := (size + 511) / 512;
    content := [];
    var left: nat := size;
    for b := 0 to blocks
      invariant left == (if b * BLOCK <= size then size - b * BLOCK else 0)
      invariant b < blocks ==> left > 0
      invariant pos + b * BLOCK <= |f| && |content| == size - left
      invariant pos + |content| <= |f| && content == f[pos..pos + |content|]
    {
      var at := pos + b * BLOCK;
      if at + BLOCK > |f| { return false, content; }
      var w := if left < BLOCK then left else BLOCK;
      SliceMore(f, pos, |content|, w);
      content := content + f[at..at + BLOCK][..w];
      left := left - w;
    }
    ok := true;
  }

  /** tar -x: what is made and written, and how many entries were extracted. */
  method Extract(f: Bytes, d: Device) returns (actions: seq<Action>, count: nat, bad: bool)
    ensures Report(actions, bad) == ExtractFrom(f, 0, d)
    ensures count == Extracted(actions)
  {
    actions, count, bad := [], 0, false;
    var pos: nat := 0;
    while true
      invariant !bad && ExtractFrom(f, 0, d) == Prepend(actions, ExtractFrom(f, pos, d))
      invariant count == Extracted(actions)
      decreases |f| - pos
    {
      var s := ScanHeaderAt(f, pos);
      ScannerAdvances(f);
      match s
      case End => return;
      case Bad => return actions, count, true;
      case Found(kind, name, size, next) =>
        var v := ExtractAt(f, pos, d, kind, name, size, next);
        if v.Stop? { return actions, count, true; }
        PrependCons(actions, v.action, ExtractFrom(f, v.next, d));
        if !v.action.Skip? { count := count + 1; }
        assert (actions + [v.action])[..|actions|] == actions;
        actions := actions + [v.action];
        pos := v.next;
    }
  }

  function Extracted(actions: seq<Action>): nat {
    if actions == [] then 0
    else Extracted(actions[..|actions|-1]) + if actions[|actions|-1].Skip? then 0 else 1
  }

  method ExtractAt(f: Bytes, pos: nat, d: Device, kind: byte, name: Bytes, size: nat, next: nat) returns (v: Verdict)
    requires pos + BLOCK <= |f| && next == pos + BLOCK + Padded(size)
    ensures v == Decide(f, pos, d, kind, name, size, next)
  {
    var full := Target(d, name);
    if !NameOk(name) || d.blocked(full) || (kind != TYPE_FILE && kind != 0 && kind != TYPE_DIR) {
      return Go(Skip(name), next);
    }
    if kind == TYPE_DIR { return Go(MakeDir(full), pos + BLOCK); }
    if d.full(pos, size) || d.refused(pos) { return Stop; }
    var ok, content := CopyOut(f, pos + BLOCK, size);
    if !ok { return Stop; }
    v := Go(WriteFile(full, content), next);
  }
}
