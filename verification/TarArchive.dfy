/** Writing archives and reading them back: listing (-t) and extracting (-x). */
module TarArchive {
  import opened CText
  import opened TarFormat

  /** What the writer is asked to add: a file with its contents, or a directory. */
  datatype Entry = File(name: Bytes, content: Bytes, mtime: nat) | Dir(name: Bytes, mtime: nat)

  /** A directory's header name has a slash appended, if there is room for it. */
  function HeaderOf(e: Entry): (h: Bytes)
    ensures |h| == BLOCK
  {
    match e
    case File(name, content, mtime) => Header(name, |content|, false, mtime)
    case Dir(name, mtime) => Header(Cut(Cut(name + [SLASH], 110), 100), 0, true, mtime)
  }

  /** File contents are padded with zeros to whole blocks. */
  function Record(e: Entry): Bytes {
    match e
    case File(_, content, _) => HeaderOf(e) + content + Zeros(Padded(|content|) - |content|)
    case Dir(_, _) => HeaderOf(e)
  }

  function Records(entries: seq<Entry>): Bytes {
    if entries == [] then [] else Record(entries[0]) + Records(entries[1..])
  }

  /** An archive ends with two blocks of zeros. */
  function Archive(entries: seq<Entry>): Bytes { Records(entries) + Zeros(2 * BLOCK) }

  // ---------- listing ----------

  /** A listed line: name, whether it is a directory, and the size shown. */
  datatype Item = Item(name: Bytes, dir: bool, size: nat)

  /** What the reader reports, and whether it stopped with an error. */
  datatype Report<T> = Report(items: seq<T>, bad: bool)

  function Cons<T>(item: T, rest: Report<T>): Report<T> { Report([item] + rest.items, rest.bad) }

  /** What is found at a place: the end, a header that is refused, or an entry, and where the next one starts. */
  datatype Scan = End | Bad | Found(kind: byte, name: Bytes, size: nat, next: nat)

  /** The header at pos, if there is one, and where the entry's data ends. */
  function ScanAt(f: Bytes, pos: nat): Scan {
    if pos + BLOCK > |f| then End
    else
      var h := f[pos..pos + BLOCK];
      if h == Zeros(BLOCK) then End
      else if Stored(h) != Computed(h) || SizeOf(h) > MAX_SIZE then Bad
      else Found(h[156], NameOf(h), SizeOf(h), pos + BLOCK + Padded(SizeOf(h)))
  }

  function Scanner(f: Bytes): nat -> Scan { (pos: nat) => ScanAt(f, pos) }

  /** Entries are found within n bytes and lead on. */
  ghost predicate Advances(scan: nat -> Scan, n: nat) {
    forall pos: nat :: scan(pos).Found? ==> pos + BLOCK <= n && pos + BLOCK + scan(pos).size <= scan(pos).next
  }

  lemma ScannerAdvances(f: Bytes)
    ensures Advances(Scanner(f), |f|)
  {
  }

  function ItemFound(kind: byte, name: Bytes, size: nat): Item {
    Item(name, kind == TYPE_DIR, if kind == TYPE_DIR then 0 else size)
  }

  ghost function ListOver(scan: nat -> Scan, n: nat, pos: nat): Report<Item>
    requires Advances(scan, n)
    decreases n - pos
  {
    match scan(pos)
    case End => Report([], false)
    case Bad => Report([], true)
    case Found(kind, name, size, next) => Cons(ItemFound(kind, name, size), ListOver(scan, n, next))
  }

  ghost function ListFrom(f: Bytes, pos: nat): Report<Item> {
    ScannerAdvances(f);
    ListOver(Scanner(f), |f|, pos)
  }

  // ---------- extracting ----------

  datatype Action = MakeDir(path: Bytes) | WriteFile(path: Bytes, content: Bytes) | Skip(name: Bytes)

  /** What the device answers while extracting; the file system's answers depend on where the reader is. */
  datatype Device = Device(dest: Bytes, blocked: Bytes -> bool, full: (nat, nat) -> bool, refused: nat -> bool)

  function HasDotDot(name: Bytes): bool {
    exists i | 0 <= i < |name| - 1 :: name[i] == DOT && name[i+1] == DOT
  }

  predicate NameOk(name: Bytes) {
    name != [] && name[0] != SLASH && !HasDotDot(name) && |name| < 120
  }

  function Target(d: Device, name: Bytes): Bytes { Cut(d.dest + [SLASH] + name, 300) }

  predicate Wanted(d: Device, kind: byte, name: Bytes) {
    NameOk(name) && !d.blocked(Target(d, name)) && (kind == TYPE_FILE || kind == 0 || kind == TYPE_DIR)
  }

  datatype Verdict = Stop | Go(action: Action, next: nat)

  /** Directories are made without skipping any data; a file whose data is cut short is an error. */
  function Decide(f: Bytes, pos: nat, d: Device, kind: byte, name: Bytes, size: nat, next: nat): (v: Verdict)
    requires pos + BLOCK + size <= next
    ensures v.Go? ==> pos + BLOCK <= v.next
  {
    var path := Target(d, name);
    if !Wanted(d, kind, name) then Go(Skip(name), next)
    else if kind == TYPE_DIR then Go(MakeDir(path), pos + BLOCK)
    else if d.full(pos, size) || d.refused(pos) || next > |f| then Stop
    else Go(WriteFile(path, f[pos + BLOCK..pos + BLOCK + size]), next)
  }

  ghost function ExtractOver(scan: nat -> Scan, f: Bytes, pos: nat, d: Device): Report<Action>
    requires Advances(scan, |f|)
    decreases |f| - pos
  {
    match scan(pos)
    case End => Report([], false)
    case Bad => Report([], true)
    case Found(kind, name, size, next) =>
      match Decide(f, pos, d, kind, name, size, next)
      case Stop => Report([], true)
      case Go(action, on) => Cons(action, ExtractOver(scan, f, on, d))
  }

  ghost function ExtractFrom(f: Bytes, pos: nat, d: Device): Report<Action> {
    ScannerAdvances(f);
    ExtractOver(Scanner(f), f, pos, d)
  }

  // ---------- the round trip ----------

  /** Names the writer accepts: 1 to 99 bytes. Of a 99-byte directory name nothing tells a slash at its end from
      the one the writer appends. */
  ghost predicate Storable(e: Entry) {
    && 0 < |e.name| <= 99 && NoZero(e.name)
    && (e.Dir? && |e.name| == 99 ==> e.name[98] != SLASH)
    && (e.File? ==> |e.content| < WORD)
  }

  function ItemOf(e: Entry): Item {
    match e
    case File(name, content, _) => Item(name, false, |content|)
    case Dir(name, _) => Item(name, true, 0)
  }

  /** Up to the first file above 64 MiB. */
  function ExpectedList(entries: seq<Entry>): Report<Item> {
    if entries == [] then Report([], false)
    else if entries[0].File? && |entries[0].content| > MAX_SIZE then Report([], true)
    else Cons(ItemOf(entries[0]), ExpectedList(entries[1..]))
  }

  lemma {:induction false} EntryReads(e: Entry)
    requires Storable(e)
    ensures var h := HeaderOf(e);
      && h != Zeros(BLOCK) && Stored(h) == Computed(h)
      && SizeOf(h) == (if e.File? then |e.content| else 0)
      && IsDir(h) == e.Dir? && h[156] == (if e.Dir? then TYPE_DIR else TYPE_FILE)
      && NameOf(h) == e.name
  {
    match e
    case File(name, content, mtime) =>
      HeaderReads(name, |content|, false, mtime);
    case Dir(name, mtime) =>
      var stored := Cut(Cut(name + [SLASH], 110), 100);
      assert stored == if |name| == 99 then name else name + [SLASH];
      HeaderReads(stored, 0, true, mtime);
  }

  lemma SliceMiddle(a: Bytes, b: Bytes, c: Bytes, d: Bytes)
    ensures (a + (b + c) + d)[|a|..|a| + |b|] == b
  {
    assert a + (b + c) + d == a + b + (c + d);
  }

  function DataSize(e: Entry): nat { if e.File? then |e.content| else 0 }

  function RecordSize(e: Entry): nat { BLOCK + Padded(DataSize(e)) }

  lemma {:induction false} RecordHasSize(e: Entry)
    ensures |Record(e)| == RecordSize(e)
  {
  }

  lemma {:induction false} HeaderAt(before: Bytes, e: Entry, after: Bytes)
    ensures (before + Record(e) + after)[|before|..|before| + BLOCK] == HeaderOf(e)
  {
    var data := if e.File? then e.content + Zeros(Padded(|e.content|) - |e.content|) else [];
    assert Record(e) == HeaderOf(e) + data;
    SliceMiddle(before, HeaderOf(e), data, after);
  }

  lemma {:induction false} ContentAt(before: Bytes, e: Entry, after: Bytes)
    requires e.File?
    ensures |before| + BLOCK + |e.content| <= |before + Record(e)| <= |before + Record(e) + after|
    ensures (before + Record(e) + after)[|before| + BLOCK..|before| + BLOCK + |e.content|] == e.content
  {
    var pad := Zeros(Padded(|e.content|) - |e.content|);
    assert before + Record(e) == before + HeaderOf(e) + (e.content + pad);
    SliceMiddle(before + HeaderOf(e), e.content, pad, after);
  }

  predicate Big(e: Entry) { DataSize(e) > MAX_SIZE }

  function KindOf(e: Entry): byte { if e.Dir? then TYPE_DIR else TYPE_FILE }

  /** What is found of e at a place; a file above 64 MiB is refused. */
  function ScanOf(e: Entry, next: nat): Scan { if Big(e) then Bad else Found(KindOf(e), e.name, DataSize(e), next) }

  lemma {:induction false} ScanHeader(f: Bytes, pos: nat, h: Bytes)
    requires pos + BLOCK <= |f| && f[pos..pos + BLOCK] == h && h != Zeros(BLOCK) && Stored(h) == Computed(h)
    ensures ScanAt(f, pos) ==
      if SizeOf(h) > MAX_SIZE then Bad else Found(h[156], NameOf(h), SizeOf(h), pos + BLOCK + Padded(SizeOf(h)))
  {
  }

  /** A header from which e is read. */
  ghost predicate Tells(h: Bytes, e: Entry) {
    && |h| == BLOCK && h != Zeros(BLOCK) && Stored(h) == Computed(h)
    && h[156] == KindOf(e) && NameOf(h) == e.name && SizeOf(h) == DataSize(e)
  }

  lemma {:induction false} ScanTold(f: Bytes, pos: nat, h: Bytes, e: Entry)
    requires Tells(h, e) && pos + BLOCK <= |f| && f[pos..pos + BLOCK] == h
    ensures ScanAt(f, pos) == ScanOf(e, pos + RecordSize(e))
  {
    ScanHeader(f, pos, h);
  }

  lemma {:induction false} HeaderTells(before: Bytes, e: Entry, after: Bytes) returns (h: Bytes)
    requires Storable(e)
    ensures Tells(h, e) && (before + Record(e) + after)[|before|..|before| + BLOCK] == h
  {
    h := HeaderOf(e);
    EntryReads(e);
    HeaderAt(before, e, after);
  }

  /** The reader finds a written record, whatever surrounds it, and where the next one starts. */
  lemma {:induction false} ScanRecord(before: Bytes, e: Entry, after: Bytes)
    requires Storable(e)
    ensures ScanAt(before + Record(e) + after, |before|) == ScanOf(e, |before + Record(e)|)
  {
    var h := HeaderTells(before, e, after);
    RecordHasSize(e);
    ScanTold(before + Record(e) + after, |before|, h, e);
  }

  /** The data of e lie behind its header. */
  ghost predicate DataAt(f: Bytes, pos: nat, e: Entry) {
    pos + RecordSize(e) <= |f| && f[pos + BLOCK..pos + BLOCK + DataSize(e)] == if e.File? then e.content else []
  }

  lemma {:induction false} RecordHasData(before: Bytes, e: Entry, after: Bytes)
    ensures DataAt(before + Record(e) + after, |before|, e)
  {
    RecordHasSize(e);
    if e.File? { ContentAt(before, e, after); }
  }

  lemma {:induction false} ScanEnd(before: Bytes)
    ensures ScanAt(before + Zeros(2 * BLOCK), |before|) == End
  {
    var f := before + Zeros(2 * BLOCK);
    assert f[|before|..|before| + BLOCK] == Zeros(BLOCK);
  }

  /** From pos on, the entries are found one behind the other, up to the end of the archive. */
  ghost predicate Follow(scan: nat -> Scan, f: Bytes, pos: nat, entries: seq<Entry>)
    decreases |entries|
  {
    if entries == [] then scan(pos) == End
    else
      var e, next := entries[0], pos + RecordSize(entries[0]);
      scan(pos) == ScanOf(e, next) && DataAt(f, pos, e) && Follow(scan, f, next, entries[1..])
  }

  ghost predicate AllStorable(entries: seq<Entry>) { forall i | 0 <= i < |entries| :: Storable(entries[i]) }

  /** The reader, given all the bytes and then a place among them. */
  type Reader = Bytes -> (nat -> Scan)

  /** A record in which a reader finds e, wherever it stands. */
  ghost predicate Encodes(reader: Reader, record: Bytes, e: Entry) {
    |record| == RecordSize(e) && forall before: Bytes, after: Bytes :: FoundIn(reader, before, record, after, e)
  }

  ghost predicate FoundIn(reader: Reader, before: Bytes, record: Bytes, after: Bytes, e: Entry) {
    var f := before + record + after;
    reader(f)(|before|) == ScanOf(e, |before| + |record|) && DataAt(f, |before|, e)
  }

  ghost predicate FindsEnd(reader: Reader) { forall before: Bytes :: EndsAt(reader, before) }

  ghost predicate EndsAt(reader: Reader, before: Bytes) { reader(before + Zeros(2 * BLOCK))(|before|) == End }

  lemma {:induction false} RecordEncodes(e: Entry)
    requires Storable(e)
    ensures Encodes(Scanner, Record(e), e)
  {
    RecordHasSize(e);
    forall before: Bytes, after: Bytes ensures FoundIn(Scanner, before, Record(e), after, e) {
      ScanRecord(before, e, after);
      RecordHasData(before, e, after);
    }
  }

  lemma ScannerFindsEnd()
    ensures FindsEnd(Scanner)
  {
    forall before: Bytes ensures EndsAt(Scanner, before) { ScanEnd(before); }
  }

  function Concat(records: seq<Bytes>): Bytes { if records == [] then [] else records[0] + Concat(records[1..]) }

  function Ended(records: seq<Bytes>): Bytes { Concat(records) + Zeros(2 * BLOCK) }

  lemma Join4(a: Bytes, b: Bytes, c: Bytes, d: Bytes)
    ensures a + (b + c + d) == a + b + (c + d)
  {
  }

  lemma {:induction false} EndedSplit(before: Bytes, records: seq<Bytes>)
    requires records != []
    ensures before + Ended(records) == before + records[0] + Ended(records[1..])
  {
    Join4(before, records[0], Concat(records[1..]), Zeros(2 * BLOCK));
  }

  lemma {:induction false} EndFollows(reader: Reader, before: Bytes, f: Bytes)
    requires FindsEnd(reader) && f == before + Ended([])
    ensures Follow(reader(f), f, |before|, [])
  {
    assert f == before + Zeros(2 * BLOCK);
    assert EndsAt(reader, before);
  }

  lemma {:induction false} RecordFollows(reader: Reader, before: Bytes, record: Bytes, after: Bytes,
      entries: seq<Entry>, f: Bytes)
    requires entries != [] && Encodes(reader, record, entries[0]) && f == before + record + after
    requires Follow(reader(f), f, |before| + |record|, entries[1..])
    ensures Follow(reader(f), f, |before|, entries)
  {
    assert FoundIn(reader, before, record, after, entries[0]);
  }

  /** Records that encode the entries, and two blocks of zeros: the entries follow each other there. */
  lemma {:induction false} RecordsFollow(reader: Reader, before: Bytes, records: seq<Bytes>, entries: seq<Entry>,
      f: Bytes)
    requires |records| == |entries| && f == before + Ended(records) && FindsEnd(reader)
    requires forall i | 0 <= i < |entries| :: Encodes(reader, records[i], entries[i])
    ensures Follow(reader(f), f, |before|, entries)
    decreases |entries|
  {
    if entries == [] {
      EndFollows(reader, before, f);
    } else {
      EndedSplit(before, records);
      RecordsFollow(reader, before + records[0], records[1..], entries[1..], f);
      RecordFollows(reader, before, records[0], Ended(records[1..]), entries, f);
    }
  }

  lemma {:induction false} ArchiveHasRecords(entries: seq<Entry>) returns (records: seq<Bytes>)
    requires AllStorable(entries)
    ensures |records| == |entries| && Concat(records) == Records(entries)
    ensures forall i | 0 <= i < |entries| :: Encodes(Scanner, records[i], entries[i])
    decreases |entries|
  {
    records := [];
    if entries != [] {
      var rest := ArchiveHasRecords(entries[1..]);
      RecordEncodes(entries[0]);
      records := ConsRecord(Scanner, Record(entries[0]), rest, entries);
    }
  }

  lemma {:induction false} ConsRecord(reader: Reader, record: Bytes, rest: seq<Bytes>, entries: seq<Entry>)
      returns (records: seq<Bytes>)
    requires entries != [] && |rest| == |entries| - 1 && Encodes(reader, record, entries[0])
    requires forall i | 0 <= i < |rest| :: Encodes(reader, rest[i], entries[1..][i])
    ensures |records| == |entries| && forall i | 0 <= i < |entries| :: Encodes(reader, records[i], entries[i])
    ensures Concat(records) == record + Concat(rest)
  {
    records := [record] + rest;
    assert records[1..] == rest;
    forall i | 0 <= i < |entries| ensures Encodes(reader, records[i], entries[i]) {
      if i > 0 { assert records[i] == rest[i - 1] && entries[i] == entries[1..][i - 1]; }
    }
  }

  lemma {:induction false} ArchiveFollows(entries: seq<Entry>)
    requires AllStorable(entries)
    ensures Follow(Scanner(Archive(entries)), Archive(entries), 0, entries)
  {
    var records := ArchiveHasRecords(entries);
    ScannerFindsEnd();
    assert [] + Ended(records) == Archive(entries);
    RecordsFollow(Scanner, [], records, entries, Archive(entries));
  }

  lemma {:induction false} ListReads(scan: nat -> Scan, f: Bytes, pos: nat, entries: seq<Entry>)
    requires Advances(scan, |f|) && Follow(scan, f, pos, entries)
    ensures ListOver(scan, |f|, pos) == ExpectedList(entries)
    decreases |entries|
  {
    if entries != [] && !Big(entries[0]) { ListReads(scan, f, pos + RecordSize(entries[0]), entries[1..]); }
  }

  /** Listing a written archive gives exactly its entries, in order, up to the first file above 64 MiB:
      there the reader stops with an error. */
  lemma ListingOfArchive(entries: seq<Entry>)
    requires AllStorable(entries)
    ensures ListFrom(Archive(entries), 0) == ExpectedList(entries)
    ensures (forall i | 0 <= i < |entries| :: entries[i].File? ==> |entries[i].content| <= MAX_SIZE) <==>
            ListFrom(Archive(entries), 0) ==
            Report(seq(|entries|, i requires 0 <= i < |entries| => ItemOf(entries[i])), false)
  {
    ArchiveFollows(entries);
    ScannerAdvances(Archive(entries));
    ListReads(Scanner(Archive(entries)), Archive(entries), 0, entries);
    ExpectedListComplete(entries);
  }

  lemma {:induction false} ExpectedListComplete(entries: seq<Entry>)
    ensures (forall i | 0 <= i < |entries| :: entries[i].File? ==> |entries[i].content| <= MAX_SIZE) <==>
            ExpectedList(entries) == Report(seq(|entries|, i requires 0 <= i < |entries| => ItemOf(entries[i])), false)
  {
    if entries != [] {
      ExpectedListComplete(entries[1..]);
      var all := seq(|entries|, i requires 0 <= i < |entries| => ItemOf(entries[i]));
      var rest := seq(|entries[1..]|, i requires 0 <= i < |entries[1..]| => ItemOf(entries[1..][i]));
      assert all == [ItemOf(entries[0])] + rest;
      if ExpectedList(entries) == Report(all, false) {
        assert ExpectedList(entries[1..]).items == all[1..] == rest;
      }
      forall i | 1 <= i < |entries| ensures entries[i] == entries[1..][i-1] {}
      if forall i | 0 <= i < |entries| :: entries[i].File? ==> |entries[i].content| <= MAX_SIZE {
        assert forall i | 0 <= i < |entries[1..]| :: entries[1..][i] == entries[i+1];
      }
    }
  }

  /** The actions extraction takes for the entries; those with an unsafe or blocked name are skipped. */
  function ActionOf(e: Entry, d: Device): Action {
    if !NameOk(e.name) || d.blocked(Target(d, e.name)) then Skip(e.name)
    else match e
      case File(name, content, _) => WriteFile(Target(d, name), content)
      case Dir(name, _) => MakeDir(Target(d, name))
  }

  function ActionsOf(entries: seq<Entry>, d: Device): seq<Action> {
    if entries == [] then [] else [ActionOf(entries[0], d)] + ActionsOf(entries[1..], d)
  }

  ghost predicate Willing(d: Device) {
    (forall p: nat, n: nat :: !d.full(p, n)) && (forall p: nat :: !d.refused(p))
  }

  lemma {:induction false} DecideEntry(f: Bytes, pos: nat, e: Entry, d: Device)
    requires Willing(d) && DataAt(f, pos, e)
    ensures Decide(f, pos, d, KindOf(e), e.name, DataSize(e), pos + RecordSize(e)) ==
            Go(ActionOf(e, d), pos + RecordSize(e))
  {
  }

  ghost predicate NoneBig(entries: seq<Entry>) { forall i | 0 <= i < |entries| :: !Big(entries[i]) }

  lemma {:induction false} ExtractReads(scan: nat -> Scan, f: Bytes, pos: nat, entries: seq<Entry>, d: Device)
    requires Advances(scan, |f|) && Follow(scan, f, pos, entries) && NoneBig(entries) && Willing(d)
    ensures ExtractOver(scan, f, pos, d) == Report(ActionsOf(entries, d), false)
    decreases |entries|
  {
    if entries != [] {
      DecideEntry(f, pos, entries[0], d);
      ExtractReads(scan, f, pos + RecordSize(entries[0]), entries[1..], d);
    }
  }

  /** Extracting a written archive on a device with room makes every directory and writes every file
      with its contents, in order, except those the reader refuses for their name. */
  lemma ExtractionOfArchive(entries: seq<Entry>, d: Device)
    requires AllStorable(entries) && NoneBig(entries) && Willing(d)
    ensures ExtractFrom(Archive(entries), 0, d) == Report(ActionsOf(entries, d), false)
  {
    ArchiveFollows(entries);
    ScannerAdvances(Archive(entries));
    ExtractReads(Scanner(Archive(entries)), Archive(entries), 0, entries, d);
  }

  function BlocksOf(e: Entry): nat {
    if e.File? then 1 + (|e.content| + 511) / BLOCK else 1
  }

  function BlockCount(entries: seq<Entry>): nat {
    if entries == [] then 0 else BlocksOf(entries[0]) + BlockCount(entries[1..])
  }

  /** Headers and data fill whole blocks, so everything in an archive starts on a block boundary. */
  lemma {:induction false} ArchiveAligned(entries: seq<Entry>)
    ensures |Records(entries)| == BLOCK * BlockCount(entries)
    ensures |Archive(entries)| == BLOCK * (BlockCount(entries) + 2)
  {
    if entries != [] {
      if entries[0].File? { PaddedIsRounded(|entries[0].content|); }
      assert |Record(entries[0])| == BLOCK * BlocksOf(entries[0]);
      ArchiveAligned(entries[1..]);
    }
  }

  /** A directory's name stands in its header with a slash at its end, if there is room for it. */
  lemma DirHeaderHasSlash(name: Bytes, mtime: nat)
    requires 0 < |name| <= 99 && NoZero(name)
    ensures TextOf(HeaderOf(Dir(name, mtime))[..100]) == if |name| < 99 then name + [0x2F] else name
  {
    var stored := Cut(Cut(name + [SLASH], 110), 100);
    assert stored == if |name| == 99 then name else name + [SLASH];
    HeaderReads(stored, 0, true, mtime);
  }

  // ---------- what extraction may touch ----------

  /** A name that leads nowhere but below the directory it is appended to. */
  ghost predicate SafeName(name: Bytes) {
    && 0 < |name| < 120 && name[0] != 0x2F
    && forall i | 0 <= i < |name| - 1 :: !(name[i] == 0x2E && name[i+1] == 0x2E)
  }

  /** A path made of the target directory, a slash and a safe name, cut to its buffer, and not blocked. */
  ghost predicate SafePath(d: Device, path: Bytes) {
    !d.blocked(path) && exists name :: SafeName(name) && path == Cut(d.dest + [0x2F] + name, 300)
  }

  ghost predicate SafeAction(f: Bytes, d: Device, a: Action) {
    match a
    case Skip(_) => true
    case MakeDir(path) => SafePath(d, path)
    case WriteFile(path, content) =>
      SafePath(d, path) && exists i: nat :: LiesAt(f, i, content)
  }

  predicate LiesAt(f: Bytes, i: nat, content: Bytes) { i + |content| <= |f| && content == f[i..i + |content|] }

  /** An entry is skipped if and only if its name is not safe, its path is blocked, or it is neither a file, of the new
      type or the old one, nor a directory. The data of a directory are not passed over; a file ends extraction if it
      does not fit, cannot be made or is cut short. */
  lemma DecideMeans(f: Bytes, pos: nat, d: Device, kind: byte, name: Bytes, size: nat, next: nat)
    requires pos + BLOCK + size <= next
    ensures var v, path := Decide(f, pos, d, kind, name, size, next), Cut(d.dest + [0x2F] + name, 300);
      var wanted := SafeName(name) && !d.blocked(path) && kind in {0x30, 0, 0x35};
      && (v == Go(Skip(name), next) <==> !wanted)
      && (v == Go(MakeDir(path), pos + 512) <==> wanted && kind == 0x35)
      && (v == Stop <==> wanted && kind != 0x35 && (d.full(pos, size) || d.refused(pos) || next > |f|))
      && (wanted && kind != 0x35 && v.Go? ==> v == Go(WriteFile(path, f[pos + 512..pos + 512 + size]), next))
  {
    assert NameOk(name) <==> SafeName(name);
  }

  lemma DecideSafely(f: Bytes, pos: nat, d: Device, kind: byte, name: Bytes, size: nat, next: nat)
    requires pos + BLOCK + size <= next
    ensures var v := Decide(f, pos, d, kind, name, size, next); v.Go? ==> SafeAction(f, d, v.action)
  {
    var v := Decide(f, pos, d, kind, name, size, next);
    if v.Go? && !v.action.Skip? {
      assert SafeName(name);
      if v.action.WriteFile? {
        var i := pos + BLOCK;
        assert LiesAt(f, i, v.action.content);
      }
    }
  }

  ghost predicate AllSafe(f: Bytes, d: Device, items: seq<Action>) {
    forall i | 0 <= i < |items| :: SafeAction(f, d, items[i])
  }

  lemma OneMoreSafe(f: Bytes, d: Device, a: Action, rest: Report<Action>)
    requires SafeAction(f, d, a) && AllSafe(f, d, rest.items)
    ensures AllSafe(f, d, Cons(a, rest).items)
  {
  }

  lemma {:induction false} ExtractsSafely(scan: nat -> Scan, f: Bytes, pos: nat, d: Device)
    requires Advances(scan, |f|)
    ensures AllSafe(f, d, ExtractOver(scan, f, pos, d).items)
    decreases |f| - pos
  {
    match scan(pos)
    case Found(kind, name, size, next) =>
      var v := Decide(f, pos, d, kind, name, size, next);
      DecideSafely(f, pos, d, kind, name, size, next);
      if v.Go? {
        ExtractsSafely(scan, f, v.next, d);
        OneMoreSafe(f, d, v.action, ExtractOver(scan, f, v.next, d));
      }
    case _ =>
  }

  /** Whatever bytes an archive consists of: what is made or written by extracting it lies below the target directory,
      is not blocked, and has contents found in the archive. */
  lemma ExtractionIsSafe(f: Bytes, d: Device, i: nat)
    requires i < |ExtractFrom(f, 0, d).items|
    ensures SafeAction(f, d, ExtractFrom(f, 0, d).items[i])
  {
    ScannerAdvances(f);
    ExtractsSafely(Scanner(f), f, 0, d);
  }
}
