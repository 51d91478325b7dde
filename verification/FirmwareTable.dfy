/** Which part of a file the installer puts into the slot, said from the outside: the partition table of a full flash
    image as it is printed, or a file without one. */
module FirmwareTable {
  import opened CText
  import opened Options
  import opened FirmwareInstall

  /** An entry: type (0 for an application), subtype, where the partition lies and how long it is, and the rest. */
  datatype Partition = Partition(kind: byte, sub: byte, off: nat, size: nat, tail: Bytes)

  ghost predicate Fits(p: Partition) { p.off < WORD && p.size < WORD && |p.tail| == 20 }

  /** The four bytes of a number, the lowest first. */
  function Little(v: nat): (b: Bytes)
    ensures |b| == 4
  {
    [v % 256, v / 256 % 256, v / 65536 % 256, v / 16777216 % 256]
  }

  /** 32 bytes: the magic, type and subtype, offset and size, the rest. */
  function Printed(p: Partition): Bytes {
    [0xAA, 0x50, p.kind, p.sub] + Little(p.off) + Little(p.size) + p.tail
  }

  function Table(ps: seq<Partition>): Bytes {
    if ps == [] then [] else Table(ps[..|ps|-1]) + Printed(ps[|ps|-1])
  }

  /** The entries stand in f one behind the other, from 0x8000 on. */
  ghost predicate HasTable(f: Bytes, ps: seq<Partition>) {
    && (forall i | 0 <= i < |ps| :: Fits(ps[i]))
    && 0x8000 + 32 * |ps| <= |f| && f[0x8000..0x8000 + 32 * |ps|] == Table(ps)
  }

  lemma {:induction false} LittleBack(h: Bytes, o: nat, v: nat)
    requires o + 4 <= |h| && v < WORD && h[o..o + 4] == Little(v)
    ensures Le32(h, o) == v
  {
    assert h[o] == h[o..o + 4][0] && h[o+1] == h[o..o + 4][1] && h[o+2] == h[o..o + 4][2] && h[o+3] == h[o..o + 4][3];
    LittleSum(v);
  }

  lemma {:induction false} LittleSum(v: nat)
    requires v < WORD
    ensures v % 256 + 256 * (v / 256 % 256) + 65536 * (v / 65536 % 256) + 16777216 * (v / 16777216 % 256) == v
  {
    var a, b, c := v / 256, v / 65536, v / 16777216;
    assert v == 256 * a + v % 256;
    assert a == 256 * b + a % 256;
    assert b == 256 * c + b % 256;
    assert c < 256;
  }

  lemma {:induction false} PrintedLength(p: Partition)
    requires Fits(p)
    ensures |Printed(p)| == 32
  {
  }

  lemma {:induction false} TableLength(ps: seq<Partition>)
    requires forall k | 0 <= k < |ps| :: Fits(ps[k])
    ensures |Table(ps)| == 32 * |ps|
  {
    if ps != [] {
      TableLength(ps[..|ps|-1]);
      PrintedLength(ps[|ps|-1]);
    }
  }

  lemma {:induction false} TableAt(ps: seq<Partition>, i: nat)
    requires i < |ps| && forall k | 0 <= k < |ps| :: Fits(ps[k])
    ensures |Table(ps)| == 32 * |ps| && Table(ps)[32 * i..32 * i + 32] == Printed(ps[i])
  {
    var init, last := ps[..|ps|-1], ps[|ps|-1];
    TableLength(ps);
    TableLength(init);
    PrintedLength(last);
    if i < |init| {
      TableAt(init, i);
      SliceOfFront(Table(init), Printed(last), 32 * i, 32);
    } else {
      SliceOfBack(Table(init), Printed(last));
    }
  }

  lemma SliceOfFront(a: Bytes, b: Bytes, i: nat, n: nat)
    requires i + n <= |a|
    ensures (a + b)[i..i + n] == a[i..i + n]
  {
  }

  lemma SliceOfBack(a: Bytes, b: Bytes)
    ensures (a + b)[|a|..|a| + |b|] == b
  {
  }

  lemma {:induction false} SliceOfSlice(f: Bytes, a: nat, b: nat, i: nat, n: nat)
    requires a <= b <= |f| && a + i + n <= b
    ensures f[a..b][i..i + n] == f[a + i..a + i + n]
  {
    var l, r := f[a..b][i..i + n], f[a + i..a + i + n];
    forall k | 0 <= k < n ensures l[k] == r[k] {
      assert l[k] == f[a..b][i + k] == f[a + (i + k)];
      assert r[k] == f[a + i + k];
    }
  }

  lemma {:induction false} EntryBytes(f: Bytes, ps: seq<Partition>, i: nat)
    requires HasTable(f, ps) && i < |ps|
    ensures var o := 0x8000 + 32 * i; o + 32 <= |f| && f[o..o + 32] == Printed(ps[i])
  {
    TableAt(ps, i);
    SliceOfSlice(f, 0x8000, 0x8000 + 32 * |ps|, 32 * i, 32);
  }

  lemma {:induction false} PrintedParts(p: Partition)
    requires Fits(p)
    ensures Printed(p)[0] == 0xAA && Printed(p)[1] == 0x50 && Printed(p)[2] == p.kind
    ensures Printed(p)[4..8] == Little(p.off) && Printed(p)[8..12] == Little(p.size)
  {
  }

  lemma {:induction false} EntryReads(f: Bytes, o: nat, p: Partition)
    requires o + 32 <= |f| && f[o..o + 32] == Printed(p) && Fits(p)
    ensures IsTableEntry(f, o) && f[o + 2] == p.kind && Le32(f, o + 4) == p.off && Le32(f, o + 8) == p.size
  {
    PrintedParts(p);
    SliceOfSlice(f, o, o + 32, 4, 4);
    SliceOfSlice(f, o, o + 32, 8, 4);
    LittleBack(f, o + 4, p.off);
    LittleBack(f, o + 8, p.size);
    assert f[o] == f[o..o + 32][0] && f[o + 1] == f[o..o + 32][1] && f[o + 2] == f[o..o + 32][2];
  }

  /** What stands at the place of the i-th entry. */
  lemma {:induction false} EntryAt(f: Bytes, ps: seq<Partition>, i: nat)
    requires HasTable(f, ps) && i < |ps|
    ensures var o := 0x8000 + 32 * i;
      && o + 32 <= |f| && IsTableEntry(f, o) && f[o + 2] == ps[i].kind
      && Le32(f, o + 4) == ps[i].off && Le32(f, o + 8) == ps[i].size
  {
    EntryBytes(f, ps, i);
    EntryReads(f, 0x8000 + 32 * i, ps[i]);
  }

  /** Entries that are no applications are passed over. */
  lemma {:induction false} Passes(f: Bytes, ps: seq<Partition>, n: nat, i: nat)
    requires HasTable(f, ps) && i <= n <= |ps| && forall k | 0 <= k < n :: ps[k].kind != 0
    ensures FindApp(f, 0x8000 + 32 * i) == FindApp(f, 0x8000 + 32 * n)
    decreases n - i
  {
    if i < n {
      EntryAt(f, ps, i);
      Passes(f, ps, n, i + 1);
    }
  }

  lemma {:induction false} HeadHasTable(f: Bytes, ps: seq<Partition>)
    requires HasTable(f, ps) && 0x8000 + 32 * |ps| <= TP_HEAD
    ensures HasTable(Head(f), ps)
  {
    var n := 0x8000 + 32 * |ps|;
    assert Head(f)[0x8000..n] == f[0x8000..n];
  }

  /** The last of the entries is the first application: its place and size decide, up to the slot's size. */
  lemma {:induction false} AppDecides(f: Bytes, ps: seq<Partition>, d: Device)
    requires ps != [] && HasTable(f, ps) && 0x8000 + 32 * |ps| <= TP_HEAD
    requires ps[|ps|-1].kind == 0 && forall k | 0 <= k < |ps| - 1 :: ps[k].kind != 0
    ensures var app := ps[|ps|-1];
      Decide(Head(f), d) == Window(app.off, app.off + Min(Min(app.size, WORD - 1 - app.off), d.slotSize))
  {
    var h, n := Head(f), |ps| - 1;
    HeadHasTable(f, ps);
    EntryAt(h, ps, 0);
    Passes(h, ps, n, 0);
    EntryAt(h, ps, n);
  }

  /** Of a full flash image an installed slot holds the application's partition: from its place on as many bytes as the
      table says, as the slot takes and as the file has. */
  lemma {:induction false} InstalledIsApp(f: Bytes, ps: seq<Partition>, downloaded: bool, status: nat, d: Device,
                                          lim: Limit)
    requires ps != [] && HasTable(f, ps) && 0x8000 + 32 * |ps| <= TP_HEAD && |f| < WORD
    requires ps[|ps|-1].kind == 0 && forall k | 0 <= k < |ps| - 1 :: ps[k].kind != 0
    requires OutcomeOf(f, downloaded, status, d, lim).Installed?
    ensures var app, slot := ps[|ps|-1], OutcomeOf(f, downloaded, status, d, lim).slot;
      app.off < |f| && slot == f[app.off..Min(app.off + Min(app.size, d.slotSize), |f|)]
  {
    AppDecides(f, ps, d);
    InstalledIsWindow(f, downloaded, status, d, lim);
  }

  /** A table that ends before an application: nothing is installed, and the slot is not opened. */
  lemma {:induction false} NoAppIsRejected(f: Bytes, ps: seq<Partition>, d: Device, lim: Limit)
    requires ps != [] && HasTable(f, ps) && 0x8000 + 32 * |ps| <= TP_HEAD && forall k | 0 <= k < |ps| :: ps[k].kind != 0
    requires var o := 0x8000 + 32 * |ps|; o + 32 > |Head(f)| || f[o] != 0xAA || f[o + 1] != 0x50
    ensures Decide(Head(f), d) == NoWindow(NoApp)
    ensures OutcomeOf(f, true, 200, d, lim) == Rejected(NoApp, None)
  {
    var h := Head(f);
    HeadHasTable(f, ps);
    EntryAt(h, ps, 0);
    Passes(h, ps, |ps|, 0);
  }

  /** A file without a table is taken from its beginning, as far as the slot goes, unless it is announced to be
      bigger. */
  lemma {:induction false} PlainDecides(f: Bytes, d: Device)
    requires |f| < 0x8020 || f[0x8000] != 0xAA || f[0x8001] != 0x50
    ensures Decide(Head(f), d) ==
            if d.total != 0 && d.total > d.slotSize then NoWindow(TooBig) else Window(0, Min(d.slotSize, 0xFFFF_FFFF))
  {
  }

  // ---------- what comes of it ----------

  /** A file is installed if and only if it came in whole, has a window that the flash takes, and what is in it starts
      with the image magic and is an image. */
  lemma {:induction false} InstalledIff(f: Bytes, downloaded: bool, status: nat, d: Device, lim: Limit)
    ensures OutcomeOf(f, downloaded, status, d, lim).Installed? <==>
            && downloaded && status == 200 && d.canOpen && Decide(Head(f), d).Window?
            && var p := Payload(f, Decide(Head(f), d));
               p != [] && p[0] == 0xE9 && |p| <= lim.room && d.imageOk(p)
  {
  }

  /** If nothing was wrong with the file until then, the first of these is what is reported: the download failed, the
      answer was not 200, there was nothing to write, what was written is no image. */
  lemma {:induction false} RejectedFor(f: Bytes, downloaded: bool, status: nat, d: Device, lim: Limit)
    requires f == [] || ProgressOf(f, d, lim).Written?
    requires OutcomeOf(f, downloaded, status, d, lim).Rejected?
    ensures var why := OutcomeOf(f, downloaded, status, d, lim).why;
      && (why == DownloadError <==> !downloaded)
      && (why == Not200 <==> downloaded && status != 200)
      && (why == EmptyFile <==>
          downloaded && status == 200 && (f == [] || Payload(f, Decide(Head(f), d)) == []))
      && why in {DownloadError, Not200, EmptyFile, ImageCheck}
  {
  }
}
