/** A compiled crontab line and the minutes it is due in. */
module CronJob {
  import opened CText
  import opened Options
  import opened CronText
  import opened Division

  // ---------- masks ----------

  /** `(m >> v) & 1`; every shift count fits six bits. */
  predicate Bit(m: bv64, v: nat)
    requires v < 64
  {
    BitAt(m, v as bv6)
  }

  /** `m | (1ULL << v)`. */
  function WithBit(m: bv64, v: nat): bv64
    requires v < 64
  {
    WithBitAt(m, v as bv6)
  }

  predicate BitAt(m: bv64, v: bv6) { (m >> v) & 1 == 1 }

  function WithBitAt(m: bv64, v: bv6): bv64 { m | (1 << v) }

  lemma BitAtOfWithBitAt(m: bv64, v: bv6, w: bv6)
    ensures BitAt(WithBitAt(m, v), w) <==> v == w || BitAt(m, w)
  {
    assert ((m | (1 << v)) >> w) & 1 == if v == w then 1 else (m >> w) & 1;
  }

  lemma CountBack(v: nat)
    requires v < 64
    ensures (v as bv6) as nat == v
  {
  }

  lemma BitOfWithBit(m: bv64, v: nat, w: nat)
    requires v < 64 && w < 64
    ensures Bit(WithBit(m, v), w) <==> v == w || Bit(m, w)
  {
    BitAtOfWithBitAt(m, v as bv6, w as bv6);
    CountBack(v);
    CountBack(w);
  }

  lemma NoBits(v: nat)
    requires v < 64
    ensures !Bit(0, v)
  {
    NoBitsAt(v as bv6);
  }

  lemma NoBitsAt(v: bv6)
    ensures !BitAt(0, v)
  {
  }

  // ---------- jobs ----------

  datatype Masks = Masks(mins: bv64, hours: bv64, doms: bv64, mons: bv64, dows: bv64)

  datatype Job = Job(m: Masks, domAny: bool, dowAny: bool, sched: string, cmd: string)

  /** The parts of `struct tm` a schedule looks at. */
  datatype Tm = Tm(min: nat, hour: nat, mday: nat, mon: nat, wday: nat)

  predicate TmOk(t: Tm) { t.min < 60 && t.hour < 24 && 1 <= t.mday <= 31 && t.mon < 12 && t.wday < 7 }

  predicate Matches(j: Job, t: Tm)
    requires TmOk(t)
  {
    var dom, dow := Bit(j.m.doms, t.mday), Bit(j.m.dows, t.wday);
    && Bit(j.m.mins, t.min) && Bit(j.m.hours, t.hour) && Bit(j.m.mons, t.mon + 1)
    && if !j.domAny && !j.dowAny then dom || dow else dom && dow
  }

  // ---------- meaning ----------

  /** A line taken apart whose five fields are all in range. */
  ghost predicate EntryOk(e: seq<string>) {
    && |e| == 6
    && FieldOk(e[0], 0, 59) && FieldOk(e[1], 0, 23) && FieldOk(e[2], 1, 31)
    && FieldOk(e[3], 1, 12) && FieldOk(e[4], 0, 7)
  }

  /** Day of the week, where both 0 and 7 stand for Sunday. */
  ghost predicate OnWeekday(field: string, wday: nat) {
    InField(field, 0, 7, wday) || (wday == 0 && InField(field, 0, 7, 7))
  }

  predicate Starred(field: string) { field != "" && field[0] == '*' }

  /** When the schedule is due: the day fields are alternatives only if neither begins with a star. */
  ghost predicate Due(e: seq<string>, t: Tm)
    requires |e| == 6
  {
    var dom, dow := InField(e[2], 1, 31, t.mday), OnWeekday(e[4], t.wday);
    && InField(e[0], 0, 59, t.min) && InField(e[1], 0, 23, t.hour)
    && InField(e[3], 1, 12, t.mon + 1)
    && if Starred(e[2]) || Starred(e[4]) then dom && dow else dom || dow
  }

  /** A mask holds exactly the values its field denotes. */
  ghost predicate Denotes(m: bv64, field: string, lo: nat, hi: nat) {
    forall v | 0 <= v < 64 :: Bit(m, v) <==> InField(field, lo, hi, v)
  }

  ghost predicate DenotesDays(m: bv64, field: string) {
    forall v | 0 <= v < 64 :: Bit(m, v) <==> OnWeekday(field, v)
  }

  function Joined(a: string, b: string, c: string, d: string, e: string): string {
    a + " " + b + " " + c + " " + d + " " + e
  }

  ghost predicate Compiled(j: Job, e: seq<string>)
    requires |e| == 6
  {
    && Denotes(j.m.mins, e[0], 0, 59) && Denotes(j.m.hours, e[1], 0, 23)
    && Denotes(j.m.doms, e[2], 1, 31) && Denotes(j.m.mons, e[3], 1, 12)
    && DenotesDays(j.m.dows, e[4])
    && j.domAny == Starred(e[2]) && j.dowAny == Starred(e[4])
    && j.cmd == Clip(e[5], 96) && j.sched == Clip(Joined(e[0], e[1], e[2], e[3], e[4]), 48)
  }

  /** A compiled job matches a time exactly when its line is due then. */
  lemma MatchesMeansDue(j: Job, e: seq<string>, t: Tm)
    requires |e| == 6 && Compiled(j, e) && TmOk(t)
    ensures Matches(j, t) <==> Due(e, t)
  {
    assert Bit(j.m.mins, t.min) <==> InField(e[0], 0, 59, t.min);
    assert Bit(j.m.hours, t.hour) <==> InField(e[1], 0, 23, t.hour);
    assert Bit(j.m.doms, t.mday) <==> InField(e[2], 1, 31, t.mday);
    assert Bit(j.m.mons, t.mon + 1) <==> InField(e[3], 1, 12, t.mon + 1);
    assert Bit(j.m.dows, t.wday) <==> OnWeekday(e[4], t.wday);
  }

  /** The values the items of a list denote together. */
  ghost predicate AnyItem(items: seq<Item>, lo: nat, hi: nat, v: nat) {
    exists k :: 0 <= k < |items| && Has(items[k], lo, hi, v)
  }

  ghost predicate AllOk(items: seq<Item>, lo: nat, hi: nat) {
    items != [] && forall k | 0 <= k < |items| :: ItemOk(items[k], lo, hi)
  }

  /** The items of the five fields of a schedule. */
  datatype Schedule = Schedule(mins: seq<Item>, hours: seq<Item>, doms: seq<Item>, mons: seq<Item>, dows: seq<Item>)

  ghost predicate ScheduleOk(s: Schedule) {
    && AllOk(s.mins, 0, 59) && AllOk(s.hours, 0, 23) && AllOk(s.doms, 1, 31) && AllOk(s.mons, 1, 12)
    && AllOk(s.dows, 0, 7)
  }

  function PrintSchedule(s: Schedule): seq<string> {
    [PrintField(s.mins), PrintField(s.hours), PrintField(s.doms), PrintField(s.mons), PrintField(s.dows)]
  }

  ghost predicate ScheduleDue(s: Schedule, t: Tm) {
    var dom := AnyItem(s.doms, 1, 31, t.mday);
    var dow := AnyItem(s.dows, 0, 7, t.wday) || (t.wday == 0 && AnyItem(s.dows, 0, 7, 7));
    && AnyItem(s.mins, 0, 59, t.min) && AnyItem(s.hours, 0, 23, t.hour) && AnyItem(s.mons, 1, 12, t.mon + 1)
    && if Starred(PrintField(s.doms)) || Starred(PrintField(s.dows)) then dom && dow else dom || dow
  }

  /** The field text is in order and denotes what the items do. */
  ghost predicate Says(field: string, items: seq<Item>, lo: nat, hi: nat) {
    FieldOk(field, lo, hi) && forall v: nat :: InField(field, lo, hi, v) <==> AnyItem(items, lo, hi, v)
  }

  lemma FieldSays(items: seq<Item>, lo: nat, hi: nat)
    requires AllOk(items, lo, hi) && |PrintField(items)| < FIELD_MAX
    ensures Says(PrintField(items), items, lo, hi)
  {
    forall v: nat ensures InField(PrintField(items), lo, hi, v) <==> AnyItem(items, lo, hi, v) {
      PrintedFieldMeans(items, lo, hi, v);
    }
    PrintedFieldMeans(items, lo, hi, 0);
  }

  lemma PrintedEntry(f: seq<string>, gaps: seq<string>, cmd: string) returns (e: seq<string>)
    requires |f| == 5 && LaidOut(gaps, f, cmd)
    ensures |e| == 6 && e == Split(Render(gaps, f, cmd), 5) && e[5] == cmd
    ensures forall k | 0 <= k < 5 :: e[k] == f[k] && |f[k]| < FIELD_MAX
  {
    SplitRender(gaps, f, cmd);
    e := f + [cmd];
  }

  ghost predicate AllSay(s: Schedule, e: seq<string>)
    requires |e| == 6
  {
    && Says(e[0], s.mins, 0, 59) && Says(e[1], s.hours, 0, 23) && Says(e[2], s.doms, 1, 31)
    && Says(e[3], s.mons, 1, 12) && Says(e[4], s.dows, 0, 7)
    && Starred(e[2]) == Starred(PrintField(s.doms)) && Starred(e[4]) == Starred(PrintField(s.dows))
  }

  lemma PrintedDue(s: Schedule, e: seq<string>, t: Tm)
    requires |e| == 6 && AllSay(s, e)
    ensures EntryOk(e) && (Due(e, t) <==> ScheduleDue(s, t))
  {
  }

  lemma PrintedSays(s: Schedule, e: seq<string>)
    requires ScheduleOk(s) && |e| == 6
    requires forall k | 0 <= k < 5 :: e[k] == PrintSchedule(s)[k] && |e[k]| < FIELD_MAX
    ensures AllSay(s, e)
  {
    assert e[0] == PrintField(s.mins) && e[1] == PrintField(s.hours) && e[2] == PrintField(s.doms);
    assert e[3] == PrintField(s.mons) && e[4] == PrintField(s.dows);
    FieldSays(s.mins, 0, 59);
    FieldSays(s.hours, 0, 23);
    FieldSays(s.doms, 1, 31);
    FieldSays(s.mons, 1, 12);
    FieldSays(s.dows, 0, 7);
  }

  /** A written schedule, however it is spaced, is accepted, and is due exactly when its items say so. */
  lemma WrittenScheduleMeans(s: Schedule, gaps: seq<string>, cmd: string, t: Tm) returns (e: seq<string>)
    requires ScheduleOk(s) && LaidOut(gaps, PrintSchedule(s), cmd)
    ensures e == Split(Render(gaps, PrintSchedule(s), cmd), 5)
    ensures EntryOk(e) && e[5] == cmd && (Due(e, t) <==> ScheduleDue(s, t))
  {
    e := PrintedEntry(PrintSchedule(s), gaps, cmd);
    PrintedSays(s, e);
    PrintedDue(s, e, t);
  }

  // ---------- items one at a time ----------

  /** The values of one item below v. */
  predicate HasBelow(a: nat, step: nat, v: nat, w: nat)
    requires step > 0
  {
    a <= w < v && (w - a) % step == 0
  }

  /** Between two steps of an item there is no other value of it. */
  lemma HasBelowStep(a: nat, step: nat, v: nat, w: nat)
    requires step > 0 && a <= v && (v - a) % step == 0
    ensures (v + step - a) % step == 0
    ensures HasBelow(a, step, v + step, w) <==> w == v || HasBelow(a, step, v, w)
  {
    ModAdd(v - a, step, step);
    if v < w < v + step { ModAdd(v - a, step, w - v); }
  }
}
