/** Filling a loaded configuration up with defaults: `deep_merge` on trees of named fields. */
module ConfigMerge {
  import opened Options

  /** A JSON value; everything that is no object, arrays included, is one value to the merge. */
  datatype Json<T> = Leaf(value: T) | Object(fields: Fields<T>)

  datatype Fields<T> = End | Field(name: string, node: Json<T>, next: Fields<T>)

  /** The first field of the name. */
  function Find<T>(d: Fields<T>, name: string): Option<Json<T>> {
    match d
    case End => None
    case Field(n, x, next) => if n == name then Some(x) else Find(next, name)
  }

  /** A new field goes to the end. */
  function Add<T>(d: Fields<T>, name: string, x: Json<T>): Fields<T> {
    match d
    case End => Field(name, x, End)
    case Field(n, y, next) => Field(n, y, Add(next, name, x))
  }

  /** The first field of the name gets another value in place. */
  function Replace<T>(d: Fields<T>, name: string, x: Json<T>): Fields<T> {
    match d
    case End => End
    case Field(n, y, next) => if n == name then Field(n, x, next) else Field(n, y, Replace(next, name, x))
  }

  /** One default: added if it is missing, merged if it and what is there are objects, dropped otherwise. */
  function Put<T>(d: Fields<T>, name: string, x: Json<T>): Fields<T>
    decreases x, 1
  {
    match Find(d, name)
    case None => Add(d, name, x)
    case Some(Object(there)) => if x.Object? then Replace(d, name, Object(Merge(there, x.fields))) else d
    case Some(Leaf(_)) => d
  }

  function Merge<T>(d: Fields<T>, s: Fields<T>): Fields<T>
    decreases s, 0
  {
    match s
    case End => d
    case Field(n, x, next) => Merge(Put(d, n, x), next)
  }

  // ---------- one name ----------

  lemma {:induction false} FindAdd<T>(d: Fields<T>, name: string, x: Json<T>, other: string)
    requires Find(d, name) == None
    ensures Find(Add(d, name, x), other) == if other == name then Some(x) else Find(d, other)
  {
    if d.Field? { FindAdd(d.next, name, x, other); }
  }

  lemma {:induction false} FindReplace<T>(d: Fields<T>, name: string, x: Json<T>, other: string)
    requires Find(d, name).Some?
    ensures Find(Replace(d, name, x), other) == if other == name then Some(x) else Find(d, other)
  {
    if d.Field? && d.name != name { FindReplace(d.next, name, x, other); }
  }

  /** What one default does to what is found under a name. */
  function PutFound<T>(found: Option<Json<T>>, x: Json<T>): Json<T> {
    match found
    case None => x
    case Some(Object(there)) => if x.Object? then Object(Merge(there, x.fields)) else Object(there)
    case Some(Leaf(v)) => Leaf(v)
  }

  lemma FindPut<T>(d: Fields<T>, name: string, x: Json<T>, other: string)
    ensures Find(Put(d, name, x), other) == if other == name then Some(PutFound(Find(d, name), x)) else Find(d, other)
  {
    match Find(d, name)
    case None => FindAdd(d, name, x, other);
    case Some(Object(there)) => if x.Object? { FindReplace(d, name, Object(Merge(there, x.fields)), other); }
    case Some(Leaf(_)) =>
  }

  ghost predicate Unique<T>(s: Fields<T>)
    decreases s
  {
    s.Field? ==> Find(s.next, s.name) == None && Unique(s.next) && (s.node.Object? ==> Unique(s.node.fields))
  }

  lemma {:induction false} UniqueInside<T>(s: Fields<T>, name: string)
    requires Unique(s)
    ensures Find(s, name).Some? && Find(s, name).value.Object? ==> Unique(Find(s, name).value.fields)
  {
    if s.Field? && s.name != name { UniqueInside(s.next, name); }
  }

  lemma {:induction false} FindMerge<T>(d: Fields<T>, s: Fields<T>, name: string)
    requires Unique(s)
    ensures Find(Merge(d, s), name) ==
            match Find(s, name) case None => Find(d, name) case Some(x) => Some(PutFound(Find(d, name), x))
    decreases s
  {
    if s.Field? {
      FindMerge(Put(d, s.name, s.node), s.next, name);
      FindPut(d, s.name, s.node, name);
    }
  }

  // ---------- paths ----------

  datatype View<T> = Absent | IsLeaf(value: T) | IsObject

  /** What a path of names leads to. */
  function At<T>(d: Fields<T>, path: seq<string>): View<T>
    decreases |path|
  {
    if path == [] then IsObject
    else
      match Find(d, path[0])
      case None => Absent
      case Some(Leaf(v)) => if |path| == 1 then IsLeaf(v) else Absent
      case Some(Object(inner)) => At(inner, path[1..])
  }

  /** On the way there is a value that is no object. */
  predicate Blocked<T>(d: Fields<T>, path: seq<string>)
    decreases |path|
  {
    |path| > 1 &&
    match Find(d, path[0])
    case None => false
    case Some(Leaf(_)) => true
    case Some(Object(inner)) => Blocked(inner, path[1..])
  }

  /** The merge, path by path: what was there stays, what was missing and not blocked comes from the defaults,
      and nothing else appears. */
  lemma {:induction false} MergeMeans<T>(d: Fields<T>, s: Fields<T>, path: seq<string>)
    requires Unique(s)
    ensures At(Merge(d, s), path) ==
            if At(d, path) != Absent || Blocked(d, path) then At(d, path) else At(s, path)
    decreases |path|
  {
    if path != [] {
      FindMerge(d, s, path[0]);
      UniqueInside(s, path[0]);
      match (Find(d, path[0]), Find(s, path[0]))
      case (Some(Object(a)), Some(Object(b))) => MergeMeans(a, b, path[1..]);
      case (Some(Object(a)), Some(Leaf(_))) => NothingUnder(s, a, path);
      case (Some(Object(a)), None) =>
      case _ =>
    }
  }

  /** A default that is no object has nothing under it. */
  lemma NothingUnder<T>(s: Fields<T>, a: Fields<T>, path: seq<string>)
    requires path != [] && Find(s, path[0]).Some? && Find(s, path[0]).value.Leaf?
    ensures At(a, path[1..]) == Absent ==> At(s, path) == Absent
  {
  }

  // ---------- laws for all defaults, names repeated or not ----------

  /** Whatever a path led to still is there. */
  lemma {:induction false} MergeKeeps<T>(d: Fields<T>, s: Fields<T>, path: seq<string>)
    requires At(d, path) != Absent
    ensures At(Merge(d, s), path) == At(d, path)
    decreases s, 0
  {
    if s.Field? {
      PutKeeps(d, s.name, s.node, path);
      MergeKeeps(Put(d, s.name, s.node), s.next, path);
    }
  }

  lemma {:induction false} PutKeeps<T>(d: Fields<T>, name: string, x: Json<T>, path: seq<string>)
    requires At(d, path) != Absent
    ensures At(Put(d, name, x), path) == At(d, path)
    decreases x, 1
  {
    if path != [] {
      FindPut(d, name, x, path[0]);
      if path[0] == name && Find(d, name).value.Object? && x.Object? {
        MergeKeeps(Find(d, name).value.fields, x.fields, path[1..]);
      }
    }
  }

  /** The fields already contain every default: merging it again changes nothing. */
  ghost predicate Absorbs<T>(d: Fields<T>, s: Fields<T>)
    decreases s, 0
  {
    s.Field? ==> AbsorbsOne(d, s.name, s.node) && Absorbs(d, s.next)
  }

  ghost predicate AbsorbsOne<T>(d: Fields<T>, name: string, x: Json<T>)
    decreases x, 1
  {
    && Find(d, name).Some?
    && (Find(d, name).value.Object? && x.Object? ==> Absorbs(Find(d, name).value.fields, x.fields))
  }

  lemma {:induction false} ReplaceSame<T>(d: Fields<T>, name: string)
    requires Find(d, name).Some?
    ensures Replace(d, name, Find(d, name).value) == d
  {
    if d.name != name { ReplaceSame(d.next, name); }
  }

  lemma {:induction false} AbsorbedChangesNothing<T>(d: Fields<T>, s: Fields<T>)
    requires Absorbs(d, s)
    ensures Merge(d, s) == d
    decreases s
  {
    if s.Field? {
      var there := Find(d, s.name).value;
      if there.Object? && s.node.Object? {
        AbsorbedChangesNothing(there.fields, s.node.fields);
        ReplaceSame(d, s.name);
      }
      AbsorbedChangesNothing(d, s.next);
    }
  }

  lemma {:induction false} AbsorbsAll<T>(m: Fields<T>, d: Fields<T>, t: Fields<T>)
    requires Unique(t)
    requires forall n | Find(t, n).Some? :: Find(m, n) == Some(PutFound(Find(d, n), Find(t, n).value))
    ensures Absorbs(m, t)
    decreases t
  {
    if t.Field? {
      assert Find(t, t.name) == Some(t.node);
      if t.node.Object? {
        var inner := t.node.fields;
        match Find(d, t.name)
        case None => AbsorbsAll(inner, End, inner);
        case Some(Object(a)) =>
          forall n
            ensures Find(inner, n).Some? ==>
                      Find(Merge(a, inner), n) == Some(PutFound(Find(a, n), Find(inner, n).value))
          {
            FindMerge(a, inner, n);
          }
          AbsorbsAll(Merge(a, inner), a, inner);
        case Some(Leaf(_)) =>
      }
      forall n | Find(t.next, n).Some? ensures Find(m, n) == Some(PutFound(Find(d, n), Find(t.next, n).value)) {
        assert Find(t, n) == Find(t.next, n);
      }
      AbsorbsAll(m, d, t.next);
    }
  }

  /** Filling up twice is filling up once, for defaults that repeat no name. */
  lemma MergeIsIdempotent<T>(d: Fields<T>, s: Fields<T>)
    requires Unique(s)
    ensures Merge(Merge(d, s), s) == Merge(d, s)
  {
    forall n ensures Find(s, n).Some? ==> Find(Merge(d, s), n) == Some(PutFound(Find(d, n), Find(s, n).value)) {
      FindMerge(d, s, n);
    }
    AbsorbsAll(Merge(d, s), d, s);
    AbsorbedChangesNothing(Merge(d, s), s);
  }

  // ---------- when memory runs out ----------

  /** k is s with some fields left out, at any depth. */
  ghost predicate Part<T>(k: Fields<T>, s: Fields<T>)
    decreases s, 0
  {
    match s
    case End => k == End
    case Field(n, x, next) => Part(k, next) || (k.Field? && k.name == n && PartNode(k.node, x) && Part(k.next, next))
  }

  ghost predicate PartNode<T>(k: Json<T>, x: Json<T>)
    decreases x, 1
  {
    k == x || (k.Object? && x.Object? && Part(k.fields, x.fields))
  }

  lemma {:induction false} FindPart<T>(k: Fields<T>, s: Fields<T>, name: string)
    requires Part(k, s) && Unique(s)
    ensures Find(k, name).Some? ==> Find(s, name).Some? && PartNode(Find(k, name).value, Find(s, name).value)
    decreases s
  {
    if s.Field? {
      if Part(k, s.next) {
        FindPart(k, s.next, name);
      } else if k.name != name {
        FindPart(k.next, s.next, name);
      }
    }
  }

  lemma {:induction false} PartUnique<T>(k: Fields<T>, s: Fields<T>)
    requires Part(k, s) && Unique(s)
    ensures Unique(k)
    decreases s
  {
    if s.Field? {
      if Part(k, s.next) {
        PartUnique(k, s.next);
      } else {
        PartUnique(k.next, s.next);
        FindPart(k.next, s.next, k.name);
        if k.node != s.node { PartUnique(k.node.fields, s.node.fields); }
      }
    }
  }

  lemma {:induction false} PartLeads<T>(k: Fields<T>, s: Fields<T>, path: seq<string>)
    requires Part(k, s) && Unique(s) && At(k, path) != Absent
    ensures At(k, path) == At(s, path)
    decreases |path|
  {
    if path != [] {
      FindPart(k, s, path[0]);
      UniqueInside(s, path[0]);
      var x, y := Find(k, path[0]).value, Find(s, path[0]).value;
      if x != y { PartLeads(x.fields, y.fields, path[1..]); }
    }
  }

  /** A merge in which some copies fail, path by path: what was there stays, and what was missing comes from the
      defaults or is still missing. */
  lemma {:induction false} PartMergeMeans<T>(d: Fields<T>, k: Fields<T>, s: Fields<T>, path: seq<string>)
    requires Part(k, s) && Unique(s)
    ensures var r := At(Merge(d, k), path);
      if At(d, path) != Absent || Blocked(d, path) then r == At(d, path) else r == Absent || r == At(s, path)
  {
    PartUnique(k, s);
    MergeMeans(d, k, path);
    if At(k, path) != Absent { PartLeads(k, s, path); }
  }

  /** One default, where `works(k)` says whether the k-th copy gets its memory; a missing default whose copy does not
      is passed over. Also gives the number of copies tried so far. */
  function PutTry<T>(d: Fields<T>, name: string, x: Json<T>, works: nat -> bool, m: nat): (Fields<T>, nat)
    decreases x, 1
  {
    match Find(d, name)
    case None => (if works(m) then Add(d, name, x) else d, m + 1)
    case Some(Leaf(_)) => (d, m)
    case Some(Object(there)) =>
      if x.Object? then
        var r := MergeTry(there, x.fields, works, m);
        (Replace(d, name, Object(r.0)), r.1)
      else (d, m)
  }

  function MergeTry<T>(d: Fields<T>, s: Fields<T>, works: nat -> bool, m: nat): (Fields<T>, nat)
    decreases s, 0
  {
    match s
    case End => (d, m)
    case Field(n, x, next) =>
      var r := PutTry(d, n, x, works, m);
      MergeTry(r.0, next, works, r.1)
  }

  /** Whether all copies from the m-th to before the n-th got their memory. */
  ghost predicate AllWork(works: nat -> bool, m: nat, n: nat) { forall k | m <= k < n :: works(k) }

  lemma {:induction false} PutTryIsPart<T>(d: Fields<T>, name: string, x: Json<T>, works: nat -> bool, m: nat)
    returns (kept: Option<Json<T>>)
    ensures var r := PutTry(d, name, x, works, m);
      && r.0 == (if kept.None? then d else Put(d, name, kept.value)) && m <= r.1
      && (kept.Some? ==> PartNode(kept.value, x)) && (AllWork(works, m, r.1) ==> kept == Some(x))
    decreases x, 1
  {
    kept := Some(x);
    match Find(d, name)
    case None => if !works(m) { kept := None; }
    case Some(Leaf(_)) =>
    case Some(Object(there)) =>
      if x.Object? {
        var k := MergeTryIsPart(there, x.fields, works, m);
        kept := Some(Object(k));
      }
  }

  /** A merge in which some copies fail is the merge of a part of the defaults, of all of them if none fails. */
  lemma {:induction false} MergeTryIsPart<T>(d: Fields<T>, s: Fields<T>, works: nat -> bool, m: nat)
    returns (kept: Fields<T>)
    ensures var r := MergeTry(d, s, works, m);
      && r.0 == Merge(d, kept) && m <= r.1
      && Part(kept, s) && (AllWork(works, m, r.1) ==> kept == s)
    decreases s, 0
  {
    kept := End;
    if s.Field? {
      var one := PutTryIsPart(d, s.name, s.node, works, m);
      var r := PutTry(d, s.name, s.node, works, m);
      var rest := MergeTryIsPart(r.0, s.next, works, r.1);
      kept := if one.None? then rest else Field(s.name, one.value, rest);
    }
  }

  /** Path by path: what was there stays; what was missing comes from the defaults, or is still missing if a copy
      failed. */
  lemma MergeTryMeans<T>(d: Fields<T>, s: Fields<T>, works: nat -> bool, m: nat, path: seq<string>)
    requires Unique(s)
    ensures var r := MergeTry(d, s, works, m);
      var there := At(r.0, path);
      && (At(d, path) != Absent || Blocked(d, path) ==> there == At(d, path))
      && (At(d, path) == Absent && !Blocked(d, path) ==>
            there == At(s, path) || (there == Absent && !AllWork(works, m, r.1)))
  {
    var kept := MergeTryIsPart(d, s, works, m);
    PartMergeMeans(d, kept, s, path);
    MergeMeans(d, s, path);
  }

  lemma PutTryHere<T>(d: Fields<T>, x: Json<T>, works: nat -> bool, m: nat)
    requires d.Field?
    ensures PutTry(d, d.name, x, works, m) ==
            if d.node.Object? && x.Object? then
              var r := MergeTry(d.node.fields, x.fields, works, m);
              (Field(d.name, Object(r.0), d.next), r.1)
            else (d, m)
  {
  }

  lemma PutTryLater<T>(d: Fields<T>, name: string, x: Json<T>, works: nat -> bool, m: nat)
    requires d.Field? && d.name != name
    ensures var r := PutTry(d.next, name, x, works, m);
      PutTry(d, name, x, works, m) == (Field(d.name, d.node, r.0), r.1)
  {
  }

  // ---------- repeated names ----------

  /** For defaults that repeat a name inside an object it is not: the copy made first is completed the second
      time. */
  lemma RepeatedNamesChangeMore()
    ensures var twice := Field("b", Object(End), Field("b", Object(Field("c", Leaf(1), End)), End));
      var s := Field("a", Object(twice), End);
      Merge(Merge(End, s), s) != Merge(End, s)
  {
    var c := Field("c", Leaf(1), End);
    var twice := Field("b", Object(End), Field("b", Object(c), End));
    var s := Field("a", Object(twice), End);
    assert Merge(End, s) == s;
    assert Merge(End, c) == c;
    assert Put(twice, "b", Object(End)) == twice;
    assert Put(twice, "b", Object(c)) == Field("b", Object(c), Field("b", Object(c), End));
  }
}
