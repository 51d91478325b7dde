/** The merge of defaults on a tree that is changed in place: items linked to their first child and to the next
    item, as the JSON library keeps them. */
module ConfigTree {
  import opened Options
  import opened ConfigMerge

  class Item<T> {
    const name: string
    const value: Option<T>   // None for an object
    var child: Item?<T>
    var next: Item?<T>
    ghost var Repr: set<object>

    /** The item, what is under it and what comes after it share nothing. */
    ghost predicate Valid()
      reads this, Repr
      decreases Repr
    {
      && this in Repr
      && (child != null ==> child in Repr && child.Repr <= Repr && this !in child.Repr && child.Valid())
      && (next != null ==> next in Repr && next.Repr <= Repr && this !in next.Repr && next.Valid())
      && (child != null && next != null ==> child.Repr !! next.Repr)
      && Repr == {this} + ReprOf(child) + ReprOf(next)
    }

    ghost function Model(): Fields<T>
      requires Valid()
      reads this, Repr
      decreases Repr
    {
      Field(name, Node(), if next == null then End else next.Model())
    }

    ghost function Node(): Json<T>
      requires Valid()
      reads this, Repr
      decreases Repr, 0
    {
      NodeOf(value, if child == null then End else child.Model())
    }

    constructor (name: string, value: Option<T>)
      ensures Valid() && Repr == {this} && next == null && child == null && this.name == name && this.value == value
    {
      this.name, this.value, child, next := name, value, null, null;
      Repr := {this};
    }

    /** Links the items under this one. */
    method SetChild(c: Item?<T>)
      requires ValidList(c) && ValidList(next) && this !in ReprOf(c) && this !in ReprOf(next)
               && ReprOf(c) !! ReprOf(next)
      modifies this`child, this`Repr
      ensures Valid() && Repr == {this} + ReprOf(c) + ReprOf(next)
      ensures Model() == Field(name, NodeOf(value, old(ModelOf(c))), old(ModelOf(next)))
    {
      child := c;
      Repr := {this} + ReprOf(c) + ReprOf(next);
    }

    /** Links the items after this one. */
    method SetNext(n: Item?<T>)
      requires ValidList(n) && ValidList(child) && this !in ReprOf(n) && this !in ReprOf(child)
               && ReprOf(n) !! ReprOf(child)
      modifies this`next, this`Repr
      ensures Valid() && Repr == {this} + ReprOf(child) + ReprOf(n)
      ensures Model() == Field(name, NodeOf(value, old(ModelOf(child))), old(ModelOf(n)))
    {
      next := n;
      Repr := {this} + ReprOf(child) + ReprOf(n);
    }
  }

  function NodeOf<T>(value: Option<T>, inner: Fields<T>): Json<T> {
    if value.Some? then Leaf(value.value) else Object(inner)
  }

  ghost function ReprOf<T>(i: Item?<T>): set<object>
    reads i
  {
    if i == null then {} else i.Repr
  }

  ghost predicate ValidList<T>(i: Item?<T>)
    reads i, ReprOf(i)
  {
    i != null ==> i.Valid()
  }

  ghost function ModelOf<T>(i: Item?<T>): Fields<T>
    reads i, ReprOf(i)
    requires ValidList(i)
  {
    if i == null then End else i.Model()
  }

  /** A copy of a default, with everything under it. */
  method Duplicate<T>(name: string, x: Json<T>) returns (i: Item<T>)
    ensures i.Valid() && fresh(i.Repr) && i.Model() == Field(name, x, End)
    decreases x, 1
  {
    match x
    case Leaf(v) => i := new Item(name, Some(v));
    case Object(fields) =>
      var c := DuplicateAll(fields);
      i := new Item(name, None);
      i.SetChild(c);
  }

  method DuplicateAll<T>(s: Fields<T>) returns (i: Item?<T>)
    ensures ValidList(i) && fresh(ReprOf(i)) && ModelOf(i) == s
    decreases s, 0
  {
    match s
    case End => i := null;
    case Field(n, x, more) =>
      var rest := DuplicateAll(more);
      var first := Duplicate(n, x);
      first.SetNext(rest);
      i := first;
  }

  /** One default, put into a list of items in place; `works(k)` says whether the k-th copy gets its memory, and a
      default without it is passed over. */
  method PutItem<T>(head: Item?<T>, name: string, x: Json<T>, works: nat -> bool, m: nat)
      returns (h: Item?<T>, n: nat)
    requires ValidList(head)
    modifies ReprOf(head)
    ensures ValidList(h) && fresh(ReprOf(h) - old(ReprOf(head))) && (head != null ==> h == head)
    ensures (ModelOf(h), n) == PutTry(old(ModelOf(head)), name, x, works, m)
    decreases x, 1, ReprOf(head), 1
  {
    if head == null {
      h, n := null, m + 1;
      if works(m) { h := Duplicate(name, x); }
    } else if head.name == name {
      h := head;
      n := PutHead(head, x, works, m);
    } else {
      h := head;
      PutTryLater(head.Model(), name, x, works, m);
      n := PutAfter(head, name, x, works, m);
    }
  }

  /** The item of the name is the first one. */
  method PutHead<T>(head: Item<T>, x: Json<T>, works: nat -> bool, m: nat) returns (n: nat)
    requires head.Valid()
    modifies head.Repr
    ensures head.Valid() && fresh(head.Repr - old(head.Repr))
    ensures (head.Model(), n) == PutTry(old(head.Model()), head.name, x, works, m)
    decreases x, 1, head.Repr, 0
  {
    PutTryHere(head.Model(), x, works, m);
    n := m;
    if head.value.None? && x.Object? { n := MergeUnder(head, x.fields, works, m); }
  }

  method MergeUnder<T>(head: Item<T>, src: Fields<T>, works: nat -> bool, m: nat) returns (n: nat)
    requires head.Valid() && head.value.None?
    modifies head.Repr
    ensures head.Valid() && fresh(head.Repr - old(head.Repr))
    ensures var r := MergeTry(old(ModelOf(head.child)), src, works, m);
      head.Model() == Field(head.name, Object(r.0), old(ModelOf(head.next))) && n == r.1
    decreases src, 2
  {
    var c := head.child;
    ghost var next, later, rest := head.next, ReprOf(head.next), ModelOf(head.next);
    var merged;
    merged, n := DeepMerge(c, src, works, m);
    assert ValidList(next) && ReprOf(next) == later && ModelOf(next) == rest;
    head.SetChild(merged);
  }

  method PutAfter<T>(head: Item<T>, name: string, x: Json<T>, works: nat -> bool, m: nat) returns (n: nat)
    requires head.Valid()
    modifies head.Repr
    ensures head.Valid() && fresh(head.Repr - old(head.Repr))
    ensures var r := PutTry(old(ModelOf(head.next)), name, x, works, m);
      head.Model() == Field(head.name, old(head.Node()), r.0) && n == r.1
    decreases x, 1, ReprOf(head), 0
  {
    var c, next := head.child, head.next;
    ghost var under := ReprOf(c);
    var put;
    put, n := PutItem(next, name, x, works, m);
    assert ValidList(c) && ReprOf(c) == under;
    head.SetNext(put);
  }

  /** Merges the defaults into the items; returns the first item, since there may have been none, and how many
      copies were tried. */
  method DeepMerge<T>(dst: Item?<T>, src: Fields<T>, works: nat -> bool, m: nat) returns (h: Item?<T>, n: nat)
    requires ValidList(dst)
    modifies ReprOf(dst)
    ensures ValidList(h) && fresh(ReprOf(h) - old(ReprOf(dst)))
    ensures (ModelOf(h), n) == MergeTry(old(ModelOf(dst)), src, works, m)
    decreases src, 0
  {
    h, n := dst, m;
    var item := src;
    while item.Field?
      invariant ValidList(h) && fresh(ReprOf(h) - old(ReprOf(dst)))
      invariant MergeTry(ModelOf(h), item, works, n) == MergeTry(old(ModelOf(dst)), src, works, m)
      invariant item == src || item < src
      decreases item
    {
      h, n := PutItem(h, item.name, item.node, works, n);
      item := item.next;
    }
  }
}
