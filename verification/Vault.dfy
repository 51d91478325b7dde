/** The password vault: a locked list of encrypted entries that behaves as a plain list of passwords. */
module Vault {
  import opened CText
  import opened Options
  import opened Secrets

  const MAX_ENTRIES: nat := 10
  const CIPHERTEXT: nat := 80

  datatype Entry = Entry(name: string, user: string, iv: Bytes, cipher: Bytes)

  const SALT: nat := 16
  const VERIFIER: nat := 32

  /** The cipher, the two halves of what a master password and a salt are stretched to, and the stored text. */
  datatype World = World(c: Cipher, verifierOf: (Bytes, Bytes) -> Bytes, keyOf: (Bytes, Bytes) -> Bytes, stored: string)

  /** What a setup stores: salt and verifier in hex. */
  function StoredText(salt: Bytes, verifier: Bytes): string { ToHex(salt) + ToHex(verifier) }

  /** The stored text is as a setup left it, and whoever passes the check has the key that was set up. */
  ghost predicate WorldOk(w: World, master: Bytes, salt: Bytes) {
    && Invertible(w.c)
    && |salt| == SALT && |w.verifierOf(master, salt)| == VERIFIER
       && w.stored == StoredText(salt, w.verifierOf(master, salt))
    && forall p :: w.verifierOf(p, salt) == w.verifierOf(master, salt) ==> w.keyOf(p, salt) == w.keyOf(master, salt)
  }

  predicate WellStored(w: World) { |w.stored| == (SALT + VERIFIER) * 2 }

  function SaltOf(w: World): Bytes
    requires WellStored(w)
  {
    FromHex(w.stored[..SALT * 2])
  }

  function VerifierOf(w: World): Bytes
    requires WellStored(w)
  {
    FromHex(w.stored[SALT * 2..])
  }

  /** Whether a password opens the vault; `derived` says whether it could be stretched. */
  predicate Opens(w: World, p: Bytes, derived: bool) {
    WellStored(w) && derived && w.verifierOf(p, SaltOf(w)) == VerifierOf(w)
  }

  lemma StoredReads(w: World, master: Bytes, salt: Bytes)
    requires WorldOk(w, master, salt)
    ensures WellStored(w) && SaltOf(w) == salt && VerifierOf(w) == w.verifierOf(master, salt)
  {
    var v := w.verifierOf(master, salt);
    FromHexOfToHex(salt);
    FromHexOfToHex(v);
    assert w.stored[..SALT * 2] == ToHex(salt) && w.stored[SALT * 2..] == ToHex(v);
  }

  const NO_KEY: Bytes := seq(32, _ => 0)

  datatype Session = Session(unlocked: bool, key: Bytes)

  datatype State = State(session: Session, entries: seq<Entry>)

  datatype Call =
    | Unlock(password: Bytes, derived: bool)
    | Lock
    | Add(name: string, user: string, password: Bytes, iv: Bytes, works: bool)
    | Remove(idx: int)

  /** After the one setup the vault is open and empty. */
  function SetUp(w: World, master: Bytes, salt: Bytes): State { State(Session(true, w.keyOf(master, salt)), []) }

  function NewEntry(w: World, key: Bytes, name: string, user: string, password: Bytes, iv: Bytes): Entry {
    Entry(Clip(name, 24), Clip(user, 64), iv, w.c.enc(key, iv, Pad(password)))
  }

  /** Whether an add goes through; `works` says what the cipher library answers. */
  predicate Adds(unlocked: bool, count: nat, password: Bytes, works: bool) {
    unlocked && count < MAX_ENTRIES && |Pad(password)| <= CIPHERTEXT && works
  }

  /** An entry has room for passwords up to 79 bytes. */
  lemma AddsUpTo79(unlocked: bool, count: nat, password: Bytes, works: bool)
    ensures Adds(unlocked, count, password, works) <==> unlocked && count < MAX_ENTRIES && |password| <= 79 && works
  {
    UnpadOfPad(password);
  }

  function Next(w: World, s: State, c: Call): State {
    match c
    case Unlock(p, derived) => if Opens(w, p, derived) then s.(session := Session(true, w.keyOf(p, SaltOf(w)))) else s
    case Lock => s.(session := Session(false, NO_KEY))
    case Add(name, user, p, iv, works) =>
      if Adds(s.session.unlocked, |s.entries|, p, works)
      then s.(entries := s.entries + [NewEntry(w, s.session.key, name, user, p, iv)])
      else s
    case Remove(i) => if 0 <= i < |s.entries| then s.(entries := s.entries[..i] + s.entries[i + 1..]) else s
  }

  function Run(w: World, master: Bytes, salt: Bytes, calls: seq<Call>): State {
    if calls == [] then SetUp(w, master, salt) else Next(w, Run(w, master, salt, calls[..|calls|-1]), calls[|calls|-1])
  }

  /** Reading an entry; nothing if the vault is locked, there is no such entry, or it does not fit. */
  function Read(w: World, s: State, i: int, outSize: nat): Option<Bytes> {
    if !s.session.unlocked || i < 0 || i >= |s.entries| then None
        else Decrypted(w, s.session.key, s.entries[i], outSize)
  }

  function Decrypted(w: World, key: Bytes, e: Entry, outSize: nat): Option<Bytes> {
    if |e.cipher| == 0 || |e.cipher| % 16 != 0 || |e.cipher| > 96 then None
    else
      var plain := w.c.dec(key, e.iv, e.cipher);
      if plain == [] then None
      else
        match Unpad(plain)
        case None => None
        case Some(p) => if |p| >= outSize then None else Some(p)
  }

  /** After a try to unlock the vault is open if and only if the password opens it or it was open before: a failed
      try does not lock it, and changes nothing else either. */
  lemma UnlockLeavesOpen(w: World, s: State, p: Bytes, derived: bool)
    ensures Next(w, s, Unlock(p, derived)).session.unlocked <==> s.session.unlocked || Opens(w, p, derived)
    ensures Next(w, s, Unlock(p, derived)) != s ==> Opens(w, p, derived)
  {
  }

  // ---------- as a plain list ----------

  datatype Item = Item(name: string, user: string, password: Bytes)

  /** The same calls on a list that keeps passwords as they are. */
  datatype Plain = Plain(open: bool, items: seq<Item>)

  function PlainNext(w: World, s: Plain, c: Call): Plain {
    match c
    case Unlock(p, derived) => if Opens(w, p, derived) then s.(open := true) else s
    case Lock => s.(open := false)
    case Add(name, user, p, _, works) =>
      if Adds(s.open, |s.items|, p, works) then s.(items := s.items + [Item(Clip(name, 24), Clip(user, 64), p)]) else s
    case Remove(i) => if 0 <= i < |s.items| then s.(items := s.items[..i] + s.items[i + 1..]) else s
  }

  function PlainRun(w: World, calls: seq<Call>): Plain {
    if calls == [] then Plain(true, []) else PlainNext(w, PlainRun(w, calls[..|calls|-1]), calls[|calls|-1])
  }

  ghost predicate Holds(w: World, key: Bytes, e: Entry, item: Item) {
    && e.name == item.name && e.user == item.user
    && |Pad(item.password)| <= CIPHERTEXT && e.cipher == w.c.enc(key, e.iv, Pad(item.password))
  }

  ghost predicate Agree(w: World, key: Bytes, s: State, p: Plain) {
    && s.session.unlocked == p.open && (p.open ==> s.session.key == key)
    && |s.entries| == |p.items| <= MAX_ENTRIES
    && forall i | 0 <= i < |s.entries| :: Holds(w, key, s.entries[i], p.items[i])
  }

  lemma NextAgrees(w: World, master: Bytes, salt: Bytes, s: State, p: Plain, c: Call)
    requires WorldOk(w, master, salt) && Agree(w, w.keyOf(master, salt), s, p)
    ensures Agree(w, w.keyOf(master, salt), Next(w, s, c), PlainNext(w, p, c))
  {
    StoredReads(w, master, salt);
  }

  /** In every run the vault is the plain list, encrypted. */
  lemma {:induction false} RunAgrees(w: World, master: Bytes, salt: Bytes, calls: seq<Call>)
    requires WorldOk(w, master, salt)
    ensures Agree(w, w.keyOf(master, salt), Run(w, master, salt, calls), PlainRun(w, calls))
  {
    if calls != [] {
      var earlier := calls[..|calls|-1];
      RunAgrees(w, master, salt, earlier);
      NextAgrees(w, master, salt, Run(w, master, salt, earlier), PlainRun(w, earlier), calls[|calls|-1]);
    }
  }

  /** Reading gives exactly the password that was added and has survived, if the vault is open and it fits. */
  lemma ReadsWhatWasAdded(w: World, master: Bytes, salt: Bytes, calls: seq<Call>, i: int, outSize: nat)
    requires WorldOk(w, master, salt)
    ensures var p := PlainRun(w, calls);
      Read(w, Run(w, master, salt, calls), i, outSize) ==
      if p.open && 0 <= i < |p.items| && |p.items[i].password| < outSize then Some(p.items[i].password) else None
  {
    RunAgrees(w, master, salt, calls);
    var s, p := Run(w, master, salt, calls), PlainRun(w, calls);
    if p.open && 0 <= i < |p.items| {
      assert Holds(w, w.keyOf(master, salt), s.entries[i], p.items[i]);
      UnpadOfPad(p.items[i].password);
    }
  }

  /** The password of the setup opens the vault whenever it can be stretched. */
  lemma MasterOpens(w: World, master: Bytes, salt: Bytes, calls: seq<Call>)
    requires WorldOk(w, master, salt)
    ensures Run(w, master, salt, calls + [Unlock(master, true)]).session == Session(true, w.keyOf(master, salt))
  {
    StoredReads(w, master, salt);
    assert (calls + [Unlock(master, true)])[..|calls|] == calls;
  }

  // ---------- the code ----------

  class Manager {
    const w: World
    var sUnlocked: bool
    var sSessionKey: Bytes
    const pwEntries: array<Entry>
    var count: nat

    ghost predicate Valid()
      reads this
    {
      pwEntries.Length == MAX_ENTRIES && count <= MAX_ENTRIES
    }

    ghost function Now(): State
      reads this, pwEntries
      requires Valid()
    {
      State(Session(sUnlocked, sSessionKey), pwEntries[..count])
    }

    /** The one setup: stores salt and verifier in hex, and leaves the vault open. */
    constructor (c: Cipher, verifierOf: (Bytes, Bytes) -> Bytes, keyOf: (Bytes, Bytes) -> Bytes,
                 master: Bytes, salt: Bytes)
      ensures Valid() && fresh(pwEntries) && Now() == SetUp(w, master, salt)
      ensures w == World(c, verifierOf, keyOf, StoredText(salt, verifierOf(master, salt)))
    {
      w := World(c, verifierOf, keyOf, ToHex(salt) + ToHex(verifierOf(master, salt)));
      sUnlocked, sSessionKey := true, keyOf(master, salt);
      pwEntries := new Entry[MAX_ENTRIES](_ => Entry("", "", [], []));
      count := 0;
    }

    method Unlock(password: Bytes, derived: bool) returns (ok: bool)
      requires Valid() && forall s :: |w.verifierOf(password, s)| == VERIFIER
      modifies this
      ensures Valid() && Now() == Next(w, old(Now()), Call.Unlock(password, derived))
      ensures ok <==> Opens(w, password, derived)
    {
      if |w.stored| != (SALT + VERIFIER) * 2 { return false; }
      var salt, verifier;
      ok, salt := HexToBytes(w.stored[..SALT * 2], SALT);
      if !ok { return; }
      ok, verifier := HexToBytes(w.stored[SALT * 2..], VERIFIER);
      if !ok || !derived { return false; }
      ok := SameBytes(w.verifierOf(password, salt), verifier);
      if !ok { return; }
      sSessionKey := w.keyOf(password, salt);
      sUnlocked := true;
    }

    /** The comparison without early exit. */
    static method SameBytes(a: Bytes, b: Bytes) returns (same: bool)
      requires |a| == |b|
      ensures same <==> a == b
    {
      var diff := false;
      for i := 0 to |b|
        invariant diff <==> a[..i] != b[..i]
      {
        assert a[..i + 1] == a[..i] + [a[i]] && b[..i + 1] == b[..i] + [b[i]];
        diff := diff || a[i] != b[i];
      }
      assert a[..|a|] == a && b[..|a|] == b;
      same := !diff;
    }

    method Lock()
      requires Valid()
      modifies this
      ensures Valid() && Now() == Next(w, old(Now()), Call.Lock)
    {
      sSessionKey := NO_KEY;
      sUnlocked := false;
    }

    /** The slot behind the last entry is filled in before it is known whether the password can be encrypted. */
    method Add(name: string, user: string, password: Bytes, iv: Bytes, works: bool) returns (ok: bool)
      requires Valid()
      modifies this, pwEntries
      ensures Valid() && Now() == Next(w, old(Now()), Call.Add(name, user, password, iv, works))
      ensures ok <==> Adds(old(sUnlocked), old(count), password, works)
    {
      if !sUnlocked || count >= MAX_ENTRIES { return false; }
      ghost var before := pwEntries[..count];
      pwEntries[count] := Entry(Clip(name, 24), Clip(user, 64), iv, pwEntries[count].cipher);
      assert pwEntries[..count] == before;
      var encrypted, cipher := Encrypt(password, iv, works);
      if !encrypted { return false; }
      pwEntries[count] := pwEntries[count].(cipher := cipher);
      count := count + 1;
      assert pwEntries[..count] == before + [NewEntry(w, sSessionKey, name, user, password, iv)];
      ok := true;
    }

    method Encrypt(password: Bytes, iv: Bytes, works: bool) returns (ok: bool, cipher: Bytes)
      ensures ok <==> |Pad(password)| <= CIPHERTEXT && works
      ensures ok ==> cipher == w.c.enc(sSessionKey, iv, Pad(password))
    {
      var pad := 16 - |password| % 16;
      var total := |password| + pad;
      if total > CIPHERTEXT || total > 96 || !works { return false, []; }
      var buf := new byte[96](i => if 0 <= i < |password| then password[i] else 0);
      assert buf[..|password|] == password;
      var n := PadInPlace(buf, |password|);
      return true, w.c.enc(sSessionKey, iv, buf[..n]);
    }

    method Remove(idx: int) returns (ok: bool)
      requires Valid()
      modifies this, pwEntries
      ensures Valid() && Now() == Next(w, old(Now()), Call.Remove(idx))
      ensures ok <==> 0 <= idx < old(count)
    {
      if idx < 0 || idx >= count { return false; }
      ghost var before := pwEntries[..count];
      for i := idx to count - 1
        modifies pwEntries
        invariant forall k | 0 <= k < idx :: pwEntries[k] == before[k]
        invariant forall k | idx <= k < i :: pwEntries[k] == before[k + 1]
        invariant forall k | i <= k < count :: pwEntries[k] == before[k]
      {
        pwEntries[i] := pwEntries[i + 1];
      }
      count := count - 1;
      forall k | 0 <= k < count ensures pwEntries[..count][k] == (before[..idx] + before[idx + 1..])[k] {
        if k >= idx { assert (before[..idx] + before[idx + 1..])[k] == before[idx + 1..][k - idx]; }
      }
      assert pwEntries[..count] == before[..idx] + before[idx + 1..];
      ok := true;
    }

    method GetPassword(idx: int, outSize: nat) returns (r: Option<Bytes>)
      requires Valid()
      ensures r == Read(w, Now(), idx, outSize)
    {
      if !sUnlocked || idx < 0 || idx >= count { return None; }
      var e := pwEntries[idx];
      if |e.cipher| == 0 || |e.cipher| % 16 != 0 || |e.cipher| > 96 { return None; }
      var plain := w.c.dec(sSessionKey, e.iv, e.cipher);
      if plain == [] { return None; }
      var pad := plain[|plain|-1] as int;
      if pad == 0 || pad > 16 || pad > |plain| { return None; }
      var len := |plain| - pad;
      return if len >= outSize then None else Some(plain[..len]);
    }
  }
}
