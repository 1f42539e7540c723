/**
 The multi-store: every mounted store lives in the byte-keyed database of the ledger under
 a prefix made from its name, beside the protocol's own keys.
 */
module Stores {
  import opened Basics
  import opened Text
  import opened LedgerStub
  import opened LedgerDb
  import Keys
  import Messages
  import SequenceManager

  // ---------------------------------------------------------------- what a store sees

  function StoreLead(name: Bytes): Bytes {
    Ascii("s/k:") + name
  }

  function StorePrefix(name: Bytes): Bytes {
    StoreLead(name) + [SLASH]
  }

  /** The byte map that a store sees inside the database's; it has no empty key. */
  ghost function StoreView(m: Ledger, name: Bytes): Ledger {
    var p := StorePrefix(name);
    map k | k in (set b | b in m && p <= b :: b[|p|..]) && k != [] && p + k in m :: m[p + k]
  }

  lemma StoreViewAt(m: Ledger, name: Bytes, k: Bytes)
    ensures k in StoreView(m, name) <==> k != [] && StorePrefix(name) + k in m
    ensures k in StoreView(m, name) ==> StoreView(m, name)[k] == m[StorePrefix(name) + k]
  {
    hide StorePrefix;
    var p := StorePrefix(name);
    assert (p + k)[|p|..] == k && p <= p + k;
    if k in StoreView(m, name) {
      var b :| b in m && p <= b && b[|p|..] == k;
      assert b == p + k;
    }
  }

  /** Where a store's keys are on the flat ledger. */
  lemma OnLedger(state: Ledger, name: Bytes, k: Bytes)
    ensures var key := Hex(Ascii("s/k:") + name + Ascii("/") + k);
            Find(StoreView(DbView(state), name), k) == if k == [] then None else Find(state, key)
  {
    hide StoreView, DbView, Hex;
    StorePrefixText(name);
    StoreViewAt(DbView(state), name, k);
    ViewAt(state, StorePrefix(name) + k);
  }

  lemma StorePrefixText(name: Bytes)
    ensures StorePrefix(name) == Ascii("s/k:") + name + Ascii("/")
  {
    assert Ascii("/") == [SLASH];
  }

  lemma OwnWrite(m: Ledger, name: Bytes, k: Bytes, v: Bytes)
    requires k != []
    ensures StoreView(m[StorePrefix(name) + k := v], name) == StoreView(m, name)[k := v]
    ensures StoreView(m - {StorePrefix(name) + k}, name) == StoreView(m, name) - {k}
  {
    hide StorePrefix, StoreView;
    var p := StorePrefix(name);
    var put, removed := m[p + k := v], m - {p + k};
    var before, afterPut, afterRemoval := StoreView(m, name), StoreView(put, name), StoreView(removed, name);
    forall c
      ensures c in afterPut <==> c in before[k := v]
      ensures c in afterPut ==> afterPut[c] == before[k := v][c]
      ensures c in afterRemoval <==> c in before - {k}
      ensures c in afterRemoval ==> afterRemoval[c] == (before - {k})[c]
    {
      StoreViewAt(m, name, c);
      StoreViewAt(put, name, c);
      StoreViewAt(removed, name, c);
      Cancel(p, c, k);
    }
  }

  lemma Cancel(p: Bytes, a: Bytes, b: Bytes)
    ensures p + a == p + b <==> a == b
  {
    assert (p + a)[|p|..] == a && (p + b)[|p|..] == b;
  }

  // ---------------------------------------------------------------- isolation

  /** One name with its slash begins the other with its slash. */
  predicate Overlap(a: Bytes, b: Bytes) {
    a + [SLASH] <= b + [SLASH] || b + [SLASH] <= a + [SLASH]
  }

  lemma PrefixTail(name: Bytes, k: Bytes)
    ensures (StorePrefix(name) + k)[4..] == name + [SLASH] + k
    ensures StorePrefix(name) + k == Ascii("s/k:") + (name + [SLASH] + k)
  {
    assert |Ascii("s/k:")| == 4;
  }

  /** Two stores that can use the same key of the database have overlapping names. */
  lemma SameKeyOverlaps(a: Bytes, b: Bytes, k: Bytes, l: Bytes)
    requires StorePrefix(a) + k == StorePrefix(b) + l
    ensures Overlap(a, b)
  {
    PrefixTail(a, k);
    PrefixTail(b, l);
    hide StorePrefix;
    var s, t := a + [SLASH], b + [SLASH];
    assert s + k == t + l;
    if |s| <= |t| {
      assert s == (t + l)[..|s|] == t[..|s|];
    } else {
      assert t == (s + k)[..|t|] == s[..|t|];
    }
  }

  lemma OtherWrite(m: Ledger, a: Bytes, b: Bytes, k: Bytes, v: Bytes)
    requires !Overlap(a, b)
    ensures StoreView(m[StorePrefix(a) + k := v], b) == StoreView(m, b)
    ensures StoreView(m - {StorePrefix(a) + k}, b) == StoreView(m, b)
  {
    hide StorePrefix, StoreView, Overlap;
    var key := StorePrefix(a) + k;
    var put, removed := m[key := v], m - {key};
    var before, afterPut, afterRemoval := StoreView(m, b), StoreView(put, b), StoreView(removed, b);
    forall c
      ensures c in afterPut <==> c in before
      ensures c in before ==> afterPut[c] == before[c]
      ensures c in afterRemoval <==> c in before
      ensures c in before ==> afterRemoval[c] == before[c]
    {
      StoreViewAt(m, b, c);
      StoreViewAt(put, b, c);
      StoreViewAt(removed, b, c);
      if key == StorePrefix(b) + c {
        SameKeyOverlaps(a, b, k, c);
      }
    }
  }

  /** The database after a write through a store. */
  function PutThrough(m: Ledger, name: Bytes, k: Bytes, v: Bytes): Ledger {
    m[StorePrefix(name) + k := v]
  }

  /** No write through one store can show in another, under any key that a store takes. */
  ghost predicate Isolated(a: Bytes, b: Bytes) {
    forall m, k, v :: k != [] ==> StoreView(PutThrough(m, a, k, v), b) == StoreView(m, b)
  }

  /** Stores are isolated if and only if their names do not overlap. */
  lemma IsolatedExactly(a: Bytes, b: Bytes)
    ensures Isolated(a, b) <==> !Overlap(a, b)
  {
    hide StorePrefix, StoreView;
    if !Overlap(a, b) {
      forall m, k, v
        ensures StoreView(PutThrough(m, a, k, v), b) == StoreView(m, b)
      {
        OtherWrite(m, a, b, k, v);
      }
    } else {
      var k, l := SharedKey(a, b);
      var m: Ledger := map[];
      StoreViewAt(m, b, l);
      StoreViewAt(PutThrough(m, a, k, []), b, l);
      assert StoreView(PutThrough(m, a, k, []), b) != StoreView(m, b);
    }
  }

  lemma SharedKey(a: Bytes, b: Bytes) returns (k: Bytes, l: Bytes)
    requires Overlap(a, b)
    ensures k != [] && l != [] && StorePrefix(a) + k == StorePrefix(b) + l
  {
    var s, t := a + [SLASH], b + [SLASH];
    if s <= t {
      k, l := t[|s|..] + [1], [1];
    } else {
      k, l := [1], s[|t|..] + [1];
    }
    assert s + k == t + l;
    PrefixTail(a, k);
    PrefixTail(b, l);
  }

  /** Names without a slash overlap only if they are the same. */
  lemma PlainNamesApart(a: Bytes, b: Bytes)
    requires Free(a, SLASH) && Free(b, SLASH) && Overlap(a, b)
    ensures a == b
  {
    if a + [SLASH] <= b + [SLASH] {
      PlainNameBegins(a, b);
    } else {
      PlainNameBegins(b, a);
    }
  }

  lemma PlainNameBegins(a: Bytes, b: Bytes)
    requires Free(b, SLASH) && a + [SLASH] <= b + [SLASH]
    ensures a == b
  {
    var s, t := a + [SLASH], b + [SLASH];
    assert s[|a|] == t[|a|] == SLASH;
    assert |a| == |b|;
    assert a == s[..|a|] && b == t[..|b|];
  }

  /** A mounted store: a prefixed view of the ledger's database. */
  class KVStore {
    const db: DB
    const name: Bytes

    constructor (db: DB, name: Bytes)
      ensures this.db == db && this.name == name
    {
      this.db, this.name := db, name;
    }

    ghost function View(): Ledger
      reads db.stub
    {
      StoreView(DbView(db.stub.state), name)
    }

    method Get(key: Bytes) returns (r: Result<Option<Bytes>, DbError>)
      ensures key == [] ==> r == Err(KeyEmpty)
      ensures key != [] ==> r == Ok(if key in View() then Some(View()[key]) else None)
    {
      if |key| == 0 {
        return Err(KeyEmpty);
      }
      StoreViewAt(DbView(db.stub.state), name, key);
      r := db.Get(StorePrefix(name) + key);
    }

    method Set(key: Bytes, value: Option<Bytes>) returns (r: Result<(), DbError>)
      modifies db.stub
      ensures r == if key == [] then Err(KeyEmpty) else if value.None? then Err(ValueNil) else Ok(())
      ensures r.Err? ==> db.stub.state == old(db.stub.state)
      ensures r.Ok? ==> View() == old(View())[key := value.value]
      ensures forall other :: !Overlap(name, other) ==>
                StoreView(DbView(db.stub.state), other) == StoreView(old(DbView(db.stub.state)), other)
      ensures OthersKept(old(db.stub.state), db.stub.state)
    {
      hide OthersKept, Hex;
      Unchanged(db.stub.state);
      if |key| == 0 {
        return Err(KeyEmpty);
      }
      if value.None? {
        return Err(ValueNil);
      }
      ghost var m := DbView(db.stub.state);
      OthersKeptBy(db.stub.state, db.stub.state, StorePrefix(name) + key, value.value);
      r := db.Set(StorePrefix(name) + key, value);
      OwnWrite(m, name, key, value.value);
      forall other | !Overlap(name, other)
        ensures StoreView(DbView(db.stub.state), other) == StoreView(m, other)
      {
        OtherWrite(m, name, other, key, value.value);
      }
    }

    method Delete(key: Bytes) returns (r: Result<(), DbError>)
      modifies db.stub
      ensures r == if key == [] then Err(KeyEmpty) else Ok(())
      ensures r.Err? ==> db.stub.state == old(db.stub.state)
      ensures r.Ok? ==> View() == old(View()) - {key}
      ensures forall other :: !Overlap(name, other) ==>
                StoreView(DbView(db.stub.state), other) == StoreView(old(DbView(db.stub.state)), other)
      ensures OthersKept(old(db.stub.state), db.stub.state)
    {
      hide OthersKept, Hex;
      Unchanged(db.stub.state);
      if |key| == 0 {
        return Err(KeyEmpty);
      }
      ghost var m := DbView(db.stub.state);
      OthersKeptBy(db.stub.state, db.stub.state, StorePrefix(name) + key, []);
      r := db.Delete(StorePrefix(name) + key);
      OwnWrite(m, name, key, []);
      forall other | !Overlap(name, other)
        ensures StoreView(DbView(db.stub.state), other) == StoreView(m, other)
      {
        OtherWrite(m, name, other, key, []);
      }
    }
  }

  /** The mounting of stores; a store key is an object, here a number. */
  class MultiStore {
    var names: map<nat, Bytes>
    var keysByName: map<Bytes, nat>

    ghost predicate Valid()
      reads this
    {
      (forall k :: k in names ==> names[k] in keysByName && keysByName[names[k]] == k)
      && (forall n :: n in keysByName ==> keysByName[n] in names && names[keysByName[n]] == n)
    }

    constructor ()
      ensures Valid() && names == map[]
    {
      names, keysByName := map[], map[];
    }

    /** `MountStoreWithDB`; false is its panic. What is mounted always has distinct names. */
    method MountStoreWithDB(key: nat, name: Bytes) returns (ok: bool)
      requires Valid()
      modifies this
      ensures Valid()
      ensures ok <==> key !in old(names) && name !in old(names).Values
      ensures names == if ok then old(names)[key := name] else old(names)
      ensures forall k, l :: k in names && l in names && k != l ==> names[k] != names[l]
    {
      if key in names {
        return false;
      }
      if name in keysByName {
        return false;
      }
      names := names[key := name];
      keysByName := keysByName[name := key];
      return true;
    }
  }

  // ---------------------------------------------------------------- iteration on the shared ledger

  /** The protocol's own keys have a slash among their first two bytes. */
  predicate Marked(s: Bytes) {
    |s| >= 2 && SLASH in s[..2]
  }

  /** A ledger with nothing but database keys and the protocol's own. */
  ghost predicate Shared(state: Ledger) {
    forall s :: s in state ==> IsDbKey(s) || Marked(s)
  }

  /** Whatever the chaincode writes, under whatever key, keeps the ledger so. */
  lemma WriteKeepsShared(state: Ledger, prefix: Bytes, k: Keys.Key, v: Bytes)
    requires Shared(state)
    ensures Shared(state[Keys.Render(prefix, k) := v]) && Shared(state - {Keys.Render(prefix, k)})
  {
    hide IsDbKey;
    match k
    case Database(b) =>
      Keys.DatabaseKey(prefix, b);
      DbKey(b);
    case _ =>
      Keys.RenderMark(prefix, k);
  }

  lemma MarkedUndecodable(s: Bytes)
    requires Marked(s)
    ensures UnHex(s) == None
  {
    UndecodableKey(s, if s[0] == SLASH then 0 else 1);
  }

  /** On a shared ledger an iterator panics if and only if a key of the protocol is in its range. */
  lemma SharedPanics(state: Ledger, items: seq<Item>, lo: Bytes, hi: Bytes)
    requires Shared(state) && Listing(items, state, lo, hi)
    ensures DecodeAll(items).None? <==> exists s :: s in state && InRange(s, lo, hi) && Marked(s)
  {
    hide UnHex, InRange, Less, AscendingItems, Marked, DecodeAll;
    IterationPanics(state, items, lo, hi);
    if s :| s in state && InRange(s, lo, hi) && Marked(s) {
      MarkedUndecodable(s);
    }
  }

  /** For instance an unbounded iteration on a ledger where a sequence has been stored, as `InitSequence` does. */
  lemma UnboundedPanics(state: Ledger, prefix: Bytes, s: Messages.Sequence, items: seq<Item>)
    requires Listing(items, SequenceManager.PutSequence(state, prefix, s), [], [])
    ensures DecodeAll(items).None?
  {
    var k := Keys.MakeCurrentSequenceKey(prefix);
    var after := SequenceManager.PutSequence(state, prefix, s);
    assert k in after && InRange(k, [], []);
    Keys.RenderMark(prefix, Keys.Current);
    hide DecodeAll, Listing, Keys.MakeCurrentSequenceKey, SequenceManager.PutSequence, Marked;
    assert Marked(k) by { IsMarked(k); }
    MarkedUndecodable(k);
    IterationPanics(after, items, [], []);
  }

  lemma IsMarked(k: Bytes)
    requires |k| >= 2 && SLASH in k[..2]
    ensures Marked(k)
  {}

  /** Between two byte strings with a common prefix there are only strings with that prefix. */
  lemma {:induction false} Between(p: Bytes, b: Bytes, x: Bytes, y: Bytes)
    requires !Less(b, p + x) && Less(b, p + y)
    ensures p <= b
  {
    if p != [] {
      assert (p + x)[1..] == p[1..] + x && (p + y)[1..] == p[1..] + y;
      assert b != [] && b[0] == p[0];
      Between(p[1..], b[1..], x, y);
      assert p == [p[0]] + p[1..] && b == [b[0]] + b[1..];
    }
  }

  /** Where the iteration of a store ends: the prefix with its last byte increased, or the prefixed bound. */
  function StoreEnd(name: Bytes, end: Bytes): Bytes {
    EndAfter(StoreLead(name), end)
  }

  function EndAfter(q: Bytes, end: Bytes): Bytes {
    if end == [] then q + [SLASH + 1] else q + [SLASH] + end
  }

  /** The range of a store's iteration holds exactly the prefixed keys of its own range. */
  lemma StoreRange(name: Bytes, b: Bytes, start: Bytes, end: Bytes)
    ensures InRange(b, StorePrefix(name) + start, StoreEnd(name, end))
       <==> exists k :: b == StorePrefix(name) + k && InRange(k, start, end)
  {
    var q := StoreLead(name);
    var p := StorePrefix(name);
    assert p == q + [SLASH];
    hide StorePrefix, StoreLead, Less;
    if InRange(b, p + start, StoreEnd(name, end)) {
      BeginsWithPrefix(q, b, start, end);
      var k := b[|p|..];
      assert b == p + k;
      InStoreRange(q, k, start, end);
    }
    if k :| b == p + k && InRange(k, start, end) {
      InStoreRange(q, k, start, end);
    }
  }

  lemma BeginsWithPrefix(q: Bytes, b: Bytes, start: Bytes, end: Bytes)
    requires !Less(b, q + [SLASH] + start) && Less(b, EndAfter(q, end))
    ensures q + [SLASH] <= b
  {
    if end != [] {
      Between(q + [SLASH], b, start, end);
    } else {
      assert q + [SLASH] + start == q + ([SLASH] + start);
      Between(q, b, [SLASH] + start, [SLASH + 1]);
      var r := b[|q|..];
      assert b == q + r;
      LessPrefix(q, r, [SLASH] + start);
      LessPrefix(q, r, [SLASH + 1]);
      assert r != [] && r[0] == SLASH;
    }
  }

  lemma InStoreRange(q: Bytes, k: Bytes, start: Bytes, end: Bytes)
    ensures InRange(q + [SLASH] + k, q + [SLASH] + start, EndAfter(q, end)) <==> InRange(k, start, end)
  {
    LessPrefix(q + [SLASH], k, start);
    if end != [] {
      LessPrefix(q + [SLASH], k, end);
    } else {
      assert q + [SLASH] + k == q + ([SLASH] + k);
      LessPrefix(q, [SLASH] + k, [SLASH + 1]);
    }
  }

  /** No key of the protocol lies in the range of a store's iteration. */
  lemma NoMarkedInStoreRange(s: Bytes, name: Bytes, start: Bytes, end: Bytes)
    requires InRange(s, Hex(StorePrefix(name) + start), Hex(StoreEnd(name, end)))
    ensures !Marked(s)
  {
    var x := StorePrefix(name) + start;
    var y := StoreEnd(name, end);
    assert x[0] == 115 && y[0] == 115;
    assert x == [115] + x[1..] && y == [115] + y[1..];
    HexPrefix([115], x[1..]);
    HexPrefix([115], y[1..]);
    HexOfS();
    hide StorePrefix, StoreEnd, Hex;
    Between([55, 51], s, Hex(x[1..]), Hex(y[1..]));
    assert s[..2] == [55, 51];
  }

  lemma HexOfS()
    ensures Hex([115]) == [55, 51]
  {}

  /** The keys with the store's prefix taken off. */
  function Strip(items: seq<Item>, name: Bytes): (r: seq<Item>)
    ensures |r| == |items|
    ensures forall i :: 0 <= i < |items| && StorePrefix(name) <= items[i].key
                        ==> items[i] == Item(StorePrefix(name) + r[i].key, r[i].value)
  {
    var n := |StorePrefix(name)|;
    seq(|items|, i requires 0 <= i < |items| => Item(if n <= |items[i].key| then items[i].key[n..] else [], items[i].value))
  }

  /** The prefix iterator passes over an entry at the bare prefix, which is no key of the store. */
  function PassBare(items: seq<Item>, name: Bytes): (r: seq<Item>)
    ensures forall x :: x in r ==> x in items
  {
    if items != [] && items[0].key == StorePrefix(name) then items[1..] else items
  }

  lemma PassBareMembers(items: seq<Item>, name: Bytes, x: Item)
    requires AscendingItems(items) && forall i :: 0 <= i < |items| ==> StorePrefix(name) <= items[i].key
    ensures AscendingItems(PassBare(items, name))
    ensures x in PassBare(items, name) <==> x in items && x.key != StorePrefix(name)
  {
    hide StorePrefix, Less;
    var p := StorePrefix(name);
    if items != [] {
      TailMembers(items);
      if x in items && x.key == p && x != items[0] {
        var r := items[0].key[|p|..];
        assert items[0].key == p + r && p + [] == p;
        LessPrefix(p, r, []);
        NothingBelowEmpty(r);
      }
      if items[0].key == p && x in items[1..] && x.key == p {
        LessIrreflexive(p);
      }
    }
  }

  lemma NothingBelowEmpty(r: Bytes)
    ensures !Less(r, [])
  {}

  /**
   A store's iteration on the shared ledger never meets a key that does not decode, and
   yields exactly the store's own pairs in the range, in ascending order.
   */
  lemma StoreIteration(state: Ledger, items: seq<Item>, name: Bytes, start: Bytes, end: Bytes)
    requires Shared(state)
    requires Listing(items, state, Hex(StorePrefix(name) + start), Hex(StoreEnd(name, end)))
    ensures DecodeAll(items).Some?
    ensures forall i :: 0 <= i < |items| ==> StorePrefix(name) <= DecodeAll(items).value[i].key
    ensures Listing(Strip(PassBare(DecodeAll(items).value, name), name), StoreView(DbView(state), name), start, end)
  {
    hide Hex, UnHex, InRange, Less, IsDbKey, Marked, DecodeAll, DbView, StorePrefix, StoreEnd, StoreView, AscendingItems;
    var lo, hi := StorePrefix(name) + start, StoreEnd(name, end);
    forall s | s in state && InRange(s, Hex(lo), Hex(hi))
      ensures IsDbKey(s)
    {
      NoMarkedInStoreRange(s, name, start, end);
    }
    IterationRefines(state, items, lo, hi);
    StripListing(DbView(state), DecodeAll(items).value, name, start, end);
  }

  lemma StripListing(m: Ledger, items: seq<Item>, name: Bytes, start: Bytes, end: Bytes)
    requires Listing(items, m, StorePrefix(name) + start, StoreEnd(name, end))
    ensures forall i :: 0 <= i < |items| ==> StorePrefix(name) <= items[i].key
    ensures Listing(Strip(PassBare(items, name), name), StoreView(m, name), start, end)
  {
    hide InRange, Less, StorePrefix, StoreEnd, StoreView, PassBare;
    var p := StorePrefix(name);
    forall i | 0 <= i < |items|
      ensures p <= items[i].key
    {
      assert Item(items[i].key, items[i].value) in items;
      StoreRange(name, items[i].key, start, end);
    }
    var kept := PassBare(items, name);
    PassBareMembers(items, name, Item([], []));
    var r := Strip(kept, name);
    forall i, j | 0 <= i < j < |r|
      ensures Less(r[i].key, r[j].key)
    {
      LessPrefix(p, r[i].key, r[j].key);
      assert kept[i].key == p + r[i].key && kept[j].key == p + r[j].key;
    }
    forall k, v
      ensures Item(k, v) in r <==> k in StoreView(m, name) && StoreView(m, name)[k] == v && InRange(k, start, end)
    {
      StripMembers(kept, name, k, v);
      PassBareMembers(items, name, Item(p + k, v));
      StoreViewAt(m, name, k);
      RangeAt(name, k, start, end);
      assert p + k == p <==> k == [];
      assert Item(p + k, v) in items <==> p + k in m && m[p + k] == v && InRange(p + k, p + start, StoreEnd(name, end));
    }
  }

  lemma RangeAt(name: Bytes, k: Bytes, start: Bytes, end: Bytes)
    ensures InRange(StorePrefix(name) + k, StorePrefix(name) + start, StoreEnd(name, end)) <==> InRange(k, start, end)
  {
    hide StoreLead;
    InStoreRange(StoreLead(name), k, start, end);
  }

  lemma StripMembers(items: seq<Item>, name: Bytes, k: Bytes, v: Bytes)
    requires forall i :: 0 <= i < |items| ==> StorePrefix(name) <= items[i].key
    ensures Item(k, v) in Strip(items, name) <==> Item(StorePrefix(name) + k, v) in items
  {
    hide StorePrefix, Strip;
    var r := Strip(items, name);
    if Item(StorePrefix(name) + k, v) in items {
      var i :| 0 <= i < |items| && items[i] == Item(StorePrefix(name) + k, v);
      Cancel(StorePrefix(name), k, r[i].key);
      assert r[i] == Item(k, v);
    }
    if Item(k, v) in r {
      var i :| 0 <= i < |r| && r[i] == Item(k, v);
      assert items[i] == Item(StorePrefix(name) + k, v);
    }
  }
}
