/**
 The flat ledger of a chaincode as the stub gives access to it: a map from keys to
 values with ordered range scans.
 */
module LedgerStub {
  import opened Basics

  type Ledger = map<Bytes, Bytes>

  datatype Item = Item(key: Bytes, value: Bytes)

  /** The half-open range of a scan; an empty bound is no bound. */
  predicate InRange(k: Bytes, lo: Bytes, hi: Bytes) {
    (lo == [] || !Less(k, lo)) && (hi == [] || Less(k, hi))
  }

  predicate AscendingItems(items: seq<Item>) {
    forall i, j :: 0 <= i < j < |items| ==> Less(items[i].key, items[j].key)
  }

  /** The items are exactly the pairs of the map inside the range, in ascending order of keys. */
  ghost predicate Listing(items: seq<Item>, m: Ledger, lo: Bytes, hi: Bytes) {
    AscendingItems(items)
    && forall k, v :: Item(k, v) in items <==> k in m && m[k] == v && InRange(k, lo, hi)
  }

  lemma {:induction false} AscendingUnique(a: seq<Item>, b: seq<Item>)
    requires AscendingItems(a) && AscendingItems(b)
    requires forall x :: x in a <==> x in b
    ensures a == b
    decreases |a|
  {
    if a == [] {
      Inhabited(b);
    } else {
      assert a[0] in b;
      assert b[0] in a;
      FirstIsLeast(a, b[0]);
      FirstIsLeast(b, a[0]);
      if a[0] != b[0] {
        LessAsymmetric(a[0].key, b[0].key);
      }
      TailMembers(a);
      TailMembers(b);
      AscendingUnique(a[1..], b[1..]);
      assert a == [a[0]] + a[1..] && b == [b[0]] + b[1..];
    }
  }

  /** There is only one listing of a range. */
  lemma OneListing(a: seq<Item>, b: seq<Item>, m: Ledger, lo: Bytes, hi: Bytes)
    requires Listing(a, m, lo, hi) && Listing(b, m, lo, hi)
    ensures a == b
  {
    hide InRange, AscendingItems;
    forall x
      ensures x in a <==> x in b
    {
      assert Item(x.key, x.value) in a <==> Item(x.key, x.value) in b;
    }
    AscendingUnique(a, b);
  }

  lemma Inhabited(b: seq<Item>)
    ensures b == [] || exists x :: x in b
  {
    if b != [] {
      assert b[0] in b;
    }
  }

  lemma FirstIsLeast(a: seq<Item>, x: Item)
    requires AscendingItems(a) && x in a
    ensures x == a[0] || Less(a[0].key, x.key)
  {}

  lemma TailMembers(a: seq<Item>)
    requires AscendingItems(a) && a != []
    ensures AscendingItems(a[1..])
    ensures forall x :: x in a[1..] <==> x in a && x != a[0]
  {
    forall x | x in a[1..]
      ensures x != a[0]
    {
      LessIrreflexive(a[0].key);
    }
    assert a == [a[0]] + a[1..];
  }

  /** `sort.Slice` by key, one item at a time. */
  function InsertItem(items: seq<Item>, x: Item): seq<Item> {
    if items == [] then [x]
    else if Less(x.key, items[0].key) then [x] + items
    else [items[0]] + InsertItem(items[1..], x)
  }

  lemma {:induction false} InsertItemSorted(items: seq<Item>, x: Item)
    requires AscendingItems(items) && forall y :: y in items ==> y.key != x.key
    ensures AscendingItems(InsertItem(items, x))
    ensures forall y :: y in InsertItem(items, x) <==> y == x || y in items
    decreases |items|
  {
    var r := InsertItem(items, x);
    if items != [] {
      if Less(x.key, items[0].key) {
        forall i | 0 < i < |r|
          ensures Less(x.key, r[i].key)
        {
          if i > 1 {
            LessTransitive(x.key, items[0].key, items[i - 1].key);
          }
        }
      } else {
        TailMembers(items);
        InsertItemSorted(items[1..], x);
        var rest := InsertItem(items[1..], x);
        assert r[1..] == rest;
        LessTotal(x.key, items[0].key);
        forall y | y in rest
          ensures Less(items[0].key, y.key)
        {
          if y != x {
            FirstIsLeast(items, y);
          }
        }
        forall i, j | 0 <= i < j < |r|
          ensures Less(r[i].key, r[j].key)
        {
          assert r[j] == rest[j - 1];
        }
      }
    }
  }

  /** The listing of a range of a map. */
  ghost function ListingOf(m: Ledger, lo: Bytes, hi: Bytes): (items: seq<Item>)
    ensures Listing(items, m, lo, hi)
    decreases |m.Keys|
  {
    if m == map[] then []
    else
      var k :| k in m;
      var rest := ListingOf(m - {k}, lo, hi);
      InsertItemSorted(rest, Item(k, m[k]));
      if InRange(k, lo, hi) then InsertItem(rest, Item(k, m[k])) else rest
  }

  class Stub {
    var state: Ledger
    const txSeconds: int64

    constructor (state: Ledger, txSeconds: int64)
      ensures this.state == state && this.txSeconds == txSeconds
    {
      this.state := state;
      this.txSeconds := txSeconds;
    }

    method PutState(key: Bytes, value: Bytes)
      modifies this
      ensures state == old(state)[key := value]
    {
      state := state[key := value];
    }

    method DelState(key: Bytes)
      modifies this
      ensures state == old(state) - {key}
    {
      state := state - {key};
    }

    /** A scan: the pairs in the range, sorted by key. */
    method GetStateByRange(start: Bytes, end: Bytes) returns (items: seq<Item>)
      ensures Listing(items, state, start, end)
    {
      items := [];
      var todo := state.Keys;
      ghost var done: set<Bytes> := {};
      while todo != {}
        invariant done + todo == state.Keys && done !! todo
        invariant AscendingItems(items)
        invariant forall x :: x in items <==> x.key in done && state[x.key] == x.value && InRange(x.key, start, end)
        decreases |todo|
      {
        var k :| k in todo;
        if (start == [] || !Less(k, start)) && (end == [] || Less(k, end)) {
          InsertItemSorted(items, Item(k, state[k]));
          items := InsertItem(items, Item(k, state[k]));
        }
        todo, done := todo - {k}, done + {k};
      }
    }
  }
}
