/**
 `compat.DB`: a byte-keyed database kept on the ledger under hex keys, with iterators
 and batches. The ledger also holds keys that are not the database's.
 */
module LedgerDb {
  import opened Basics
  import opened Text
  import opened LedgerStub

  datatype DbError = KeyEmpty | ValueNil | BatchClosed

  // ---------------------------------------------------------------- the map it stands for

  /** A key that the database wrote: the hex form of some bytes. */
  predicate IsDbKey(s: Bytes) {
    UnHex(s).Some? && Hex(UnHex(s).value) == s
  }

  lemma DbKey(b: Bytes)
    ensures IsDbKey(Hex(b)) && UnHex(Hex(b)) == Some(b)
  {
    HexRoundTrip(b);
  }

  /** The byte-keyed map that a ledger holds. */
  ghost function DbView(state: Ledger): Ledger {
    map b | b in (set s | s in state && IsDbKey(s) :: HexBytes(s)) :: state[Hex(b)]
  }

  lemma ViewAt(state: Ledger, b: Bytes)
    ensures b in DbView(state) <==> Hex(b) in state
    ensures b in DbView(state) ==> DbView(state)[b] == state[Hex(b)]
  {
    hide Hex, UnHex;
    DbKey(b);
    if Hex(b) in state {
      assert HexBytes(Hex(b)) == b;
    }
  }

  /** Keys that are not the database's have what they had. */
  ghost predicate OthersKept(before: Ledger, after: Ledger) {
    forall s :: !IsDbKey(s) ==> Find(before, s) == Find(after, s)
  }

  lemma OthersKeptBy(before: Ledger, state: Ledger, b: Bytes, v: Bytes)
    requires OthersKept(before, state)
    ensures OthersKept(before, state[Hex(b) := v]) && OthersKept(before, state - {Hex(b)})
  {
    hide IsDbKey, Hex;
    DbKey(b);
  }

  lemma ViewPut(state: Ledger, b: Bytes, v: Bytes)
    ensures DbView(state[Hex(b) := v]) == DbView(state)[b := v]
  {
    hide DbView, Hex;
    var got, want := DbView(state[Hex(b) := v]), DbView(state)[b := v];
    forall c
      ensures c in got <==> c in want
      ensures c in want ==> got[c] == want[c]
    {
      ViewAt(state, c);
      ViewAt(state[Hex(b) := v], c);
      if Hex(c) == Hex(b) {
        HexInjective(c, b);
      }
    }
  }

  lemma ViewDelete(state: Ledger, b: Bytes)
    ensures DbView(state - {Hex(b)}) == DbView(state) - {b}
  {
    hide DbView, Hex;
    var got, want := DbView(state - {Hex(b)}), DbView(state) - {b};
    forall c
      ensures c in got <==> c in want
      ensures c in want ==> got[c] == want[c]
    {
      ViewAt(state, c);
      ViewAt(state - {Hex(b)}, c);
      if Hex(c) == Hex(b) {
        HexInjective(c, b);
      }
    }
  }

  // ---------------------------------------------------------------- iteration

  /** `Iterator.Key` and `Value`; None where `Key` panics. */
  function DecodeItem(x: Item): Option<Item> {
    match UnHex(x.key) case None => None case Some(b) => Some(Item(b, x.value))
  }

  /** What an iterator yields from first to last; None where it panics on the way. */
  function DecodeAll(items: seq<Item>): (r: Option<seq<Item>>)
    ensures r.None? <==> exists i :: 0 <= i < |items| && DecodeItem(items[i]).None?
    ensures r.Some? ==> |r.value| == |items|
    ensures r.Some? ==> forall i :: 0 <= i < |items| ==> DecodeItem(items[i]) == Some(r.value[i])
  {
    if items == [] then Some([])
    else
      var n := |items| - 1;
      match (DecodeAll(items[..n]), DecodeItem(items[n]))
      case (Some(xs), Some(x)) => Some(xs + [x])
      case (Some(xs), None) => assert DecodeItem(items[n]).None?; None
      case (None, _) =>
        assert exists i :: 0 <= i < n && DecodeItem(items[..n][i]).None?;
        None
  }

  lemma RangeOfHex(k: Bytes, lo: Bytes, hi: Bytes)
    ensures InRange(Hex(k), Hex(lo), Hex(hi)) <==> InRange(k, lo, hi)
  {
    HexOrder(k, lo);
    HexOrder(k, hi);
  }

  /**
   An iterator over a range in which the ledger has only database keys yields exactly
   the pairs of the byte-keyed map in that range, in ascending order of the bytes.
   */
  lemma IterationRefines(state: Ledger, items: seq<Item>, lo: Bytes, hi: Bytes)
    requires Listing(items, state, Hex(lo), Hex(hi))
    requires forall k :: k in state && InRange(k, Hex(lo), Hex(hi)) ==> IsDbKey(k)
    ensures DecodeAll(items).Some? && Listing(DecodeAll(items).value, DbView(state), lo, hi)
  {
    hide DbView, Hex, UnHex, InRange, Less;
    forall i | 0 <= i < |items|
      ensures IsDbKey(items[i].key)
    {
      assert Item(items[i].key, items[i].value) in items;
    }
    var r := DecodeAll(items).value;
    forall i, j | 0 <= i < j < |r|
      ensures Less(r[i].key, r[j].key)
    {
      HexOrder(r[i].key, r[j].key);
      assert DecodeItem(items[i]) == Some(r[i]) && DecodeItem(items[j]) == Some(r[j]);
      assert Less(items[i].key, items[j].key);
    }
    forall k, v
      ensures Item(k, v) in r <==> k in DbView(state) && DbView(state)[k] == v && InRange(k, lo, hi)
    {
      DecodedMembers(items, k, v);
      ViewAt(state, k);
      RangeOfHex(k, lo, hi);
      assert Item(Hex(k), v) in items <==> Hex(k) in state && state[Hex(k)] == v && InRange(Hex(k), Hex(lo), Hex(hi));
    }
  }

  lemma DecodedMembers(items: seq<Item>, k: Bytes, v: Bytes)
    requires DecodeAll(items).Some? && forall i :: 0 <= i < |items| ==> IsDbKey(items[i].key)
    ensures Item(k, v) in DecodeAll(items).value <==> Item(Hex(k), v) in items
  {
    hide Hex, UnHex, DecodeAll;
    var r := DecodeAll(items).value;
    if Item(k, v) in r {
      var i :| 0 <= i < |r| && r[i] == Item(k, v);
      assert DecodeItem(items[i]) == Some(r[i]) && IsDbKey(items[i].key);
      assert items[i] == Item(Hex(k), v);
    }
    if Item(Hex(k), v) in items {
      var i :| 0 <= i < |items| && items[i] == Item(Hex(k), v);
      DbKey(k);
      assert DecodeItem(items[i]) == Some(r[i]);
      assert r[i] == Item(k, v);
    }
  }

  /** An iterator panics on its way if and only if its range holds a key that does not decode. */
  lemma IterationPanics(state: Ledger, items: seq<Item>, lo: Bytes, hi: Bytes)
    requires Listing(items, state, lo, hi)
    ensures DecodeAll(items).None? <==> exists k :: k in state && InRange(k, lo, hi) && UnHex(k).None?
  {
    hide UnHex, InRange, Less, AscendingItems;
    if DecodeAll(items).None? {
      var i :| 0 <= i < |items| && DecodeItem(items[i]).None?;
      assert Item(items[i].key, items[i].value) in items;
    }
    if k :| k in state && InRange(k, lo, hi) && UnHex(k).None? {
      assert Item(k, state[k]) in items;
      var i :| 0 <= i < |items| && items[i] == Item(k, state[k]);
      assert DecodeItem(items[i]).None?;
    }
  }

  /** A key that holds anything but hex digits cannot be decoded: an iterator that meets it panics. */
  lemma {:induction false} UndecodableKey(s: Bytes, i: nat)
    requires i < |s| && HexValue(s[i]).None?
    ensures UnHex(s) == None
    decreases |s|
  {
    if i >= 2 {
      UndecodableKey(s[2..], i - 2);
    }
  }

  function Reversed<T>(s: seq<T>): (r: seq<T>)
    ensures |r| == |s|
    ensures forall i :: 0 <= i < |s| ==> r[i] == s[|s| - 1 - i]
  {
    seq(|s|, i requires 0 <= i < |s| => s[|s| - 1 - i])
  }

  /** The first and the last `i` elements swapped, the middle as it was. */
  function HalfReversed<T>(s: seq<T>, i: nat): (r: seq<T>)
    ensures |r| == |s|
    ensures forall k :: 0 <= k < |s| ==> r[k] == if i <= k < |s| - i then s[k] else s[|s| - 1 - k]
  {
    seq(|s|, k requires 0 <= k < |s| => if i <= k < |s| - i then s[k] else s[|s| - 1 - k])
  }

  /** `reverseAnySlice`: swaps from both ends towards the middle. */
  method ReverseSlice<T>(a: array<T>)
    modifies a
    ensures a[..] == Reversed(old(a[..]))
  {
    ghost var was := a[..];
    assert was == HalfReversed(was, 0);
    var i, j := 0, a.Length - 1;
    while i < j
      invariant 0 <= i && i + j == a.Length - 1 && -1 <= j
      invariant a[..] == HalfReversed(was, i)
    {
      a[i], a[j] := a[j], a[i];
      i, j := i + 1, j - 1;
    }
  }

  /** The ledger iterator: the current pair, and what the query iterator still holds. */
  class Iterator {
    var current: Option<Item>
    var query: seq<Item>

    /** The pairs not yet passed, the current one first. */
    function Remaining(): seq<Item>
      reads this
    {
      match current case None => [] case Some(x) => [x] + query
    }

    ghost predicate Valid()
      reads this
    {
      current.None? ==> query == []
    }

    constructor (items: seq<Item>)
      ensures Valid() && Remaining() == items
    {
      if items == [] {
        current, query := None, [];
      } else {
        current, query := Some(items[0]), items[1..];
      }
    }

    method Next()
      requires Valid()
      modifies this
      ensures Valid()
      ensures Remaining() == if old(Remaining()) == [] then [] else old(Remaining())[1..]
    {
      if query == [] {
        current := None;
        return;
      }
      current, query := Some(query[0]), query[1..];
    }
  }

  class DB {
    const stub: Stub

    constructor (stub: Stub)
      ensures this.stub == stub
    {
      this.stub := stub;
    }

    method Get(key: Bytes) returns (r: Result<Option<Bytes>, DbError>)
      ensures key == [] ==> r == Err(KeyEmpty)
      ensures key != [] ==> r == Ok(if key in DbView(stub.state) then Some(DbView(stub.state)[key]) else None)
    {
      if |key| == 0 {
        return Err(KeyEmpty);
      }
      ViewAt(stub.state, key);
      return Ok(if Hex(key) in stub.state then Some(stub.state[Hex(key)]) else None);
    }

    /** Nothing but this key of the byte-keyed map changes, and no other key of the ledger. */
    method Set(key: Bytes, value: Option<Bytes>) returns (r: Result<(), DbError>)
      modifies stub
      ensures r == if key == [] then Err(KeyEmpty) else if value.None? then Err(ValueNil) else Ok(())
      ensures r.Err? ==> stub.state == old(stub.state)
      ensures r.Ok? ==> stub.state == old(stub.state)[Hex(key) := value.value]
      ensures r.Ok? ==> DbView(stub.state) == DbView(old(stub.state))[key := value.value]
    {
      if |key| == 0 {
        return Err(KeyEmpty);
      }
      if value.None? {
        return Err(ValueNil);
      }
      ViewPut(stub.state, key, value.value);
      stub.PutState(Hex(key), value.value);
      return Ok(());
    }

    method Delete(key: Bytes) returns (r: Result<(), DbError>)
      modifies stub
      ensures r == if key == [] then Err(KeyEmpty) else Ok(())
      ensures r.Err? ==> stub.state == old(stub.state)
      ensures r.Ok? ==> stub.state == old(stub.state) - {Hex(key)}
      ensures r.Ok? ==> DbView(stub.state) == DbView(old(stub.state)) - {key}
    {
      if |key| == 0 {
        return Err(KeyEmpty);
      }
      ViewDelete(stub.state, key);
      stub.DelState(Hex(key));
      return Ok(());
    }

    /** `Iterator`: a nil bound is no bound; an empty one is an error. */
    method NewIterator(start: Option<Bytes>, end: Option<Bytes>) returns (r: Result<Iterator, DbError>)
      ensures r.Err? <==> start == Some([]) || end == Some([])
      ensures r.Ok? ==> fresh(r.value) && r.value.Valid()
                        && Listing(r.value.Remaining(), stub.state, Hex(Content(start)), Hex(Content(end)))
    {
      if start == Some([]) || end == Some([]) {
        return Err(KeyEmpty);
      }
      var items := stub.GetStateByRange(Hex(Content(start)), Hex(Content(end)));
      var iter := new Iterator(items);
      return Ok(iter);
    }

    /** The reversed list of what the forward iterator yields; None is a panic of `Key`. */
    method NewReverseIterator(start: Option<Bytes>, end: Option<Bytes>) returns (r: Result<Option<seq<Item>>, DbError>)
      ensures r.Err? <==> start == Some([]) || end == Some([])
      ensures r.Ok? ==> exists items :: Listing(items, stub.state, Hex(Content(start)), Hex(Content(end)))
      ensures r.Ok? ==> forall items :: Listing(items, stub.state, Hex(Content(start)), Hex(Content(end)))
                                        ==> r.value == ReversedIfSome(DecodeAll(items))
    {
      hide DecodeAll, ReversedIfSome, Hex, InRange, AscendingItems;
      var made := NewIterator(start, end);
      if made.Err? {
        return Err(made.error);
      }
      ghost var items := made.value.Remaining();
      var got := ReverseIterator(made.value);
      forall others | Listing(others, stub.state, Hex(Content(start)), Hex(Content(end)))
        ensures others == items
      {
        OneListing(others, items, stub.state, Hex(Content(start)), Hex(Content(end)));
      }
      return Ok(got);
    }
  }

  function ReversedIfSome(xs: Option<seq<Item>>): Option<seq<Item>> {
    match xs case None => None case Some(s) => Some(Reversed(s))
  }

  lemma DecodeAllPrefix(items: seq<Item>, n: nat)
    requires n < |items|
    ensures DecodeAll(items[..n + 1])
         == match (DecodeAll(items[..n]), DecodeItem(items[n]))
            case (Some(xs), Some(x)) => Some(xs + [x])
            case _ => None
    ensures DecodeAll(items[..n + 1]).None? ==> DecodeAll(items).None?
  {
    hide DecodeItem;
    assert items[..n + 1][..n] == items[..n];
    if DecodeAll(items[..n + 1]).None? {
      var i :| 0 <= i < n + 1 && DecodeItem(items[..n + 1][i]).None?;
      assert DecodeItem(items[i]).None?;
    }
  }

  /** Reads an iterator to its end. */
  method Drain(itr: Iterator) returns (r: Option<seq<Item>>)
    requires itr.Valid()
    modifies itr
    ensures r == DecodeAll(old(itr.Remaining()))
  {
    hide DecodeAll, DecodeItem;
    ghost var items := itr.Remaining();
    var got: seq<Item> := [];
    ghost var n := 0;
    NothingDecoded(items);
    while itr.current.Some?
      invariant itr.Valid() && n <= |items| && itr.Remaining() == items[n..]
      invariant DecodeAll(items[..n]) == Some(got)
      decreases |items| - n
    {
      DecodeAllPrefix(items, n);
      assert items[n..][0] == items[n] && items[n..][1..] == items[n + 1..];
      var x := DecodeItem(itr.current.value);
      if x.None? {
        return None;
      }
      got, n := got + [x.value], n + 1;
      itr.Next();
    }
    assert items[..n] == items;
    return Some(got);
  }

  lemma NothingDecoded(items: seq<Item>)
    ensures DecodeAll(items[..0]) == Some([])
  {}

  /** `ReverseIterator`: drains an iterator, then reverses what it got in place. */
  method ReverseIterator(itr: Iterator) returns (r: Option<seq<Item>>)
    requires itr.Valid()
    modifies itr
    ensures r == ReversedIfSome(DecodeAll(old(itr.Remaining())))
  {
    hide DecodeAll;
    var got := Drain(itr);
    if got.None? {
      return None;
    }
    var a := new Item[|got.value|](i requires 0 <= i < |got.value| => got.value[i]);
    assert a[..] == got.value;
    ReverseSlice(a);
    return Some(a[..]);
  }

  // ---------------------------------------------------------------- batches

  datatype Command = SetCommand(key: Bytes, value: Bytes) | DeleteCommand(key: Bytes)

  function Execute(m: Ledger, c: Command): Ledger {
    match c
    case SetCommand(k, v) => m[k := v]
    case DeleteCommand(k) => m - {k}
  }

  /** The commands one after the other, on the byte-keyed map. */
  function ExecuteAll(m: Ledger, cs: seq<Command>): Ledger {
    if cs == [] then m else Execute(ExecuteAll(m, cs[..|cs| - 1]), cs[|cs| - 1])
  }

  lemma ExecuteNext(m: Ledger, cs: seq<Command>, i: nat)
    requires i < |cs|
    ensures ExecuteAll(m, cs[..i + 1]) == match cs[i]
                                          case SetCommand(k, v) => ExecuteAll(m, cs[..i])[k := v]
                                          case DeleteCommand(k) => ExecuteAll(m, cs[..i]) - {k}
  {
    assert cs[..i + 1][..i] == cs[..i];
  }

  lemma Unchanged(state: Ledger)
    ensures OthersKept(state, state)
  {}

  class BatchDB {
    const db: DB
    var commands: seq<Command>
    var closed: bool

    /** Every command in a batch passed the validation that executing it repeats. */
    ghost predicate Valid()
      reads this
    {
      forall c :: c in commands ==> c.key != []
    }

    constructor (db: DB)
      ensures Valid() && this.db == db && commands == [] && !closed
    {
      this.db, commands, closed := db, [], false;
    }

    method Set(key: Bytes, value: Option<Bytes>) returns (r: Result<(), DbError>)
      requires Valid()
      modifies this
      ensures Valid() && closed == old(closed)
      ensures r == if closed then Err(BatchClosed) else if key == [] then Err(KeyEmpty)
                   else if value.None? then Err(ValueNil) else Ok(())
      ensures commands == if r.Ok? then old(commands) + [SetCommand(key, value.value)] else old(commands)
    {
      if closed {
        return Err(BatchClosed);
      }
      if |key| == 0 {
        return Err(KeyEmpty);
      }
      if value.None? {
        return Err(ValueNil);
      }
      commands := commands + [SetCommand(key, value.value)];
      return Ok(());
    }

    method Delete(key: Bytes) returns (r: Result<(), DbError>)
      requires Valid()
      modifies this
      ensures Valid() && closed == old(closed)
      ensures r == if closed then Err(BatchClosed) else if key == [] then Err(KeyEmpty) else Ok(())
      ensures commands == if r.Ok? then old(commands) + [DeleteCommand(key)] else old(commands)
    {
      if closed {
        return Err(BatchClosed);
      }
      if |key| == 0 {
        return Err(KeyEmpty);
      }
      commands := commands + [DeleteCommand(key)];
      return Ok(());
    }

    method Close()
      modifies this
      ensures closed && commands == old(commands)
    {
      closed := true;
    }

    /** `Write`: an open batch cannot fail partway; it leaves the commands executed in order, and is closed. */
    method Write() returns (r: Result<(), DbError>)
      requires Valid()
      modifies this, db.stub
      ensures Valid() && closed && commands == old(commands)
      ensures r == if old(closed) then Err(BatchClosed) else Ok(())
      ensures DbView(db.stub.state)
           == if old(closed) then DbView(old(db.stub.state)) else ExecuteAll(DbView(old(db.stub.state)), commands)
      ensures OthersKept(old(db.stub.state), db.stub.state)
    {
      hide IsDbKey, Hex, Execute, DbView, OthersKept;
      Unchanged(db.stub.state);
      if closed {
        return Err(BatchClosed);
      }
      ghost var before := DbView(db.stub.state);
      for i := 0 to |commands|
        invariant Valid() && commands == old(commands) && !closed
        invariant DbView(db.stub.state) == ExecuteAll(before, commands[..i])
        invariant OthersKept(old(db.stub.state), db.stub.state)
      {
        var c := commands[i];
        OthersKeptBy(old(db.stub.state), db.stub.state, c.key, if c.SetCommand? then c.value else []);
        ExecuteNext(before, commands, i);
        assert c in commands && commands[..i + 1][..i] == commands[..i];
        var failed: Result<(), DbError>;
        match c {
          case SetCommand(k, v) => failed := db.Set(k, Some(v));
          case DeleteCommand(k) => failed := db.Delete(k);
        }
        if failed.Err? {
          return failed;
        }
      }
      assert commands[..|commands|] == commands;
      closed := true;
      return Ok(());
    }
  }
}
