/**
 Transaction execution: the ante handler and the messages run on nested cache overlays of
 the application's store, and only a transaction that succeeds as a whole is written back.
 */
module RunTx {
  import opened Basics
  import opened LedgerStub
  import opened Events

  // ---------------------------------------------------------------- overlays

  /** The dirty entries of a cache store; None marks a deletion. */
  type Layer = map<Bytes, Option<Bytes>>

  function Flush(m: Ledger, l: Layer): Ledger {
    map k | k in m.Keys + l.Keys && (k in l ==> l[k].Some?) :: if k in l then l[k].value else m[k]
  }

  lemma FindFlushed(m: Ledger, l: Layer, k: Bytes)
    ensures Find(Flush(m, l), k) == if k in l then l[k] else Find(m, k)
  {}

  lemma SameFinds(a: Ledger, b: Ledger)
    requires forall k :: Find(a, k) == Find(b, k)
    ensures a == b
  {
    forall k
      ensures k in a <==> k in b
      ensures k in a ==> a[k] == b[k]
    {
      assert Find(a, k) == Find(b, k);
    }
  }

  /** A read through two caches: the upper one, the lower one, then the store. */
  function Lookup(base: Ledger, lower: Layer, upper: Layer, k: Bytes): Option<Bytes> {
    if k in upper then upper[k]
    else if k in lower then lower[k]
    else Find(base, k)
  }

  /** What is seen through two caches. */
  function Seen(base: Ledger, lower: Layer, upper: Layer): Ledger {
    Flush(Flush(base, lower), upper)
  }

  lemma LookupSees(base: Ledger, lower: Layer, upper: Layer, k: Bytes)
    ensures Lookup(base, lower, upper, k) == Find(Seen(base, lower, upper), k)
  {
    hide Flush, Find;
    FindFlushed(base, lower, k);
    FindFlushed(Flush(base, lower), upper, k);
  }

  lemma FlushPut(m: Ledger, l: Layer, k: Bytes, v: Bytes)
    ensures Flush(m, l[k := Some(v)]) == Flush(m, l)[k := v]
  {
    var a, b := Flush(m, l[k := Some(v)]), Flush(m, l)[k := v];
    forall c
      ensures Find(a, c) == Find(b, c)
    {
      FindFlushed(m, l, c);
      FindFlushed(m, l[k := Some(v)], c);
    }
    SameFinds(a, b);
  }

  lemma FlushRemove(m: Ledger, l: Layer, k: Bytes)
    ensures Flush(m, l[k := None]) == Flush(m, l) - {k}
  {
    var a, b := Flush(m, l[k := None]), Flush(m, l) - {k};
    forall c
      ensures Find(a, c) == Find(b, c)
    {
      FindFlushed(m, l, c);
      FindFlushed(m, l[k := None], c);
    }
    SameFinds(a, b);
  }

  lemma FlushNothing(m: Ledger)
    ensures Flush(m, map[]) == m
  {}

  /** Writing the upper cache into the lower one does not change what is seen, nor what will be written. */
  lemma FlushNested(base: Ledger, lower: Layer, upper: Layer)
    ensures Flush(base, lower + upper) == Seen(base, lower, upper)
  {
    hide Flush, Find;
    var a, b := Flush(base, lower + upper), Seen(base, lower, upper);
    forall c
      ensures Find(a, c) == Find(b, c)
    {
      FindFlushed(base, lower + upper, c);
      LookupSees(base, lower, upper, c);
    }
    SameFinds(a, b);
  }

  /** The entries of a layer that have been written already. */
  function Written(l: Layer, todo: set<Bytes>): Layer {
    map k | k in l.Keys - todo :: l[k]
  }

  lemma WrittenStep(l: Layer, todo: set<Bytes>, k: Bytes)
    requires todo <= l.Keys && k in todo
    ensures Written(l, todo - {k}) == Written(l, todo)[k := l[k]]
  {}

  /** `CacheMultiStore.Write` into another cache, entry by entry in some order. */
  method WriteToCache(lower: Layer, upper: Layer) returns (r: Layer)
    ensures r == lower + upper
  {
    r := lower;
    var todo := upper.Keys;
    while todo != {}
      invariant todo <= upper.Keys
      invariant r == lower + Written(upper, todo)
      decreases |todo|
    {
      var k :| k in todo;
      WrittenStep(upper, todo, k);
      r := r[k := upper[k]];
      todo := todo - {k};
    }
    assert Written(upper, {}) == upper;
  }

  /** `CacheMultiStore.Write` into the store: a set or a delete for every dirty entry. */
  method WriteToStore(base: Ledger, cache: Layer) returns (r: Ledger)
    ensures r == Flush(base, cache)
  {
    hide Flush;
    r := base;
    var todo := cache.Keys;
    assert Written(cache, todo) == map[];
    FlushNothing(base);
    while todo != {}
      invariant todo <= cache.Keys
      invariant r == Flush(base, Written(cache, todo))
      decreases |todo|
    {
      var k :| k in todo;
      WrittenStep(cache, todo, k);
      match cache[k] {
        case Some(v) =>
          FlushPut(base, Written(cache, todo), k, v);
          r := r[k := v];
        case None =>
          FlushRemove(base, Written(cache, todo), k);
          r := r - {k};
      }
      todo := todo - {k};
    }
    assert Written(cache, {}) == cache;
  }

  // ---------------------------------------------------------------- handlers

  datatype Outcome<R> = Success(result: R) | Failure(error: Bytes) | Panic

  datatype Action = Get(key: Bytes) | Scan(start: Bytes, end: Bytes) | Put(key: Bytes, value: Bytes) | Remove(key: Bytes)

  datatype Reply = Value(value: Option<Bytes>) | Items(items: seq<Item>) | Done

  /** What each action so far returned. */
  type Replies = seq<Reply>

  /**
   Anything a handler can do with the store it is given: some number of reads, scans, writes
   and removals, each chosen from the replies so far, and an outcome that depends on all of them.
   */
  datatype Program<!R> = Program(steps: nat, act: Replies -> Action, ending: Replies -> Outcome<R>)

  /** One action on a plain map. */
  ghost function Perform(a: Action, m: Ledger): (Ledger, Reply) {
    match a
    case Get(k) => (m, Value(Find(m, k)))
    case Scan(lo, hi) => (m, Items(ListingOf(m, lo, hi)))
    case Put(k, v) => (m[k := v], Done)
    case Remove(k) => (m - {k}, Done)
  }

  /** What an action does to each key, and what it answers. */
  lemma PerformedAt(a: Action, m: Ledger, k: Bytes)
    ensures Find(Perform(a, m).0, k) == match a
                                        case Put(key, v) => if k == key then Some(v) else Find(m, k)
                                        case Remove(key) => if k == key then None else Find(m, k)
                                        case _ => Find(m, k)
    ensures a == Get(k) ==> Perform(a, m).1 == Value(Find(m, k))
    ensures a.Scan? ==> Perform(a, m).1.Items? && Listing(Perform(a, m).1.items, m, a.start, a.end)
  {}

  /** The handler on a plain map, from the replies so far. */
  ghost function Continue<R>(p: Program<R>, replies: Replies, m: Ledger): (Ledger, Outcome<R>)
    decreases p.steps - |replies|
  {
    if |replies| >= p.steps then (m, p.ending(replies))
    else
      var (m', reply) := Perform(p.act(replies), m);
      Continue(p, replies + [reply], m')
  }

  ghost function Direct<R>(p: Program<R>, m: Ledger): (Ledger, Outcome<R>) {
    Continue(p, [], m)
  }

  /** The items are what a scan finds among some keys. */
  ghost predicate Collected(items: seq<Item>, base: Ledger, lower: Layer, upper: Layer, lo: Bytes, hi: Bytes, done: set<Bytes>) {
    AscendingItems(items)
    && forall x :: x in items <==> x.key in done && Lookup(base, lower, upper, x.key) == Some(x.value) && InRange(x.key, lo, hi)
  }

  lemma CollectOne(items: seq<Item>, base: Ledger, lower: Layer, upper: Layer, lo: Bytes, hi: Bytes, done: set<Bytes>, k: Bytes)
    requires Collected(items, base, lower, upper, lo, hi, done) && k !in done
    ensures var v := Lookup(base, lower, upper, k);
            Collected(if v.Some? && InRange(k, lo, hi) then InsertItem(items, Item(k, v.value)) else items,
                      base, lower, upper, lo, hi, done + {k})
  {
    hide AscendingItems, InRange, Lookup, InsertItem;
    var v := Lookup(base, lower, upper, k);
    if v.Some? && InRange(k, lo, hi) {
      InsertItemSorted(items, Item(k, v.value));
    }
  }

  lemma NothingCollected(base: Ledger, lower: Layer, upper: Layer, lo: Bytes, hi: Bytes)
    ensures Collected([], base, lower, upper, lo, hi, {})
  {}

  lemma CollectedAll(items: seq<Item>, base: Ledger, lower: Layer, upper: Layer, lo: Bytes, hi: Bytes)
    requires Collected(items, base, lower, upper, lo, hi, base.Keys + lower.Keys + upper.Keys)
    ensures Listing(items, Seen(base, lower, upper), lo, hi)
  {
    hide AscendingItems, InRange, Seen;
    forall k, v
      ensures Item(k, v) in items <==> k in Seen(base, lower, upper) && Seen(base, lower, upper)[k] == v && InRange(k, lo, hi)
    {
      LookupSees(base, lower, upper, k);
    }
  }

  /** A scan through two caches: each key of any layer, if it is in the range and not removed above. */
  method ScanCached(base: Ledger, lower: Layer, upper: Layer, lo: Bytes, hi: Bytes) returns (items: seq<Item>)
    ensures Listing(items, Seen(base, lower, upper), lo, hi)
  {
    hide Collected, Listing, Lookup, InRange, Seen, InsertItem;
    items := [];
    var todo := base.Keys + lower.Keys + upper.Keys;
    ghost var all, done: set<Bytes> := todo, {};
    NothingCollected(base, lower, upper, lo, hi);
    while todo != {}
      invariant done + todo == all && done !! todo
      invariant Collected(items, base, lower, upper, lo, hi, done)
      decreases |todo|
    {
      var k :| k in todo;
      CollectOne(items, base, lower, upper, lo, hi, done, k);
      var v := Lookup(base, lower, upper, k);
      if v.Some? && InRange(k, lo, hi) {
        items := InsertItem(items, Item(k, v.value));
      }
      todo, done := todo - {k}, done + {k};
    }
    assert done == all;
    CollectedAll(items, base, lower, upper, lo, hi);
  }

  /** A handler that writes and then reads what it wrote, or anything else, is answered with what is there by then. */
  lemma ReadsOwnWrites(m: Ledger, k: Bytes, v: Bytes, other: Bytes)
    ensures var p := Program(2, replies => if |replies| == 0 then Put(k, v) else Get(other), replies => Success(replies));
            Direct(p, m) == (m[k := v], Success([Done, Value(if other == k then Some(v) else Find(m, other))]))
  {
    var p: Program<Replies> := Program(2, replies => if |replies| == 0 then Put(k, v) else Get(other), replies => Success(replies));
    assert [] + [Done] == [Done];
    assert Continue(p, [Done], m[k := v]) == Continue(p, [Done] + [Value(Find(m[k := v], other))], m[k := v]);
    assert [Done] + [Value(Find(m[k := v], other))] == [Done, Value(Find(m[k := v], other))];
  }

  /** One action on two caches over the store: only the upper one is written. */
  method PerformCached(a: Action, base: Ledger, lower: Layer, upper: Layer) returns (upper': Layer, reply: Reply)
    ensures (Seen(base, lower, upper'), reply) == Perform(a, Seen(base, lower, upper))
  {
    hide Flush, Find, Listing;
    match a {
      case Get(k) =>
        LookupSees(base, lower, upper, k);
        return upper, Value(Lookup(base, lower, upper, k));
      case Scan(lo, hi) =>
        var items := ScanCached(base, lower, upper, lo, hi);
        OneListing(items, ListingOf(Seen(base, lower, upper), lo, hi), Seen(base, lower, upper), lo, hi);
        return upper, Items(items);
      case Put(k, v) =>
        FlushPut(Flush(base, lower), upper, k, v);
        return upper[k := Some(v)], Done;
      case Remove(k) =>
        FlushRemove(Flush(base, lower), upper, k);
        return upper[k := None], Done;
    }
  }

  /** The handler on two caches over the store does what it does on the map that it sees. */
  method Execute<R>(p: Program<R>, base: Ledger, lower: Layer, start: Layer) returns (upper: Layer, o: Outcome<R>)
    ensures (Seen(base, lower, upper), o) == Direct(p, Seen(base, lower, start))
  {
    hide Seen, Perform;
    upper := start;
    var replies := [];
    while |replies| < p.steps
      invariant Continue(p, replies, Seen(base, lower, upper)) == Direct(p, Seen(base, lower, start))
      decreases p.steps - |replies|
    {
      var upper', reply := PerformCached(p.act(replies), base, lower, upper);
      upper, replies := upper', replies + [reply];
    }
    o := p.ending(replies);
  }

  // ---------------------------------------------------------------- transactions

  datatype MsgResult = MsgResult(data: Bytes, log: Bytes, events: seq<Event>)

  /** The context that an ante handler returns, if not a zero one, with the events of its event manager. */
  datatype AnteResult<C> = AnteResult(context: Option<C>, events: seq<Event>)

  type Handler<!C> = C -> Program<MsgResult>

  /** Where a message goes: to a message service, to a legacy route that may have no handler, or nowhere. */
  datatype Route<!C> =
    | Service(name: Bytes, handler: Handler<C>)
    | Legacy(name: Bytes, route: Option<Handler<C>>)
    | Unroutable

  /** The application as configured: message validation, routing and an optional ante handler. */
  datatype Config<!C, !M> = Config(
    validateBasic: M -> Option<Bytes>,
    typeURL: M -> Bytes,
    route: M -> Route<C>,
    ante: Option<(C, seq<M>) -> Program<AnteResult<C>>>)

  datatype MsgData = MsgData(msgType: Bytes, data: Bytes)

  datatype MsgLog = MsgLog(index: nat, log: Bytes, events: seq<Event>)

  datatype TxResult = TxResult(data: seq<MsgData>, logs: seq<MsgLog>, events: seq<Event>)

  function ActionEvent(name: Bytes): Event {
    Event(Ascii("message"), [Attribute(Ascii("action"), name)])
  }

  function AddResult(r: TxResult, i: nat, msgType: Bytes, name: Bytes, x: MsgResult): TxResult {
    var events := [ActionEvent(name)] + x.events;
    TxResult(r.data + [MsgData(msgType, x.data)], r.logs + [MsgLog(i, x.log, events)], r.events + events)
  }

  /** The handler of a message, and the name its action event carries. */
  function Handling<C, M>(cfg: Config<C, M>, msg: M): Option<(Bytes, Handler<C>)> {
    match cfg.route(msg)
    case Service(name, h) => Some((name, h))
    case Legacy(name, Some(h)) => Some((name, h))
    case Legacy(_, None) => None
    case Unroutable => None
  }

  const UNKNOWN_REQUEST: Bytes := Ascii("unknown request")

  /** The messages one after the other on a plain map, stopping at the first that does not succeed. */
  ghost function Messages<C, M>(cfg: Config<C, M>, ctx: C, msgs: seq<M>, m: Ledger): (Ledger, Outcome<TxResult>) {
    if msgs == [] then (m, Success(TxResult([], [], [])))
    else
      var i := |msgs| - 1;
      var (m1, before) := Messages(cfg, ctx, msgs[..i], m);
      match before
      case Success(r) => Message(cfg, ctx, i, msgs[i], m1, r)
      case o => (m1, o)
  }

  ghost function Message<C, M>(cfg: Config<C, M>, ctx: C, i: nat, msg: M, m: Ledger, r: TxResult): (Ledger, Outcome<TxResult>) {
    match Handling(cfg, msg)
    case None => (m, Failure(UNKNOWN_REQUEST))
    case Some((name, h)) =>
      var (m', o) := Direct(h(ctx), m);
      (m', match o
           case Success(x) => Success(AddResult(r, i, cfg.typeURL(msg), name, x))
           case Failure(e) => Failure(e)
           case Panic => Panic)
  }

  /** The first complaint about the messages: there must be one, and each must be valid on its own. */
  function Complaint<C, M>(cfg: Config<C, M>, msgs: seq<M>): Option<Bytes> {
    if msgs == [] then Some(Ascii("invalid request")) else FirstInvalid(cfg, msgs)
  }

  function FirstInvalid<C, M>(cfg: Config<C, M>, msgs: seq<M>): Option<Bytes> {
    if msgs == [] then None
    else if cfg.validateBasic(msgs[0]).Some? then cfg.validateBasic(msgs[0])
    else FirstInvalid(cfg, msgs[1..])
  }

  /** There is no complaint exactly when there are messages and all are valid; otherwise it is that of the first invalid one. */
  lemma {:induction false} FirstInvalidExactly<C, M>(cfg: Config<C, M>, msgs: seq<M>)
    ensures FirstInvalid(cfg, msgs).None? <==> forall i :: 0 <= i < |msgs| ==> cfg.validateBasic(msgs[i]).None?
    ensures forall i :: 0 <= i < |msgs| && cfg.validateBasic(msgs[i]).Some? && (forall j :: 0 <= j < i ==> cfg.validateBasic(msgs[j]).None?)
                        ==> FirstInvalid(cfg, msgs) == cfg.validateBasic(msgs[i])
    decreases |msgs|
  {
    if msgs != [] {
      var rest := msgs[1..];
      FirstInvalidExactly(cfg, rest);
      assert forall i :: 0 < i < |msgs| ==> msgs[i] == rest[i - 1];
      assert forall i :: 0 <= i < |rest| ==> rest[i] == msgs[i + 1];
    }
  }

  method ValidateBasicTxMsgs<C, M>(cfg: Config<C, M>, msgs: seq<M>) returns (r: Option<Bytes>)
    ensures r == Complaint(cfg, msgs)
    ensures msgs == [] ==> r == Some(Ascii("invalid request"))
    ensures r.None? <==> msgs != [] && forall i :: 0 <= i < |msgs| ==> cfg.validateBasic(msgs[i]).None?
    ensures forall i :: 0 <= i < |msgs| && cfg.validateBasic(msgs[i]).Some? && (forall j :: 0 <= j < i ==> cfg.validateBasic(msgs[j]).None?)
                        ==> r == cfg.validateBasic(msgs[i])
  {
    FirstInvalidExactly(cfg, msgs);
    if |msgs| == 0 {
      return Some(Ascii("invalid request"));
    }
    for i := 0 to |msgs|
      invariant FirstInvalid(cfg, msgs) == FirstInvalid(cfg, msgs[i..])
    {
      var err := cfg.validateBasic(msgs[i]);
      if err.Some? {
        return err;
      }
    }
    return None;
  }

  /** `runMsgs`, on two caches over the store. */
  method RunMsgs<C, M>(cfg: Config<C, M>, ctx: C, msgs: seq<M>, base: Ledger, lower: Layer, start: Layer)
    returns (upper: Layer, o: Outcome<TxResult>)
    ensures o.Success? ==> (Seen(base, lower, upper), o) == Messages(cfg, ctx, msgs, Seen(base, lower, start))
    ensures !o.Success? ==> o == Messages(cfg, ctx, msgs, Seen(base, lower, start)).1
  {
    hide Seen, Direct, AddResult;
    upper := start;
    var r := TxResult([], [], []);
    ghost var m := Seen(base, lower, start);
    for i := 0 to |msgs|
      invariant (Seen(base, lower, upper), Success(r)) == Messages(cfg, ctx, msgs[..i], m)
    {
      MessagesPrefix(cfg, ctx, msgs, i, m);
      var handling := Handling(cfg, msgs[i]);
      if handling.None? {
        return upper, Failure(UNKNOWN_REQUEST);
      }
      var (name, h) := handling.value;
      var result;
      upper, result := Execute(h(ctx), base, lower, upper);
      match result {
        case Success(x) => r := AddResult(r, i, cfg.typeURL(msgs[i]), name, x);
        case Failure(e) => return upper, Failure(e);
        case Panic => return upper, Panic;
      }
    }
    assert msgs[..|msgs|] == msgs;
    o := Success(r);
  }

  /** One message alone: its route, its handler on the map, and the result with its action event, or its own error. */
  lemma OneMessage<C, M>(cfg: Config<C, M>, ctx: C, msg: M, m: Ledger, name: Bytes, h: Handler<C>)
    requires cfg.route(msg) == Service(name, h) || cfg.route(msg) == Legacy(name, Some(h))
    ensures match Direct(h(ctx), m)
            case (m', Success(x)) =>
              var events := [Event(Ascii("message"), [Attribute(Ascii("action"), name)])] + x.events;
              Messages(cfg, ctx, [msg], m)
              == (m', Success(TxResult([MsgData(cfg.typeURL(msg), x.data)], [MsgLog(0, x.log, events)], events)))
            case (m', Failure(e)) => Messages(cfg, ctx, [msg], m) == (m', Failure(e))
            case (m', Panic) => Messages(cfg, ctx, [msg], m) == (m', Panic)
  {
    hide Direct;
    assert [msg][..0] == [];
    match Direct(h(ctx), m).1 {
      case Success(x) =>
        var events := [ActionEvent(name)] + x.events;
        assert AddResult(TxResult([], [], []), 0, cfg.typeURL(msg), name, x)
            == TxResult([MsgData(cfg.typeURL(msg), x.data)], [MsgLog(0, x.log, events)], events);
      case _ =>
    }
  }

  lemma NoRoute<C, M>(cfg: Config<C, M>, ctx: C, msg: M, m: Ledger)
    requires cfg.route(msg).Unroutable? || (cfg.route(msg).Legacy? && cfg.route(msg).route.None?)
    ensures Messages(cfg, ctx, [msg], m) == (m, Failure(UNKNOWN_REQUEST))
  {
    assert [msg][..0] == [];
  }

  /** A success has one piece of data and one log for each message, with its type and its number. */
  lemma {:induction false} ResultShape<C, M>(cfg: Config<C, M>, ctx: C, msgs: seq<M>, m: Ledger)
    requires Messages(cfg, ctx, msgs, m).1.Success?
    ensures var r := Messages(cfg, ctx, msgs, m).1.result;
            |r.data| == |r.logs| == |msgs|
            && forall i :: 0 <= i < |msgs| ==> r.data[i].msgType == cfg.typeURL(msgs[i]) && r.logs[i].index == i
    decreases |msgs|
  {
    hide Direct;
    if msgs != [] {
      ResultShape(cfg, ctx, msgs[..|msgs| - 1], m);
    }
  }

  /** The messages up to and with one more; once they do not succeed, the rest is not reached. */
  lemma {:induction false} MessagesPrefix<C, M>(cfg: Config<C, M>, ctx: C, msgs: seq<M>, i: nat, m: Ledger)
    requires i < |msgs| && Messages(cfg, ctx, msgs[..i], m).1.Success?
    ensures var (m1, before) := Messages(cfg, ctx, msgs[..i], m);
            Messages(cfg, ctx, msgs[..i + 1], m) == Message(cfg, ctx, i, msgs[i], m1, before.result)
    ensures !Messages(cfg, ctx, msgs[..i + 1], m).1.Success?
            ==> Messages(cfg, ctx, msgs, m) == Messages(cfg, ctx, msgs[..i + 1], m)
  {
    hide Message;
    assert msgs[..i + 1][..i] == msgs[..i];
    if !Messages(cfg, ctx, msgs[..i + 1], m).1.Success? {
      StopsThere(cfg, ctx, msgs, i + 1, m);
    }
  }

  lemma {:induction false} StopsThere<C, M>(cfg: Config<C, M>, ctx: C, msgs: seq<M>, n: nat, m: Ledger)
    requires n <= |msgs| && !Messages(cfg, ctx, msgs[..n], m).1.Success?
    ensures Messages(cfg, ctx, msgs, m) == Messages(cfg, ctx, msgs[..n], m)
    decreases |msgs|
  {
    if n == |msgs| {
      assert msgs[..n] == msgs;
    } else {
      var i := |msgs| - 1;
      assert msgs[..i][..n] == msgs[..n];
      StopsThere(cfg, ctx, msgs[..i], n, m);
    }
  }

  /** A result with another one's data and events behind its own. */
  predicate Follows(r: TxResult, first: TxResult, second: TxResult) {
    r.events == first.events + second.events && r.data == first.data + second.data
  }

  /** The outcome of a whole, from a first stretch that succeeded and the outcome of the second. */
  predicate Joined(o: Outcome<TxResult>, first: TxResult, second: Outcome<TxResult>) {
    match (o, second)
    case (Success(r), Success(s)) => Follows(r, first, s)
    case _ => o == second && !o.Success?
  }

  lemma MessageJoins<C, M>(cfg: Config<C, M>, ctx: C, i: nat, j: nat, msg: M, m: Ledger, r: TxResult, first: TxResult, s: TxResult)
    requires Follows(r, first, s)
    ensures Message(cfg, ctx, i, msg, m, r).0 == Message(cfg, ctx, j, msg, m, s).0
    ensures Joined(Message(cfg, ctx, i, msg, m, r).1, first, Message(cfg, ctx, j, msg, m, s).1)
  {
    hide Direct;
  }

  /**
   Messages run in two stretches: the second starts from what the first left, their data and
   events follow one another, and the whole fails exactly as the second does.
   */
  lemma {:induction false} MessagesConcat<C, M>(cfg: Config<C, M>, ctx: C, a: seq<M>, b: seq<M>, m: Ledger, m1: Ledger, first: TxResult)
    requires Messages(cfg, ctx, a, m) == (m1, Success(first))
    ensures Messages(cfg, ctx, a + b, m).0 == Messages(cfg, ctx, b, m1).0
    ensures Joined(Messages(cfg, ctx, a + b, m).1, first, Messages(cfg, ctx, b, m1).1)
    decreases |b|
  {
    hide Message, Follows;
    if b == [] {
      assert a + b == a;
      assert Follows(first, first, TxResult([], [], [])) by {
        ResultUnit(first);
      }
    } else {
      var i := |b| - 1;
      MessagesConcat(cfg, ctx, a, b[..i], m, m1, first);
      assert (a + b)[..|a| + i] == a + b[..i] && (a + b)[|a| + i] == b[i];
      var (m2, o) := Messages(cfg, ctx, a + b[..i], m);
      var second := Messages(cfg, ctx, b[..i], m1).1;
      if o.Success? {
        MessageJoins(cfg, ctx, |a| + i, i, b[i], m2, o.result, first, second.result);
      }
    }
  }

  lemma ResultUnit(r: TxResult)
    ensures Follows(r, r, TxResult([], [], []))
  {}

  /** The whole transaction on a plain map: the ante handler, then every message, or nothing at all. */
  ghost function Transaction<C, M>(cfg: Config<C, M>, ctx: C, tx: Result<seq<M>, Bytes>, m: Ledger): (Ledger, Outcome<TxResult>) {
    match tx
    case Err(e) => (m, Failure(e))
    case Ok(msgs) =>
      match Complaint(cfg, msgs)
      case Some(e) => (m, Failure(e))
      case None =>
        match cfg.ante
        case None => Delivered(cfg, ctx, msgs, [], m, m)
        case Some(ante) =>
          var (m1, o) := Direct(ante(ctx, msgs), m);
          match o
          case Failure(e) => (m, Failure(e))
          case Panic => (m, Panic)
          case Success(a) =>
            match a.context
            case None => Delivered(cfg, ctx, msgs, [], m1, m)
            case Some(c) => Delivered(cfg, c, msgs, a.events, m1, m)
  }

  /** The messages from a map, with the events before them; another map is kept if they do not succeed. */
  ghost function Delivered<C, M>(cfg: Config<C, M>, ctx: C, msgs: seq<M>, events: seq<Event>, m: Ledger, kept: Ledger)
    : (Ledger, Outcome<TxResult>)
  {
    match Messages(cfg, ctx, msgs, m)
    case (m', Success(r)) => (m', Success(r.(events := events + r.events)))
    case (_, o) => (kept, o)
  }

  /** What the messages make of a transaction that got as far as them: their map and result, or the old map and their error. */
  predicate Concluded(before: seq<Event>, messages: (Ledger, Outcome<TxResult>), kept: Ledger, m': Ledger, o: Outcome<TxResult>) {
    match messages.1
    case Success(r) => m' == messages.0 && o == Success(TxResult(r.data, r.logs, before + r.events))
    case Failure(e) => m' == kept && o == Failure(e)
    case Panic => m' == kept && o == Panic
  }

  /**
   What becomes of a transaction that decodes and whose messages are valid. They run on what the
   ante handler left, in the context it returned if any, with its events first; a failure of
   either is reported as itself, with nothing changed.
   */
  ghost predicate Ran<C, M>(cfg: Config<C, M>, ctx: C, msgs: seq<M>, m: Ledger, m': Ledger, o: Outcome<TxResult>) {
    if cfg.ante.None? then Concluded([], Messages(cfg, ctx, msgs, m), m, m', o)
    else
      var (m1, ante) := Direct(cfg.ante.value(ctx, msgs), m);
      match ante
      case Failure(e) => m' == m && o == Failure(e)
      case Panic => m' == m && o == Panic
      case Success(a) =>
        if a.context.None? then Concluded([], Messages(cfg, ctx, msgs, m1), m, m', o)
        else Concluded(a.events, Messages(cfg, a.context.value, msgs, m1), m, m', o)
  }

  lemma TransactionExactly<C, M>(cfg: Config<C, M>, ctx: C, tx: Result<seq<M>, Bytes>, m: Ledger)
    ensures var (m', o) := Transaction(cfg, ctx, tx, m);
            if tx.Err? then m' == m && o == Failure(tx.error)
            else if Complaint(cfg, tx.value).Some? then m' == m && o == Failure(Complaint(cfg, tx.value).value)
            else Ran(cfg, ctx, tx.value, m, m', o)
  {
    hide Messages, Direct, Complaint;
  }

  class BaseApp<!C, !M> {
    const cfg: Config<C, M>
    var store: Ledger

    constructor (cfg: Config<C, M>, store: Ledger)
      ensures this.cfg == cfg && this.store == store
    {
      this.cfg, this.store := cfg, store;
    }

    /** `RunTx`: on nested overlays it does what the transaction does on a plain map. */
    method RunTx(ctx0: C, tx: Result<seq<M>, Bytes>) returns (o: Outcome<TxResult>)
      modifies this
      ensures (store, o) == Transaction(cfg, ctx0, tx, old(store))
      ensures tx.Err? ==> o == Failure(tx.error)
      ensures tx.Ok? && Complaint(cfg, tx.value).Some? ==> o == Failure(Complaint(cfg, tx.value).value)
      ensures tx.Ok? && Complaint(cfg, tx.value).None? ==> Ran(cfg, ctx0, tx.value, old(store), store, o)
      ensures !o.Success? ==> store == old(store)
    {
      hide Seen, Messages, Direct;
      TransactionExactly(cfg, ctx0, tx, store);
      if tx.Err? {
        return Failure(tx.error);
      }
      var ms: Layer := map[];
      var ctx := ctx0;
      var msgs := tx.value;
      var complaint := ValidateBasicTxMsgs(cfg, msgs);
      if complaint.Some? {
        return Failure(complaint.value);
      }
      var events: seq<Event> := [];
      SeenNothing(store);
      if cfg.ante.Some? {
        var msCache, result := Execute(cfg.ante.value(ctx, msgs), store, ms, map[]);
        if result.Failure? {
          return Failure(result.error);
        }
        if result.Panic? {
          return Panic;
        }
        if result.result.context.Some? {
          ctx, events := result.result.context.value, result.result.events;
        }
        FlushNested(store, ms, msCache);
        ms := WriteToCache(ms, msCache);
      }
      SeenThroughEmpty(store, ms);
      var msCache, result := RunMsgs(cfg, ctx, msgs, store, ms, map[]);
      if !result.Success? {
        return result;
      }
      FlushNested(store, ms, msCache);
      ms := WriteToCache(ms, msCache);
      store := WriteToStore(store, ms);
      o := result;
      assert [] + result.result.events == result.result.events;
      if |events| > 0 {
        o := Success(result.result.(events := events + result.result.events));
      }
    }
  }

  lemma SeenNothing(m: Ledger)
    ensures Seen(m, map[], map[]) == m
  {
    FlushNothing(m);
  }

  lemma SeenThroughEmpty(m: Ledger, l: Layer)
    ensures Seen(m, l, map[]) == Flush(m, l)
  {
    FlushNothing(Flush(m, l));
  }
}
