/**
 The chain side of the protocol: any interleaving of sequence updates, endorsements of
 sequence commitments and all other writes of the chaincode, and the history of
 sequences that the ledger keeps through it.
 */
module ChainHistory {
  import opened Basics
  import opened Messages
  import opened Codec
  import opened Text
  import opened LedgerStub
  import opened SequenceManager
  import K = Keys
  import L = LightClient

  datatype Event =
    | Advance(now: int64, tm: int64)        // UpdateSequence, with the clock and the transaction's timestamp
    | Endorse(height: Option<uint64>)       // EndorseSequenceCommitment, with or without an argument
    | Put(key: K.Key, value: Bytes)         // any other write
    | Delete(dbKey: Bytes)                  // a deletion through the database

  /** The ledger, and every write that any transaction's write set has held. */
  datatype Chain = Chain(ledger: Ledger, written: set<L.Write>)

  /** Writes that are not the sequence manager's or `EndorseSequenceCommitment`'s, with any identifiers. */
  predicate Foreign(k: K.Key) {
    !k.Current? && !k.SequenceAt? && !k.SequenceCommitment?
  }

  predicate Legal(e: Event) {
    e.Put? ==> Foreign(e.key)
  }

  function Logged(c: Chain, key: Bytes, value: Bytes): Chain {
    Chain(c.ledger[key := value], c.written + {L.Write(key, value)})
  }

  /** `EndorseSequenceCommitment`: the stored sequence of the given height, or the current one. */
  function SequenceToEndorse(ledger: Ledger, prefix: Bytes, height: Option<uint64>): Result<Sequence, SequenceError> {
    match height
    case None => GetCurrentSequence(ledger, prefix)
    case Some(n) => GetSequence(ledger, prefix, n)
  }

  function Step(cfg: CommitmentConfig, prefix: Bytes, c: Chain, e: Event): Chain {
    match e
    case Advance(now, tm) =>
      (match NextSequence(cfg, c.ledger, prefix, now, tm)
       case Err(_) => c
       case Ok(s) =>
         Logged(Logged(c, K.MakeCurrentSequenceKey(prefix), SequenceBytes(s)),
                K.MakeSequenceKey(prefix, s.value), SequenceBytes(s)))
    case Endorse(height) =>
      (match SequenceToEndorse(c.ledger, prefix, height)
       case Err(_) => c
       case Ok(s) => Logged(c, K.MakeSequenceCommitmentEntryKey(s.value), SequenceBytes(s)))
    case Put(k, v) => Logged(c, K.Render(prefix, k), v)
    case Delete(b) => Chain(c.ledger - {Hex(b)}, c.written + {L.Write(Hex(b), [])})
  }

  /** `UpdateSequence` of the chaincode, on the stub: the step `Advance` on the ledger, with the manager's clock. */
  method UpdateSequence(m: Manager, stub: Stub) returns (r: Result<Sequence, SequenceError>)
    modifies stub
    ensures stub.state == Step(m.config, m.prefix, Chain(old(stub.state), {}), Advance(m.clock, stub.txSeconds)).ledger
    ensures r == NextSequence(m.config, old(stub.state), m.prefix, m.clock, stub.txSeconds)
  {
    hide NextSequence;
    r := m.UpdateSequence(stub);
  }

  /** `EndorseSequenceCommitment` on the stub: the step `Endorse` on the ledger, and the entry it returns is what it wrote. */
  method EndorseSequenceCommitment(stub: Stub, ghost cfg: CommitmentConfig, prefix: Bytes, height: Option<uint64>)
    returns (r: Result<L.Write, SequenceError>)
    modifies stub
    ensures stub.state == Step(cfg, prefix, Chain(old(stub.state), {}), Endorse(height)).ledger
    ensures Step(cfg, prefix, Chain(old(stub.state), {}), Endorse(height)).written == if r.Ok? then {r.value} else {}
  {
    hide GetCurrentSequence, GetSequence;
    var s := SequenceToEndorse(stub.state, prefix, height);
    if s.Err? {
      return Err(s.error);
    }
    var entry := L.Write(K.MakeSequenceCommitmentEntryKey(s.value.value), SequenceBytes(s.value));
    stub.PutState(entry.key, entry.value);
    return Ok(entry);
  }

  /** The sequences so far; an accepted update appends one. */
  function Grow(cfg: CommitmentConfig, hist: seq<Sequence>, e: Event): (r: seq<Sequence>)
    requires hist != []
    ensures hist <= r && |r| <= |hist| + 1
  {
    var last := hist[|hist| - 1];
    if e.Advance? && ValidateTimestamp(cfg, e.now, last.timestamp, e.tm).None?
    then hist + [Sequence((last.value + 1) % TWO64, e.tm)]
    else hist
  }

  // ---------------------------------------------------------------- the invariant

  predicate Numbered(hist: seq<Sequence>) {
    0 < |hist| < TWO64 && forall i :: 0 <= i < |hist| ==> hist[i].value == i + 1
  }

  /** The ledger holds every height from 1 on under its own key, nothing beyond, and the last as the current one. */
  ghost predicate Stored(prefix: Bytes, ledger: Ledger, hist: seq<Sequence>) {
    hist != []
    && K.MakeCurrentSequenceKey(prefix) in ledger
    && ledger[K.MakeCurrentSequenceKey(prefix)] == SequenceBytes(hist[|hist| - 1])
    && forall n: uint64 :: if 1 <= n <= |hist|
                           then K.MakeSequenceKey(prefix, n) in ledger
                                && ledger[K.MakeSequenceKey(prefix, n)] == SequenceBytes(hist[n - 1])
                           else K.MakeSequenceKey(prefix, n) !in ledger
  }

  /** Whatever was ever written under the key of a sequence commitment is the sequence of that height. */
  ghost predicate Honest(written: set<L.Write>, hist: seq<Sequence>) {
    forall n: uint64, v :: L.Write(K.MakeSequenceCommitmentEntryKey(n), v) in written
                           ==> 1 <= n <= |hist| && v == SequenceBytes(hist[n - 1])
  }

  ghost predicate Inv(prefix: Bytes, c: Chain, hist: seq<Sequence>) {
    Numbered(hist) && Stored(prefix, c.ledger, hist) && Honest(c.written, hist)
  }

  /** The key of one thing is the key of nothing else. */
  lemma KeyIsOwn(prefix: Bytes, k: K.Key)
    ensures k != K.Current ==> K.Render(prefix, k) != K.MakeCurrentSequenceKey(prefix)
    ensures forall n: uint64 {:trigger K.MakeSequenceKey(prefix, n)} ::
              k != K.SequenceAt(n) ==> K.Render(prefix, k) != K.MakeSequenceKey(prefix, n)
    ensures forall n: uint64 {:trigger K.MakeSequenceCommitmentEntryKey(n)} ::
              k != K.SequenceCommitment(n) ==> K.Render(prefix, k) != K.MakeSequenceCommitmentEntryKey(n)
  {
    hide K.MakeCurrentSequenceKey, K.MakeSequenceKey, K.MakeSequenceCommitmentEntryKey;
    if K.Render(prefix, k) == K.Render(prefix, K.Current) {
      K.KeysNeverCollide(prefix, k, K.Current);
    }
    forall n: uint64 | k != K.SequenceAt(n)
      ensures K.Render(prefix, k) != K.MakeSequenceKey(prefix, n)
    {
      if K.Render(prefix, k) == K.Render(prefix, K.SequenceAt(n)) {
        K.KeysNeverCollide(prefix, k, K.SequenceAt(n));
      }
    }
    forall n: uint64 | k != K.SequenceCommitment(n)
      ensures K.Render(prefix, k) != K.MakeSequenceCommitmentEntryKey(n)
    {
      if K.Render(prefix, k) == K.Render(prefix, K.SequenceCommitment(n)) {
        K.KeysNeverCollide(prefix, k, K.SequenceCommitment(n));
      }
    }
  }

  /** A write under a foreign key, or its deletion, does not touch the invariant. */
  lemma ForeignKeeps(prefix: Bytes, c: Chain, hist: seq<Sequence>, k: K.Key, v: Bytes)
    requires Inv(prefix, c, hist) && Foreign(k)
    ensures Inv(prefix, Logged(c, K.Render(prefix, k), v), hist)
    ensures Inv(prefix, Chain(c.ledger - {K.Render(prefix, k)}, c.written + {L.Write(K.Render(prefix, k), v)}), hist)
  {
    hide K.Render, K.MakeCurrentSequenceKey, K.MakeSequenceKey, K.MakeSequenceCommitmentEntryKey, SequenceBytes;
    KeyIsOwn(prefix, k);
  }

  /** What the getters read back. */
  lemma ReadsBack(prefix: Bytes, c: Chain, hist: seq<Sequence>)
    requires Inv(prefix, c, hist)
    ensures GetCurrentSequence(c.ledger, prefix) == Ok(hist[|hist| - 1])
    ensures forall n: uint64 {:trigger GetSequence(c.ledger, prefix, n)} ::
              GetSequence(c.ledger, prefix, n) == if 1 <= n <= |hist| then Ok(hist[n - 1]) else Err(KeyNotFound)
  {
    hide K.MakeCurrentSequenceKey, K.MakeSequenceKey, SequenceBytes, DecodeSequence;
    SequenceRoundTrip(hist[|hist| - 1]);
    forall n: uint64
      ensures GetSequence(c.ledger, prefix, n) == if 1 <= n <= |hist| then Ok(hist[n - 1]) else Err(KeyNotFound)
    {
      if 1 <= n <= |hist| {
        SequenceRoundTrip(hist[n - 1]);
      }
    }
  }

  lemma EndorseKeeps(prefix: Bytes, c: Chain, hist: seq<Sequence>, n: uint64)
    requires Inv(prefix, c, hist) && 1 <= n <= |hist|
    ensures Inv(prefix, Logged(c, K.MakeSequenceCommitmentEntryKey(n), SequenceBytes(hist[n - 1])), hist)
  {
    hide K.MakeCurrentSequenceKey, K.MakeSequenceKey, K.MakeSequenceCommitmentEntryKey, SequenceBytes;
    KeyIsOwn(prefix, K.SequenceCommitment(n));
  }

  lemma AdvanceKeeps(prefix: Bytes, c: Chain, hist: seq<Sequence>, s: Sequence)
    requires Inv(prefix, c, hist) && Numbered(hist + [s])
    ensures Inv(prefix, Logged(Logged(c, K.MakeCurrentSequenceKey(prefix), SequenceBytes(s)),
                               K.MakeSequenceKey(prefix, s.value), SequenceBytes(s)), hist + [s])
  {
    hide K.MakeCurrentSequenceKey, K.MakeSequenceKey, K.MakeSequenceCommitmentEntryKey, SequenceBytes;
    KeyIsOwn(prefix, K.Current);
    KeyIsOwn(prefix, K.SequenceAt(s.value));
    assert (hist + [s])[|hist|] == s && s.value == |hist| + 1;
  }

  /** Every event keeps the invariant, and the history only grows, as long as the height does not wrap. */
  lemma StepKeeps(cfg: CommitmentConfig, prefix: Bytes, c: Chain, hist: seq<Sequence>, e: Event)
    requires Inv(prefix, c, hist) && Legal(e) && |Grow(cfg, hist, e)| < TWO64
    ensures Inv(prefix, Step(cfg, prefix, c, e), Grow(cfg, hist, e))
  {
    hide Inv, ValidateTimestamp, K.Render, K.MakeCurrentSequenceKey, K.MakeSequenceKey, K.MakeSequenceCommitmentEntryKey;
    hide SequenceBytes, GetCurrentSequence, GetSequence;
    ReadsBack(prefix, c, hist);
    InvNumbered(prefix, c, hist);
    var last := hist[|hist| - 1];
    match e {
      case Advance(now, tm) =>
        if ValidateTimestamp(cfg, now, last.timestamp, tm).None? {
          AdvanceKeeps(prefix, c, hist, Sequence((last.value + 1) % TWO64, tm));
        }
      case Endorse(height) =>
        match height {
          case None => EndorseKeeps(prefix, c, hist, last.value);
          case Some(n) =>
            if 1 <= n <= |hist| {
              EndorseKeeps(prefix, c, hist, n);
            }
        }
      case Put(k, v) =>
        ForeignKeeps(prefix, c, hist, k, v);
      case Delete(b) =>
        ForeignKeeps(prefix, c, hist, K.Database(b), []);
        assert K.Render(prefix, K.Database(b)) == Hex(b) by { K.DatabaseKey(prefix, b); }
    }
  }

  lemma InvNumbered(prefix: Bytes, c: Chain, hist: seq<Sequence>)
    requires Inv(prefix, c, hist)
    ensures Numbered(hist)
  {}

  // ---------------------------------------------------------------- spacing

  /** Positive timestamps, each at least one interval after the one before, with room for one more. */
  predicate Spaced(cfg: CommitmentConfig, hist: seq<Sequence>) {
    hist != []
    && (forall i :: 0 <= i < |hist| ==> hist[i].timestamp > 0 && hist[i].timestamp + Seconds(cfg.minTimeInterval) < TWO63)
    && forall i :: 0 <= i < |hist| - 1 ==> hist[i].timestamp + Seconds(cfg.minTimeInterval) <= hist[i + 1].timestamp
  }

  /** An update of the sequence is made with a sane clock. */
  predicate SaneClock(cfg: CommitmentConfig, e: Event) {
    e.Advance? ==> Sane(cfg, e.now)
  }

  lemma GrowSpaced(cfg: CommitmentConfig, hist: seq<Sequence>, e: Event)
    requires Spaced(cfg, hist) && SaneClock(cfg, e)
    ensures Spaced(cfg, Grow(cfg, hist, e))
  {
    hide Seconds;
    var last := hist[|hist| - 1];
    if e.Advance? && ValidateTimestamp(cfg, e.now, last.timestamp, e.tm).None? {
      AcceptedTimestamp(cfg, e.now, last.timestamp, e.tm);
      IntervalHolds(cfg, e.now, last.timestamp, e.tm);
    }
  }

  /** The number of heights is bounded by the time that passed, in intervals. */
  lemma {:induction false} RateBound(cfg: CommitmentConfig, hist: seq<Sequence>)
    requires Spaced(cfg, hist) && Seconds(cfg.minTimeInterval) >= 1
    ensures (|hist| - 1) * Seconds(cfg.minTimeInterval) <= hist[|hist| - 1].timestamp - hist[0].timestamp
    ensures |hist| < TWO63
    decreases |hist|
  {
    hide Seconds;
    if |hist| > 1 {
      var before := hist[..|hist| - 1];
      RateBound(cfg, before);
      assert before[|before| - 1] == hist[|hist| - 2];
      var m := Seconds(cfg.minTimeInterval);
      OneMore(|before| - 1, m);
    }
    AtLeastCount(|hist| - 1, Seconds(cfg.minTimeInterval));
  }

  lemma OneMore(n: nat, m: nat)
    ensures (n + 1) * m == n * m + m
  {}

  lemma AtLeastCount(n: nat, m: nat)
    requires m >= 1
    ensures n <= n * m
  {}

  // ---------------------------------------------------------------- runs

  function RunChain(cfg: CommitmentConfig, prefix: Bytes, c: Chain, es: seq<Event>): Chain {
    if es == [] then c
    else Step(cfg, prefix, RunChain(cfg, prefix, c, es[..|es| - 1]), es[|es| - 1])
  }

  function RunHistory(cfg: CommitmentConfig, hist: seq<Sequence>, es: seq<Event>): (r: seq<Sequence>)
    requires hist != []
    ensures r != []
  {
    if es == [] then hist
    else Grow(cfg, RunHistory(cfg, hist, es[..|es| - 1]), es[|es| - 1])
  }

  /** A chain on which no sequence has been stored or endorsed: what `InitChaincode` finds. */
  ghost predicate Clean(prefix: Bytes, c: Chain) {
    (forall n: uint64 :: K.MakeSequenceKey(prefix, n) !in c.ledger)
    && forall n: uint64, v :: L.Write(K.MakeSequenceCommitmentEntryKey(n), v) !in c.written
  }

  /** The chain right after `InitSequence`, called once, on a clean chain. */
  ghost predicate Initial(cfg: CommitmentConfig, prefix: Bytes, b: Chain, c: Chain, now: int64, tm: int64) {
    Clean(prefix, b) && FirstSequence(cfg, now, tm) == Ok(Sequence(1, tm))
    && c == Initialised(prefix, b, tm)
  }

  lemma InitialInv(cfg: CommitmentConfig, prefix: Bytes, b: Chain, c: Chain, now: int64, tm: int64)
    requires Initial(cfg, prefix, b, c, now, tm)
    ensures Inv(prefix, c, [Sequence(1, tm)])
  {
    hide K.MakeCurrentSequenceKey, K.MakeSequenceKey, K.MakeSequenceCommitmentEntryKey, SequenceBytes;
    KeyIsOwn(prefix, K.Current);
    KeyIsOwn(prefix, K.SequenceAt(1));
  }

  /** The two writes of an `InitSequence` that accepts the timestamp. */
  function Initialised(prefix: Bytes, c: Chain, tm: int64): Chain {
    Logged(Logged(c, K.MakeCurrentSequenceKey(prefix), SequenceBytes(Sequence(1, tm))),
           K.MakeSequenceKey(prefix, 1), SequenceBytes(Sequence(1, tm)))
  }

  /** `InitSequence` of the chaincode, on the stub; on a clean chain it is the initial step. */
  method InitSequence(m: Manager, stub: Stub) returns (r: Result<Sequence, SequenceError>)
    modifies stub
    ensures r == FirstSequence(m.config, m.clock, stub.txSeconds)
    ensures stub.state == if r.Ok? then Initialised(m.prefix, Chain(old(stub.state), {}), stub.txSeconds).ledger else old(stub.state)
    ensures r.Ok? && Clean(m.prefix, Chain(old(stub.state), {}))
            ==> Initial(m.config, m.prefix, Chain(old(stub.state), {}),
                        Initialised(m.prefix, Chain(old(stub.state), {}), stub.txSeconds), m.clock, stub.txSeconds)
  {
    r := m.InitSequence(stub);
  }

  /**
   Nothing guards against a second `InitSequence`: it leaves the history as it was if and only
   if that is the first height alone, with the same timestamp.
   */
  lemma SecondInit(prefix: Bytes, c: Chain, hist: seq<Sequence>, tm: int64)
    requires Inv(prefix, c, hist)
    ensures Inv(prefix, Initialised(prefix, c, tm), hist) <==> hist == [Sequence(1, tm)]
  {
    hide K.MakeCurrentSequenceKey, K.MakeSequenceKey, K.MakeSequenceCommitmentEntryKey, SequenceBytes;
    KeyIsOwn(prefix, K.Current);
    KeyIsOwn(prefix, K.SequenceAt(1));
    var last := hist[|hist| - 1];
    if SequenceBytes(last) == SequenceBytes(Sequence(1, tm)) {
      SequenceInjective(last, Sequence(1, tm));
    }
  }

  /**
   After any run, whatever the clocks, every height from 1 to the current one is stored with
   its own value, the current entry is the last of them, and no height that was ever stored
   has changed: the old history is a prefix of the new one. Only 2^64 heights would end this.
   */
  lemma {:induction false} HistoryKept(cfg: CommitmentConfig, prefix: Bytes, c: Chain, hist: seq<Sequence>, es: seq<Event>)
    requires hist != [] && Inv(prefix, c, hist) && |RunHistory(cfg, hist, es)| < TWO64
    requires forall e :: e in es ==> Legal(e)
    ensures Inv(prefix, RunChain(cfg, prefix, c, es), RunHistory(cfg, hist, es))
    ensures hist <= RunHistory(cfg, hist, es)
    decreases |es|
  {
    hide Inv, Step, Grow;
    if es != [] {
      var rest, e := es[..|es| - 1], es[|es| - 1];
      var mid, h := RunChain(cfg, prefix, c, rest), RunHistory(cfg, hist, rest);
      assert RunHistory(cfg, hist, es) == Grow(cfg, h, e);
      HistoryKept(cfg, prefix, c, hist, rest);
      StepKeeps(cfg, prefix, mid, h, e);
    }
  }

  /** With sane clocks the spacing is kept, so that the history never gets anywhere near 2^64 heights. */
  lemma {:induction false} SpacingKept(cfg: CommitmentConfig, hist: seq<Sequence>, es: seq<Event>)
    requires Spaced(cfg, hist) && Seconds(cfg.minTimeInterval) >= 1
    requires forall e :: e in es ==> SaneClock(cfg, e)
    ensures Spaced(cfg, RunHistory(cfg, hist, es)) && |RunHistory(cfg, hist, es)| < TWO63
    decreases |es|
  {
    hide Grow, Seconds;
    assert hist != [];
    hide Spaced;
    if es != [] {
      var rest, e := es[..|es| - 1], es[|es| - 1];
      SpacingKept(cfg, hist, rest);
      GrowSpaced(cfg, RunHistory(cfg, hist, rest), e);
    }
    RateBound(cfg, RunHistory(cfg, hist, es));
  }

  /** The last timestamp of a run is within the skew of the latest clock that was read. */
  lemma {:induction false} LastWithinClock(cfg: CommitmentConfig, hist: seq<Sequence>, es: seq<Event>, latest: int64)
    requires hist != [] && hist[|hist| - 1].timestamp <= latest + Seconds(cfg.maxTimestampDiff)
    requires forall e :: e in es ==> SaneClock(cfg, e) && (e.Advance? ==> e.now <= latest)
    ensures RunHistory(cfg, hist, es)[|RunHistory(cfg, hist, es)| - 1].timestamp <= latest + Seconds(cfg.maxTimestampDiff)
    decreases |es|
  {
    hide Seconds, ValidateTimestamp;
    if es != [] {
      LastWithinClock(cfg, hist, es[..|es| - 1], latest);
      var h, e := RunHistory(cfg, hist, es[..|es| - 1]), es[|es| - 1];
      if e.Advance? && ValidateTimestamp(cfg, e.now, h[|h| - 1].timestamp, e.tm).None? {
        AcceptedTimestamp(cfg, e.now, h[|h| - 1].timestamp, e.tm);
      }
    }
  }

  /**
   From initialisation with a positive timestamp on, through any run, history is complete and its length is
   bounded by the time from the first timestamp to the latest clock, in intervals.
   */
  lemma RunFromInit(cfg: CommitmentConfig, prefix: Bytes, b: Chain, c: Chain, now: int64, tm: int64, es: seq<Event>, latest: int64)
    requires Initial(cfg, prefix, b, c, now, tm) && Sane(cfg, now) && tm > 0 && now <= latest
    requires forall e :: e in es ==> Legal(e) && SaneClock(cfg, e) && (e.Advance? ==> e.now <= latest)
    ensures var hist := RunHistory(cfg, [Sequence(1, tm)], es);
            Inv(prefix, RunChain(cfg, prefix, c, es), hist) && Spaced(cfg, hist) && hist[0] == Sequence(1, tm)
            && (|hist| - 1) * Seconds(cfg.minTimeInterval) <= latest + Seconds(cfg.maxTimestampDiff) - tm
  {
    hide Inv, Spaced, Seconds, Initial;
    InitialInv(cfg, prefix, b, c, now, tm);
    FirstIsSane(cfg, prefix, b, c, now, tm);
    SpacingKept(cfg, [Sequence(1, tm)], es);
    HistoryKept(cfg, prefix, c, [Sequence(1, tm)], es);
    LastWithinClock(cfg, [Sequence(1, tm)], es, latest);
    RateBound(cfg, RunHistory(cfg, [Sequence(1, tm)], es));
  }

  lemma FirstIsSane(cfg: CommitmentConfig, prefix: Bytes, b: Chain, c: Chain, now: int64, tm: int64)
    requires Initial(cfg, prefix, b, c, now, tm) && Sane(cfg, now) && tm > 0
    ensures Spaced(cfg, [Sequence(1, tm)]) && tm <= now + Seconds(cfg.maxTimestampDiff)
  {
    AcceptedTimestamp(cfg, now, 0, tm);
  }
}
