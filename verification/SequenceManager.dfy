/**
 The on-chain sequence manager: a height and a timestamp that advance together, each
 stored under a "current" key and under a key of its own height.
 */
module SequenceManager {
  import opened Basics
  import opened Messages
  import opened Codec
  import opened Keys
  import opened LedgerStub

  /** Durations in nanoseconds, as `time.Duration`. */
  datatype CommitmentConfig = CommitmentConfig(minTimeInterval: int64, maxTimestampDiff: int64)

  const DEFAULT_CONFIG := CommitmentConfig(5_000_000_000, 30_000_000_000)

  datatype SequenceError = FutureTime | PastTime | TooSoon | KeyNotFound | Malformed

  /** `int64(d / time.Second)`: Go's division truncates toward zero. */
  function Seconds(d: int64): (s: int64)
    ensures -9_300_000_000 < s < 9_300_000_000
  {
    var n: int := d;
    if d >= 0 then d / 1_000_000_000 else -((-n) / 1_000_000_000)
  }

  /** `ValidateTimestamp`, with the wrap-around of int64 sums; None is acceptance. */
  function ValidateTimestamp(cfg: CommitmentConfig, now: int64, prev: int64, next: int64): Option<SequenceError> {
    var diff, interval := Seconds(cfg.maxTimestampDiff), Seconds(cfg.minTimeInterval);
    if WrapInt64(now + diff) < next then Some(FutureTime)
    else if WrapInt64(now - diff) > next then Some(PastTime)
    else if prev > 0 && WrapInt64(prev + interval) > next then Some(TooSoon)
    else None
  }

  function ReadSequence(ledger: Ledger, key: Bytes): Result<Sequence, SequenceError> {
    if key !in ledger then Err(KeyNotFound)
    else
      match DecodeSequence(ledger[key])
      case Err(_) => Err(Malformed)
      case Ok(s) => Ok(s)
  }

  function GetCurrentSequence(ledger: Ledger, prefix: Bytes): Result<Sequence, SequenceError> {
    ReadSequence(ledger, MakeCurrentSequenceKey(prefix))
  }

  function GetSequence(ledger: Ledger, prefix: Bytes, n: uint64): Result<Sequence, SequenceError> {
    ReadSequence(ledger, MakeSequenceKey(prefix, n))
  }

  /** `updateSequence`: the two writes. */
  function PutSequence(ledger: Ledger, prefix: Bytes, s: Sequence): Ledger {
    var current: Ledger := ledger[MakeCurrentSequenceKey(prefix) := SequenceBytes(s)];
    current[MakeSequenceKey(prefix, s.value) := SequenceBytes(s)]
  }

  /** The sequence that `InitSequence` writes, or the error it returns. */
  function FirstSequence(cfg: CommitmentConfig, now: int64, tm: int64): Result<Sequence, SequenceError> {
    match ValidateTimestamp(cfg, now, 0, tm)
    case Some(e) => Err(e)
    case None => Ok(Sequence(1, tm))
  }

  /** The sequence that `UpdateSequence` writes, or the error it returns; the height wraps at 2^64. */
  function NextSequence(cfg: CommitmentConfig, ledger: Ledger, prefix: Bytes, now: int64, tm: int64): Result<Sequence, SequenceError> {
    match GetCurrentSequence(ledger, prefix)
    case Err(e) => Err(e)
    case Ok(current) =>
      match ValidateTimestamp(cfg, now, current.timestamp, tm)
      case Some(e) => Err(e)
      case None => Ok(Sequence((current.value + 1) % TWO64, tm))
  }

  class Manager {
    const config: CommitmentConfig
    const prefix: Bytes
    var clock: int64

    constructor (config: CommitmentConfig, prefix: Bytes, clock: int64)
      ensures this.config == config && this.prefix == prefix && this.clock == clock
    {
      this.config, this.prefix, this.clock := config, prefix, clock;
    }

    method SetClock(now: int64)
      modifies this
      ensures clock == now
    {
      clock := now;
    }

    method StoreBoth(stub: Stub, next: Sequence)
      modifies stub
      ensures stub.state == PutSequence(old(stub.state), prefix, next)
    {
      stub.PutState(MakeCurrentSequenceKey(prefix), SequenceBytes(next));
      stub.PutState(MakeSequenceKey(prefix, next.value), SequenceBytes(next));
    }

    /** `InitSequence`: it does not ask whether there is a sequence already. */
    method InitSequence(stub: Stub) returns (r: Result<Sequence, SequenceError>)
      modifies stub
      ensures r == FirstSequence(config, clock, stub.txSeconds)
      ensures stub.state == if r.Ok? then PutSequence(old(stub.state), prefix, r.value) else old(stub.state)
    {
      var bad := ValidateTimestamp(config, clock, 0, stub.txSeconds);
      if bad.Some? {
        return Err(bad.value);
      }
      var s := Sequence(1, stub.txSeconds);
      StoreBoth(stub, s);
      return Ok(s);
    }

    /** `UpdateSequence`: one height up, or an error and nothing written. */
    method UpdateSequence(stub: Stub) returns (r: Result<Sequence, SequenceError>)
      modifies stub
      ensures r == NextSequence(config, old(stub.state), prefix, clock, stub.txSeconds)
      ensures stub.state == if r.Ok? then PutSequence(old(stub.state), prefix, r.value) else old(stub.state)
    {
      var current := GetCurrentSequence(stub.state, prefix);
      if current.Err? {
        return Err(current.error);
      }
      var bad := ValidateTimestamp(config, clock, current.value.timestamp, stub.txSeconds);
      if bad.Some? {
        return Err(bad.value);
      }
      var next := Sequence((current.value.value + 1) % TWO64, stub.txSeconds);
      StoreBoth(stub, next);
      return Ok(next);
    }
  }

  // ---------------------------------------------------------------- timestamps

  /** An interval of at least a second, no negative skew, and a clock so far from the end of time that no sum wraps. */
  predicate Sane(cfg: CommitmentConfig, now: int64) {
    var diff, interval := Seconds(cfg.maxTimestampDiff), Seconds(cfg.minTimeInterval);
    diff >= 0 && interval >= 1 && now + diff + interval < TWO63
  }

  /** With such a clock an accepted timestamp is at most the skew ahead, and leaves room for the interval. */
  lemma AcceptedTimestamp(cfg: CommitmentConfig, now: int64, prev: int64, next: int64)
    requires Sane(cfg, now) && ValidateTimestamp(cfg, now, prev, next).None?
    ensures next <= now + Seconds(cfg.maxTimestampDiff)
    ensures next + Seconds(cfg.minTimeInterval) < TWO63
  {
    hide Seconds;
  }

  /** Whole seconds of a duration, rounded toward zero. */
  lemma SecondsExactly(k: int, r: int)
    requires 0 <= k && 0 <= r < 1_000_000_000 && k * 1_000_000_000 + r < TWO63
    ensures Seconds(k * 1_000_000_000 + r) == k && Seconds(-(k * 1_000_000_000 + r)) == -k
  {}

  /** By default an interval of five seconds and a skew of thirty. */
  lemma DefaultSeconds()
    ensures Seconds(DEFAULT_CONFIG.minTimeInterval) == 5 && Seconds(DEFAULT_CONFIG.maxTimestampDiff) == 30
  {
    SecondsExactly(5, 0);
    SecondsExactly(30, 0);
  }

  /** An int64 that a sum wraps to. */
  predicate WrapsTo(x: int, w: int64) {
    (x - w) % TWO64 == 0
  }

  lemma WrapsToOne(x: int, w: int64)
    requires WrapsTo(x, w)
    ensures w == WrapInt64(x)
  {}

  /**
   Which timestamps are refused, and as what, for all inputs: with `hi`, `lo` and `soonest`
   what the clock plus the skew, the clock less the skew, and the previous timestamp plus the
   interval wrap to as int64.
   */
  lemma TimestampVerdict(cfg: CommitmentConfig, now: int64, prev: int64, next: int64, hi: int64, lo: int64, soonest: int64)
    requires WrapsTo(now + Seconds(cfg.maxTimestampDiff), hi) && WrapsTo(now - Seconds(cfg.maxTimestampDiff), lo)
    requires WrapsTo(prev + Seconds(cfg.minTimeInterval), soonest)
    ensures ValidateTimestamp(cfg, now, prev, next) == Some(FutureTime) <==> next > hi
    ensures ValidateTimestamp(cfg, now, prev, next) == Some(PastTime) <==> next < lo && next <= hi
    ensures ValidateTimestamp(cfg, now, prev, next) == Some(TooSoon) <==> lo <= next <= hi && prev > 0 && next < soonest
    ensures ValidateTimestamp(cfg, now, prev, next).None? <==> lo <= next <= hi && (prev > 0 ==> next >= soonest)
  {
    hide Seconds, WrapInt64;
    WrapsToOne(now + Seconds(cfg.maxTimestampDiff), hi);
    WrapsToOne(now - Seconds(cfg.maxTimestampDiff), lo);
    WrapsToOne(prev + Seconds(cfg.minTimeInterval), soonest);
  }

  /** Where no sum wraps: a timestamp is accepted exactly inside the skew window, and an interval after a positive one. */
  lemma AcceptedWindow(cfg: CommitmentConfig, now: int64, prev: int64, next: int64)
    requires var diff, interval := Seconds(cfg.maxTimestampDiff), Seconds(cfg.minTimeInterval);
             -TWO63 <= now + diff < TWO63 && -TWO63 <= now - diff < TWO63 && -TWO63 <= prev + interval < TWO63
    ensures ValidateTimestamp(cfg, now, prev, next).None?
       <==> now - Seconds(cfg.maxTimestampDiff) <= next <= now + Seconds(cfg.maxTimestampDiff)
            && (prev > 0 ==> next >= prev + Seconds(cfg.minTimeInterval))
  {
    hide Seconds, ValidateTimestamp;
    var diff, interval := Seconds(cfg.maxTimestampDiff), Seconds(cfg.minTimeInterval);
    TimestampVerdict(cfg, now, prev, next, now + diff, now - diff, prev + interval);
  }

  lemma WrapFits(x: int)
    requires -TWO63 <= x < TWO63
    ensures WrapInt64(x) == x
  {}

  lemma WrapOver(x: int)
    requires TWO63 <= x < TWO63 + TWO63
    ensures WrapInt64(x) == x - TWO64
  {}

  lemma IntervalHolds(cfg: CommitmentConfig, now: int64, prev: int64, next: int64)
    requires prev > 0 && 1 <= Seconds(cfg.minTimeInterval) < TWO63 - prev
    requires ValidateTimestamp(cfg, now, prev, next).None?
    ensures next >= prev + Seconds(cfg.minTimeInterval)
  {
    hide Seconds, WrapInt64;
    WrapFits(prev + Seconds(cfg.minTimeInterval));
  }

  /** Before the epoch, or when the sum wraps, the previous timestamp itself is accepted again with some clock. */
  lemma IntervalMissed(cfg: CommitmentConfig, prev: int64) returns (now: int64)
    requires Seconds(cfg.minTimeInterval) >= 1 && Seconds(cfg.maxTimestampDiff) >= 0
    requires prev <= 0 || prev + Seconds(cfg.minTimeInterval) >= TWO63
    ensures ValidateTimestamp(cfg, now, prev, prev).None?
  {
    hide Seconds, WrapInt64;
    var diff, interval := Seconds(cfg.maxTimestampDiff), Seconds(cfg.minTimeInterval);
    if prev <= 0 {
      now := prev + diff;
      WrapFits(now + diff);
    } else {
      now := prev - diff;
      WrapOver(prev + interval);
      WrapFits(now + diff);
    }
    WrapFits(now - diff);
  }

  /**
   When the interval is enforced: an accepted timestamp is at least one interval after
   the previous one, whatever the clock says, exactly when the previous one is positive
   and the sum does not wrap.
   */
  lemma IntervalEnforced(cfg: CommitmentConfig, prev: int64)
    requires Seconds(cfg.minTimeInterval) >= 1 && Seconds(cfg.maxTimestampDiff) >= 0
    ensures (forall now: int64, next: int64 :: ValidateTimestamp(cfg, now, prev, next).None?
                                               ==> next >= prev + Seconds(cfg.minTimeInterval))
        <==> prev > 0 && prev + Seconds(cfg.minTimeInterval) < TWO63
  {
    hide Seconds, ValidateTimestamp;
    if prev > 0 && prev + Seconds(cfg.minTimeInterval) < TWO63 {
      forall now: int64, next: int64 | ValidateTimestamp(cfg, now, prev, next).None?
        ensures next >= prev + Seconds(cfg.minTimeInterval)
      {
        IntervalHolds(cfg, now, prev, next);
      }
    } else {
      var now := IntervalMissed(cfg, prev);
    }
  }

  /** Under the same condition, and no other, every accepted timestamp is later than the previous one. */
  lemma TimesAscendExactly(cfg: CommitmentConfig, prev: int64)
    requires Seconds(cfg.minTimeInterval) >= 1 && Seconds(cfg.maxTimestampDiff) >= 0
    ensures (forall now: int64, next: int64 :: ValidateTimestamp(cfg, now, prev, next).None? ==> next > prev)
        <==> prev > 0 && prev + Seconds(cfg.minTimeInterval) < TWO63
  {
    hide Seconds, ValidateTimestamp;
    if prev > 0 && prev + Seconds(cfg.minTimeInterval) < TWO63 {
      forall now: int64, next: int64 | ValidateTimestamp(cfg, now, prev, next).None?
        ensures next > prev
      {
        IntervalHolds(cfg, now, prev, next);
      }
    } else {
      var now := IntervalMissed(cfg, prev);
    }
  }
}
