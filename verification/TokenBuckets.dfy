/** Token buckets: refilling by wrapping tick numbers without overflow, and what may be moved over a whole run. */
module TokenBuckets {
  import opened Bytes

  const RATE_LIMIT_MAX: nat := SSIZE_MAX

  /** struct ev_token_bucket_cfg; a tick is given in milliseconds. */
  datatype Cfg = Cfg(readRate: nat, readMaximum: nat, writeRate: nat, writeMaximum: nat, msecPerTick: nat) {
    predicate Ok() {
      1 <= readRate <= readMaximum <= RATE_LIMIT_MAX && 1 <= writeRate <= writeMaximum <= RATE_LIMIT_MAX
    }

    function Rate(write: bool): nat {
      if write then writeRate else readRate
    }

    function Maximum(write: bool): nat {
      if write then writeMaximum else readMaximum
    }
  }

  /** struct timeval */
  datatype Time = Time(sec: nat, usec: nat)

  /** ev_token_bucket_cfg_new */
  function CfgNew(readRate: nat, readBurst: nat, writeRate: nat, writeBurst: nat,
      tickLen: Option<Time>): (r: Option<Cfg>)
    ensures r.Some? <==> 1 <= readRate <= readBurst <= RATE_LIMIT_MAX && 1 <= writeRate <= writeBurst <= RATE_LIMIT_MAX
    ensures r.Some? ==> r.value.Ok()
  {
    var t := if tickLen.Some? then tickLen.value else Time(1, 0);
    if readRate > readBurst || writeRate > writeBurst || readRate < 1 || writeRate < 1 then None
    else if readRate > RATE_LIMIT_MAX || writeRate > RATE_LIMIT_MAX then None
    else if readBurst > RATE_LIMIT_MAX || writeBurst > RATE_LIMIT_MAX then None
    else Some(Cfg(readRate, readBurst, writeRate, writeBurst, (t.sec * 1000 + t.usec % 0x100000 / 1000) % TWO32))
  }

  /** The length of a tick is kept in 32 bits. It comes out as zero, and ticks cannot be counted, exactly when the
      milliseconds are a multiple of 2^32; for ticks shorter than that, exactly when the tick is shorter than a
      millisecond. */
  lemma CfgTicks(readRate: nat, readBurst: nat, writeRate: nat, writeBurst: nat, t: Time)
    requires CfgNew(readRate, readBurst, writeRate, writeBurst, Some(t)).Some? && t.usec < 1000000
    ensures var msec := CfgNew(readRate, readBurst, writeRate, writeBurst, Some(t)).value.msecPerTick;
            && (msec == 0 <==> exists k: nat :: t.sec * 1000 + t.usec / 1000 == k * TWO32)
            && (t.sec * 1000 + t.usec / 1000 < TWO32 ==> (msec == 0 <==> t.sec == 0 && t.usec < 1000))
  {
    assert t.usec % 0x100000 == t.usec;
    Multiple(t.sec * 1000 + t.usec / 1000);
  }

  lemma Multiple(n: nat)
    ensures n % TWO32 == 0 <==> exists k: nat :: n == k * TWO32
    ensures n < TWO32 ==> n % TWO32 == n
  {
    if n % TWO32 == 0 {
      assert n == n / TWO32 * TWO32;
    }
  }

  /** So it is for a tick of half a millisecond, and for one of 4294967.296 seconds. */
  lemma CfgNoTicks()
    ensures CfgNew(1, 1, 1, 1, Some(Time(0, 500))) == Some(Cfg(1, 1, 1, 1, 0))
    ensures CfgNew(1, 1, 1, 1, Some(Time(4294967, 296000))) == Some(Cfg(1, 1, 1, 1, 0))
  {
    assert 500 % 0x100000 / 1000 == 0 && 296000 % 0x100000 / 1000 == 296;
  }

  // ---- tick numbers ----

  /** Milliseconds in 64-bit arithmetic */
  function Msec(t: Time): nat {
    (t.sec * 1000 % TWO64 + t.usec / 1000) % TWO64
  }

  /** ev_token_bucket_get_tick_ */
  function GetTick(t: Time, cfg: Cfg): nat
    requires cfg.msecPerTick > 0
  {
    Msec(t) / cfg.msecPerTick % TWO32
  }

  lemma TickFits(t: Time, cfg: Cfg)
    requires cfg.msecPerTick > 0
    ensures GetTick(t, cfg) < TWO32
  {
    hide Msec;
  }

  /** The unsigned difference of two tick numbers */
  function TicksSince(tick: nat, last: nat): nat {
    (tick - last) % TWO32
  }

  lemma WrappedDifference(a: int, b: int)
    ensures (a % TWO32 - b % TWO32) % TWO32 == (a - b) % TWO32
  {
    var k := a / TWO32 - b / TWO32;
    assert a - b == (a % TWO32 - b % TWO32) + TWO32 * k;
  }

  /** Tick numbers wrap, and yet their difference is the number of tick boundaries passed, modulo 2^32. */
  lemma TickDifference(t: Time, t': Time, cfg: Cfg)
    requires cfg.msecPerTick > 0
    ensures TicksSince(GetTick(t', cfg), GetTick(t, cfg)) ==
        (Msec(t') / cfg.msecPerTick - Msec(t) / cfg.msecPerTick) % TWO32
  {
    WrappedDifference(Msec(t') / cfg.msecPerTick, Msec(t) / cfg.msecPerTick);
  }

  // ---- one refill ----

  function Min(a: int, b: int): int {
    if a < b then a else b
  }

  /** One direction of ev_token_bucket_update_, in the arithmetic of size_t and ssize_t */
  function Refilled(limit: int, maximum: nat, rate: nat, ticks: nat): int
    requires ticks > 0
  {
    if (maximum - limit) % TWO64 / ticks < rate then maximum
    else ToSsize(limit + ticks * rate % TWO64)
  }

  lemma DivisionBelow(d: nat, n: nat, r: nat)
    requires n > 0
    ensures d / n < r <==> d < n * r
  {
    var q := d / n;
    assert d == n * q + d % n;
    if q < r {
      assert n * (q + 1) <= n * r;
    } else {
      assert n * r <= n * q;
    }
  }

  /** A limit with so much credit, as the code adds it up */
  function Topped(limit: int, maximum: nat, credit: nat): int {
    if credit > (maximum - limit) % TWO64 then maximum else ToSsize(limit + credit % TWO64)
  }

  lemma RefilledCases(limit: int, maximum: nat, rate: nat, ticks: nat)
    requires ticks > 0
    ensures ticks * rate >= 0 && Refilled(limit, maximum, rate, ticks) == Topped(limit, maximum, ticks * rate)
  {
    DivisionBelow((maximum - limit) % TWO64, ticks, rate);
    Times(ticks, 0, rate);
    hide ToSsize;
  }

  /** A limit at most the maximum refills without overflow. A limit above it, which only a refund can cause, is treated
      right exactly when the refill reaches the distance to the maximum modulo 2^64. */
  lemma RefillExact(limit: int, maximum: nat, rate: nat, ticks: nat)
    requires SSIZE_MIN <= limit <= SSIZE_MAX && rate <= maximum <= RATE_LIMIT_MAX && 0 < ticks <= INT_MAX
    ensures Refilled(limit, maximum, rate, ticks) == Min(maximum, limit + ticks * rate)
            <==> limit <= maximum || ticks * rate >= TWO64 + maximum - limit
  {
    RefilledCases(limit, maximum, rate, ticks);
    ToppedExact(limit, maximum, ticks * rate);
  }

  lemma ToppedExact(limit: int, maximum: nat, credit: nat)
    requires SSIZE_MIN <= limit <= SSIZE_MAX && maximum <= RATE_LIMIT_MAX
    ensures Topped(limit, maximum, credit) == Min(maximum, limit + credit)
            <==> limit <= maximum || credit >= TWO64 + maximum - limit
  {
    var d := (maximum - limit) % TWO64;
    if limit <= maximum {
      assert d == maximum - limit;
      if credit <= d {
        assert credit % TWO64 == credit;
      }
    } else {
      assert d == TWO64 + maximum - limit;
      hide ToSsize;
      if credit <= d {
        AboveMaximum(limit, maximum, credit);
      }
    }
  }

  /** A limit of 10 above a maximum of 5 is not cut to it. */
  lemma RefillAbove()
    ensures Refilled(10, 5, 1, 1) == 11 && Min(5, 10 + 1 * 1) == 5
  {
    assert (5 - 10) % TWO64 == TWO64 - 5;
  }

  lemma AboveMaximum(limit: int, maximum: nat, credit: nat)
    requires maximum < limit <= SSIZE_MAX && maximum <= RATE_LIMIT_MAX && credit <= TWO64 + maximum - limit
    ensures ToSsize(limit + credit % TWO64) == maximum <==> credit == TWO64 + maximum - limit
  {
    assert credit % TWO64 == credit;
    if limit + credit >= TWO64 {
      assert (limit + credit) % TWO64 == limit + credit - TWO64;
    }
  }

  // ---- the bucket ----

  datatype Bucket = Bucket(readLimit: int, writeLimit: int, lastUpdated: nat) {
    function Limit(write: bool): int {
      if write then writeLimit else readLimit
    }

    /** Both limits are what ssize_t can hold. */
    predicate Held() {
      SSIZE_MIN <= readLimit <= SSIZE_MAX && SSIZE_MIN <= writeLimit <= SSIZE_MAX && lastUpdated < TWO32
    }

    /** Both limits are what ssize_t can hold and at most the maximum. */
    predicate Within(cfg: Cfg) {
      SSIZE_MIN <= readLimit <= cfg.readMaximum && SSIZE_MIN <= writeLimit <= cfg.writeMaximum && lastUpdated < TWO32
    }
  }

  /** What an update must do: credit the ticks passed, up to the maximum; no tick or a step back changes nothing. */
  function Updated(b: Bucket, cfg: Cfg, tick: nat): Bucket {
    var n := TicksSince(tick, b.lastUpdated);
    if n == 0 || n > INT_MAX then b
    else Bucket(Min(cfg.readMaximum, b.readLimit + n * cfg.readRate),
        Min(cfg.writeMaximum, b.writeLimit + n * cfg.writeRate), tick)
  }

  /** What an update does to any limits: the same, but for limits above the maximum. */
  function Refreshed(b: Bucket, cfg: Cfg, tick: nat): Bucket {
    var n := TicksSince(tick, b.lastUpdated);
    if n == 0 || n > INT_MAX then b
    else Bucket(Refilled(b.readLimit, cfg.readMaximum, cfg.readRate, n),
        Refilled(b.writeLimit, cfg.writeMaximum, cfg.writeRate, n), tick)
  }

  /** A limit above the maximum to which an update adds so much that it comes out at zero or below */
  predicate Overrun(b: Bucket, cfg: Cfg, write: bool, tick: nat) {
    var n := TicksSince(tick, b.lastUpdated);
    0 < n <= INT_MAX && OverrunBy(b.Limit(write), cfg.Maximum(write), Credits(n, cfg.Rate(write)))
  }

  function Credits(ticks: nat, rate: nat): int {
    ticks * rate
  }

  predicate OverrunBy(limit: int, maximum: nat, credit: int) {
    limit > maximum && SSIZE_MAX < limit + credit <= TWO64
  }

  /** An update does what it must to limits within the maximum. A limit above zero is lost exactly when it overruns. */
  lemma RefreshedIs(b: Bucket, cfg: Cfg, tick: nat)
    requires cfg.Ok() && b.Held() && tick < TWO32
    ensures Refreshed(b, cfg, tick).Held() && (tick == b.lastUpdated ==> Refreshed(b, cfg, tick) == b)
    ensures b.Within(cfg) ==> Refreshed(b, cfg, tick) == Updated(b, cfg, tick) && Refreshed(b, cfg, tick).Within(cfg)
    ensures b.readLimit > 0 ==> (Refreshed(b, cfg, tick).readLimit <= 0 <==> Overrun(b, cfg, false, tick))
    ensures b.writeLimit > 0 ==> (Refreshed(b, cfg, tick).writeLimit <= 0 <==> Overrun(b, cfg, true, tick))
    ensures b.readLimit <= cfg.readMaximum ==>
        !Overrun(b, cfg, false, tick) && Refreshed(b, cfg, tick).readLimit >= b.readLimit
    ensures b.writeLimit <= cfg.writeMaximum ==>
        !Overrun(b, cfg, true, tick) && Refreshed(b, cfg, tick).writeLimit >= b.writeLimit
  {
    if b.Within(cfg) {
      RefreshedWithin(b, cfg, tick);
    }
    RefreshedTick(b, cfg, tick);
    RefreshedSide(b, cfg, false, tick);
    RefreshedSide(b, cfg, true, tick);
    hide Refreshed, Updated, Overrun;
  }

  lemma RefreshedTick(b: Bucket, cfg: Cfg, tick: nat)
    requires b.Held() && tick < TWO32
    ensures Refreshed(b, cfg, tick).lastUpdated < TWO32 && (tick == b.lastUpdated ==> Refreshed(b, cfg, tick) == b)
  {
    hide Refilled;
  }

  lemma RefreshedSide(b: Bucket, cfg: Cfg, w: bool, tick: nat)
    requires cfg.Ok() && b.Held()
    ensures var r := Refreshed(b, cfg, tick).Limit(w);
            && SSIZE_MIN <= r <= SSIZE_MAX
            && (b.Limit(w) > 0 ==> (r <= 0 <==> Overrun(b, cfg, w, tick)))
            && (b.Limit(w) <= cfg.Maximum(w) ==> !Overrun(b, cfg, w, tick) && r >= b.Limit(w))
  {
    var n := TicksSince(tick, b.lastUpdated);
    hide TicksSince, Refilled, OverrunBy, Credits;
    if 0 < n <= INT_MAX {
      RefillSide(b.Limit(w), cfg.Maximum(w), cfg.Rate(w), n);
    }
  }

  lemma RefreshedWithin(b: Bucket, cfg: Cfg, tick: nat)
    requires cfg.Ok() && b.Within(cfg) && tick < TWO32
    ensures Refreshed(b, cfg, tick) == Updated(b, cfg, tick) && Refreshed(b, cfg, tick).Within(cfg)
  {
    var n := TicksSince(tick, b.lastUpdated);
    UpdatedWithin(b, cfg, tick);
    hide TicksSince, Refilled;
    if 0 < n <= INT_MAX {
      RefillExact(b.readLimit, cfg.readMaximum, cfg.readRate, n);
      RefillExact(b.writeLimit, cfg.writeMaximum, cfg.writeRate, n);
    }
  }

  /** So it is for the greatest limit, above a maximum of 5, after one tick. */
  lemma RefreshOverruns()
    ensures var b, cfg := Bucket(SSIZE_MAX, 0, 0), Cfg(1, 5, 1, 5, 1000);
            Overrun(b, cfg, false, 1) && Refreshed(b, cfg, 1) == Bucket(SSIZE_MIN, 1, 1)
  {
    assert (5 - SSIZE_MAX) % TWO64 == TWO64 + 5 - SSIZE_MAX;
  }

  lemma RefillSide(limit: int, maximum: nat, rate: nat, ticks: nat)
    requires SSIZE_MIN <= limit <= SSIZE_MAX && 1 <= rate <= maximum <= RATE_LIMIT_MAX && 0 < ticks <= INT_MAX
    ensures var r := Refilled(limit, maximum, rate, ticks);
            && SSIZE_MIN <= r <= SSIZE_MAX
            && (limit <= maximum ==> r >= limit && !OverrunBy(limit, maximum, Credits(ticks, rate)))
            && (limit > 0 ==> (r <= 0 <==> OverrunBy(limit, maximum, Credits(ticks, rate))))
  {
    hide Refilled;
    RefillExact(limit, maximum, rate, ticks);
    RefillPositive(limit, maximum, rate, ticks);
    Times(ticks, 0, rate);
  }

  lemma RefillPositive(limit: int, maximum: nat, rate: nat, ticks: nat)
    requires SSIZE_MIN <= limit <= SSIZE_MAX && 1 <= rate <= maximum <= RATE_LIMIT_MAX && 0 < ticks <= INT_MAX
    ensures SSIZE_MIN <= Refilled(limit, maximum, rate, ticks) <= SSIZE_MAX
    ensures limit > 0 ==>
        (Refilled(limit, maximum, rate, ticks) <= 0
         <==> limit > maximum && SSIZE_MAX < limit + ticks * rate <= TWO64)
  {
    RefilledCases(limit, maximum, rate, ticks);
    Times(ticks, 0, rate);
    PositiveCases(limit, maximum, ticks * rate);
  }

  lemma PositiveCases(limit: int, maximum: nat, credit: nat)
    requires SSIZE_MIN <= limit <= SSIZE_MAX && 1 <= maximum <= RATE_LIMIT_MAX
    ensures var r := Topped(limit, maximum, credit);
            && SSIZE_MIN <= r <= SSIZE_MAX
            && (limit > 0 ==> (r <= 0 <==> limit > maximum && SSIZE_MAX < limit + credit <= TWO64))
  {
    var d := (maximum - limit) % TWO64;
    assert d == if limit <= maximum then maximum - limit else TWO64 + maximum - limit;
    if credit <= d && limit > 0 {
      hide ToSsize;
      assert credit % TWO64 == credit;
      RoundedUp(limit + credit);
    }
  }

  lemma RoundedUp(x: nat)
    requires 0 < x <= TWO64 + SSIZE_MAX
    ensures ToSsize(x) <= 0 <==> SSIZE_MAX < x <= TWO64
  {
  }

  lemma Times(a: int, b: int, c: nat)
    ensures (a + b) * c == a * c + b * c && (a >= 0 ==> a * c >= 0)
  {
  }

  lemma UpdatedWithin(b: Bucket, cfg: Cfg, tick: nat)
    requires b.Within(cfg) && tick < TWO32
    ensures Updated(b, cfg, tick).Within(cfg)
    ensures Updated(b, cfg, tick).readLimit >= b.readLimit && Updated(b, cfg, tick).writeLimit >= b.writeLimit
  {
    var n := TicksSince(tick, b.lastUpdated);
    Times(n, 0, cfg.readRate);
    Times(n, 0, cfg.writeRate);
  }

  /** Refilling at one tick and then at another is refilling once at the other exactly when the first does nothing, the
      second sees no tick, or the two steps together are one step forward. */
  lemma UpdatePathIndependent(b: Bucket, cfg: Cfg, tick1: nat, tick2: nat)
    requires b.Within(cfg) && tick1 < TWO32 && tick2 < TWO32
    ensures var n1, n2 := TicksSince(tick1, b.lastUpdated), TicksSince(tick2, tick1);
            Updated(Updated(b, cfg, tick1), cfg, tick2) == Updated(b, cfg, tick2)
            <==> n1 == 0 || n1 > INT_MAX || n2 == 0 || n1 + n2 <= INT_MAX
  {
    var n1, n2 := TicksSince(tick1, b.lastUpdated), TicksSince(tick2, tick1);
    if n1 == 0 || n1 > INT_MAX {
    } else if n2 == 0 {
      assert tick1 == tick2;
    } else {
      hide Updated, TicksSince;
      if n1 + n2 <= INT_MAX {
        PathsJoin(b, cfg, tick1, tick2);
      } else {
        PathsDiffer(b, cfg, tick1, tick2);
      }
    }
  }

  lemma PathsJoin(b: Bucket, cfg: Cfg, tick1: nat, tick2: nat)
    requires b.Within(cfg) && tick1 < TWO32 && tick2 < TWO32
    requires TicksSince(tick1, b.lastUpdated) + TicksSince(tick2, tick1) <= INT_MAX
    ensures Updated(Updated(b, cfg, tick1), cfg, tick2) == Updated(b, cfg, tick2)
  {
    var n1, n2 := TicksSince(tick1, b.lastUpdated), TicksSince(tick2, tick1);
    assert TicksSince(tick2, b.lastUpdated) == n1 + n2;
    assert n2 == 0 ==> tick1 == tick2;
    hide TicksSince, Min;
    ToppedTwice(b.readLimit, cfg.readMaximum, cfg.readRate, n1, n2);
    ToppedTwice(b.writeLimit, cfg.writeMaximum, cfg.writeRate, n1, n2);
  }

  lemma ToppedTwice(limit: int, maximum: nat, rate: nat, n1: nat, n2: nat)
    ensures Min(maximum, Min(maximum, limit + n1 * rate) + n2 * rate) == Min(maximum, limit + (n1 + n2) * rate)
  {
    Times(n1, n2, rate);
    Times(n2, n1, rate);
  }

  lemma PathsDiffer(b: Bucket, cfg: Cfg, tick1: nat, tick2: nat)
    requires b.Within(cfg) && tick1 < TWO32 && tick2 < TWO32
    requires 0 < TicksSince(tick1, b.lastUpdated) <= INT_MAX && tick2 != tick1
    requires TicksSince(tick1, b.lastUpdated) + TicksSince(tick2, tick1) > INT_MAX
    ensures Updated(Updated(b, cfg, tick1), cfg, tick2).lastUpdated != Updated(b, cfg, tick2).lastUpdated
  {
    UpdatedTick(b, cfg, tick1);
    UpdatedTick(b, cfg, tick2);
    UpdatedTick(Updated(b, cfg, tick1), cfg, tick2);
    TickSum(b.lastUpdated, tick1, tick2);
    hide Updated, TicksSince;
  }

  lemma UpdatedTick(b: Bucket, cfg: Cfg, tick: nat)
    ensures Updated(b, cfg, tick).lastUpdated == if 0 < TicksSince(tick, b.lastUpdated) <= INT_MAX then tick
        else b.lastUpdated
  {
    hide TicksSince;
  }

  lemma TickSum(t0: nat, t1: nat, t2: nat)
    requires t0 < TWO32 && t1 < TWO32 && t2 < TWO32
    ensures TicksSince(t1, t0) < TWO32 && (TicksSince(t1, t0) == 0 <==> t0 == t1)
    ensures (TicksSince(t2, t0) == 0 <==> t0 == t2)
    ensures TicksSince(t2, t0) == TicksSince(t1, t0) + TicksSince(t2, t1)
            || TicksSince(t2, t0) == TicksSince(t1, t0) + TicksSince(t2, t1) - TWO32
  {
  }

  /** Two steps of 2^31 - 1 ticks are not one step of twice as many, which counts as a step back. */
  lemma PathDependent()
    ensures var b, cfg := Bucket(0, 0, 0), Cfg(1, 5, 1, 5, 1000);
            && Updated(Updated(b, cfg, INT_MAX), cfg, 2 * INT_MAX) == Bucket(5, 5, 2 * INT_MAX)
            && Updated(b, cfg, 2 * INT_MAX) == b
  {
  }

  /** ev_token_bucket_init_ */
  method Init(bucket: Bucket, cfg: Cfg, tick: nat, reinitialize: bool) returns (b: Bucket)
    requires cfg.Ok() && tick < TWO32
    requires reinitialize ==>
        SSIZE_MIN <= bucket.readLimit && SSIZE_MIN <= bucket.writeLimit && bucket.lastUpdated < TWO32
    ensures b.Within(cfg)
    ensures reinitialize ==>
        b == Bucket(Min(bucket.readLimit, cfg.readMaximum), Min(bucket.writeLimit, cfg.writeMaximum),
            bucket.lastUpdated)
    ensures !reinitialize ==> b == Bucket(cfg.readRate, cfg.writeRate, tick)
  {
    b := bucket;
    if reinitialize {
      if b.readLimit > cfg.readMaximum {
        b := b.(readLimit := cfg.readMaximum);
      }
      if b.writeLimit > cfg.writeMaximum {
        b := b.(writeLimit := cfg.writeMaximum);
      }
    } else {
      b := Bucket(cfg.readRate, cfg.writeRate, tick);
    }
  }

  /** ev_token_bucket_update_ */
  method Update(bucket: Bucket, cfg: Cfg, tick: nat) returns (b: Bucket, updated: bool)
    requires cfg.Ok() && bucket.Held() && tick < TWO32
    ensures b == Refreshed(bucket, cfg, tick) && b.Held()
    ensures bucket.Within(cfg) ==> b == Updated(bucket, cfg, tick) && b.Within(cfg)
    ensures updated <==> 0 < TicksSince(tick, bucket.lastUpdated) <= INT_MAX
  {
    RefreshedIs(bucket, cfg, tick);
    var ticks := (tick - bucket.lastUpdated) % TWO32;
    if ticks == 0 || ticks > INT_MAX {
      return bucket, false;
    }
    b := Bucket(Refilled(bucket.readLimit, cfg.readMaximum, cfg.readRate, ticks),
                Refilled(bucket.writeLimit, cfg.writeMaximum, cfg.writeRate, ticks), tick);
    updated := true;
  }

  // ---- whole runs of one bucket ----

  /** What happens to a bucket in one direction: time is looked at, or bytes are moved and charged. */
  datatype Move = Look(tick: nat) | Transfer(bytes: nat)

  /** A charge, or a refund when it is negative */
  function Charged(b: Bucket, write: bool, bytes: int): Bucket {
    if write then b.(writeLimit := b.writeLimit - bytes) else b.(readLimit := b.readLimit - bytes)
  }

  function Step(b: Bucket, cfg: Cfg, write: bool, m: Move): Bucket {
    match m
    case Look(tick) => Updated(b, cfg, tick)
    case Transfer(bytes) => Charged(b, write, bytes)
  }

  function After(b: Bucket, cfg: Cfg, write: bool, moves: seq<Move>): Bucket
    decreases moves
  {
    if moves == [] then b else After(Step(b, cfg, write, moves[0]), cfg, write, moves[1..])
  }

  function Moved(moves: seq<Move>): nat {
    if moves == [] then 0 else (if moves[0].Transfer? then moves[0].bytes else 0) + Moved(moves[1..])
  }

  /** The ticks credited by one look at the time */
  function Credit(b: Bucket, m: Move): nat {
    if m.Transfer? then 0
    else if TicksSince(m.tick, b.lastUpdated) > INT_MAX then 0 else TicksSince(m.tick, b.lastUpdated)
  }

  function Credited(b: Bucket, cfg: Cfg, write: bool, moves: seq<Move>): nat
    decreases moves
  {
    if moves == [] then 0 else Credit(b, moves[0]) + Credited(Step(b, cfg, write, moves[0]), cfg, write, moves[1..])
  }

  /** No transfer exceeds the limit in force, or zero when the limit is below it. */
  predicate Obedient(b: Bucket, cfg: Cfg, write: bool, moves: seq<Move>)
    decreases moves
  {
    moves != [] ==>
      && (match moves[0] case Look(tick) => tick < TWO32 case Transfer(bytes) => bytes == 0 || bytes <= b.Limit(write))
      && Obedient(Step(b, cfg, write, moves[0]), cfg, write, moves[1..])
  }

  /** Over any obedient run the limit never drops below zero and the bytes moved are at most the burst and the
      credit. */
  lemma {:induction false} RunBound(b: Bucket, cfg: Cfg, write: bool, moves: seq<Move>)
    requires cfg.Ok() && b.Within(cfg) && b.Limit(write) >= 0 && Obedient(b, cfg, write, moves)
    ensures 0 <= After(b, cfg, write, moves).Limit(write) <= cfg.Maximum(write)
    ensures Moved(moves) + After(b, cfg, write, moves).Limit(write)
            <= b.Limit(write) + Credited(b, cfg, write, moves) * cfg.Rate(write)
    ensures Moved(moves) <= cfg.Maximum(write) + Credited(b, cfg, write, moves) * cfg.Rate(write)
    decreases moves
  {
    if moves != [] {
      var b', rest := Step(b, cfg, write, moves[0]), moves[1..];
      if moves[0].Look? {
        UpdatedWithin(b, cfg, moves[0].tick);
      }
      RunBound(b', cfg, write, rest);
      Times(Credit(b, moves[0]), Credited(b', cfg, write, rest), cfg.Rate(write));
    }
  }

  // ---- runs against a clock that does not wrap ----

  /** The moves as the bucket sees them: tick numbers wrap at 2^32. */
  function Wrapped(moves: seq<Move>): (r: seq<Move>)
    ensures |r| == |moves|
  {
    if moves == [] then []
    else [if moves[0].Look? then Look(moves[0].tick % TWO32) else moves[0]] + Wrapped(moves[1..])
  }

  /** The clock never goes back. */
  predicate Forward(start: nat, moves: seq<Move>)
    decreases moves
  {
    moves != [] ==>
      && (moves[0].Look? ==> start <= moves[0].tick)
      && Forward(if moves[0].Look? then moves[0].tick else start, moves[1..])
  }

  function Finish(start: nat, moves: seq<Move>): nat
    decreases moves
  {
    if moves == [] then start else Finish(if moves[0].Look? then moves[0].tick else start, moves[1..])
  }

  /** No more ticks are credited than have elapsed since the last update, however often tick numbers wrap. */
  lemma {:induction false} CreditElapsed(b: Bucket, cfg: Cfg, write: bool, moves: seq<Move>, updated: nat, start: nat)
    requires b.lastUpdated == updated % TWO32 && updated <= start && Forward(start, moves)
    ensures Credited(b, cfg, write, Wrapped(moves)) <= Finish(start, moves) - updated
    decreases moves
  {
    if moves == [] {
    } else {
      var m, rest := Wrapped(moves)[0], moves[1..];
      var b' := Step(b, cfg, write, m);
      assert Wrapped(moves)[1..] == Wrapped(rest);
      var now := if moves[0].Look? then moves[0].tick else start;
      if moves[0].Look? {
        WrappedDifference(moves[0].tick, updated);
        assert 0 <= TicksSince(m.tick, b.lastUpdated) <= moves[0].tick - updated;
      }
      if moves[0].Look? && 0 < TicksSince(m.tick, b.lastUpdated) <= INT_MAX {
        CreditElapsed(b', cfg, write, rest, now, now);
      } else {
        CreditElapsed(b', cfg, write, rest, updated, now);
      }
    }
  }

  /** Bytes moved by an obedient run over k elapsed ticks are at most the maximum and k times the rate. */
  lemma ElapsedBound(b: Bucket, cfg: Cfg, write: bool, moves: seq<Move>, start: nat)
    requires cfg.Ok() && b.Within(cfg) && b.Limit(write) >= 0 && Obedient(b, cfg, write, Wrapped(moves))
    requires b.lastUpdated == start % TWO32 && Forward(start, moves)
    ensures Moved(moves) <= cfg.Maximum(write) + (Finish(start, moves) - start) * cfg.Rate(write)
  {
    RunBound(b, cfg, write, Wrapped(moves));
    CreditElapsed(b, cfg, write, moves, start, start);
    WrappedMoved(moves);
    var k := Credited(b, cfg, write, Wrapped(moves));
    Times(Finish(start, moves) - start - k, k, cfg.Rate(write));
  }

  lemma {:induction false} WrappedMoved(moves: seq<Move>)
    ensures Moved(Wrapped(moves)) == Moved(moves)
  {
    if moves != [] {
      WrappedMoved(moves[1..]);
      assert Wrapped(moves)[1..] == Wrapped(moves[1..]);
    }
  }

  /** The bucket is looked at, and nothing is moved. */
  predicate OnlyLooks(moves: seq<Move>) {
    forall i :: 0 <= i < |moves| ==> moves[i].Look? && moves[i].tick < TWO32
  }

  /** Over any run of looks the limit grows by the rate for each tick credited, up to the maximum. */
  lemma {:induction false} LookRun(b: Bucket, cfg: Cfg, write: bool, moves: seq<Move>)
    requires b.Within(cfg) && OnlyLooks(moves)
    ensures After(b, cfg, write, moves).Within(cfg)
    ensures After(b, cfg, write, moves).Limit(write)
            == Min(cfg.Maximum(write), b.Limit(write) + Credited(b, cfg, write, moves) * cfg.Rate(write))
    decreases moves
  {
    if moves != [] {
      var b1, n := Step(b, cfg, write, moves[0]), Credit(b, moves[0]);
      UpdatedWithin(b, cfg, moves[0].tick);
      LookRun(b1, cfg, write, moves[1..]);
      var rest := Credited(b1, cfg, write, moves[1..]);
      Times(n, rest, cfg.Rate(write));
      Times(rest, n, cfg.Rate(write));
      assert b1.Limit(write) == Min(cfg.Maximum(write), b.Limit(write) + n * cfg.Rate(write));
    }
  }

  /** Each look finds at least one new tick, and fewer than 2^31. */
  predicate Advancing(last: nat, moves: seq<Move>)
    decreases moves
  {
    moves != [] ==>
      moves[0].Look? && moves[0].tick < TWO32 && 0 < TicksSince(moves[0].tick, last) <= INT_MAX &&
      Advancing(moves[0].tick, moves[1..])
  }

  lemma {:induction false} AdvancingCredit(b: Bucket, cfg: Cfg, write: bool, moves: seq<Move>)
    requires Advancing(b.lastUpdated, moves)
    ensures Credited(b, cfg, write, moves) >= |moves| && OnlyLooks(moves)
    decreases moves
  {
    if moves != [] {
      AdvancingCredit(Step(b, cfg, write, moves[0]), cfg, write, moves[1..]);
    }
  }

  lemma {:induction false} AfterMore(b: Bucket, cfg: Cfg, write: bool, moves: seq<Move>, m: Move)
    ensures After(b, cfg, write, moves + [m]) == Step(After(b, cfg, write, moves), cfg, write, m)
    ensures Credited(b, cfg, write, moves + [m])
            == Credited(b, cfg, write, moves) + Credit(After(b, cfg, write, moves), m)
    decreases moves
  {
    if moves == [] {
      assert ([] + [m])[1..] == [];
    } else {
      assert (moves + [m])[1..] == moves[1..] + [m];
      AfterMore(Step(b, cfg, write, moves[0]), cfg, write, moves[1..], m);
    }
  }

  /** With no charge, a bucket reaches a threshold up to its rate after finitely many ticks, and exactly these. */
  lemma ReachesThreshold(limit: int, maximum: nat, rate: nat, threshold: nat, ticks: nat)
    requires 1 <= rate <= maximum && threshold <= rate
    ensures Min(maximum, limit + ticks * rate) >= threshold <==> ticks >= TicksToReach(limit, rate, threshold)
  {
    var need := threshold - limit;
    if need > 0 {
      var k := TicksToReach(limit, rate, threshold);
      assert rate * ((need + rate - 1) / rate) + (need + rate - 1) % rate == need + rate - 1;
      assert need <= k * rate < need + rate;
      if ticks >= k {
        Times(ticks - k, k, rate);
      } else {
        Times(k - 1 - ticks, ticks + 1, rate);
      }
    } else {
      Times(ticks, 0, rate);
    }
  }

  function TicksToReach(limit: int, rate: nat, threshold: nat): nat
    requires rate > 0
  {
    if threshold <= limit then 0 else (threshold - limit + rate - 1) / rate
  }

  /** A run of looks brings the limit to a threshold up to the rate exactly when enough ticks are credited, in one look
      or in many; it does so when each look finds a new tick and there are that many looks. */
  lemma RunReachesThreshold(b: Bucket, cfg: Cfg, write: bool, moves: seq<Move>, threshold: nat)
    requires cfg.Ok() && b.Within(cfg) && OnlyLooks(moves) && threshold <= cfg.Rate(write)
    ensures var need := TicksToReach(b.Limit(write), cfg.Rate(write), threshold);
            && (After(b, cfg, write, moves).Limit(write) >= threshold <==> Credited(b, cfg, write, moves) >= need)
            && (Advancing(b.lastUpdated, moves) && |moves| >= need ==>
                After(b, cfg, write, moves).Limit(write) >= threshold)
  {
    LookRun(b, cfg, write, moves);
    ReachesThreshold(b.Limit(write), cfg.Maximum(write), cfg.Rate(write), threshold, Credited(b, cfg, write, moves));
    if Advancing(b.lastUpdated, moves) {
      AdvancingCredit(b, cfg, write, moves);
    }
  }
}
