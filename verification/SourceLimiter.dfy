/** The per-source rate limit with its bounded table: internal/udp/limit.go. Tokens and
    seconds are real numbers; rounding is not modelled. */
module SourceLimiter {
  import opened Options

  type U32 = x: nat | x < 0x1_0000_0000
  type U64 = x: nat | x < 0x1_0000_0000_0000_0000

  /** An IPv4 address, or an IPv6 address as two halves. */
  datatype Addr = V4(a: U32) | V6(hi: U64, lo: U64)

  const MAPPED: nat := 0xffff_0000_0000

  /** sourceKey: an IPv4-mapped address is the IPv4 address, any other IPv6 address stands for its /64. */
  function SourceKey(a: Addr): (k: Addr) {
    match a
    case V4(_) => a
    case V6(hi, lo) =>
      if hi == 0 && MAPPED <= lo < MAPPED + 0x1_0000_0000 then V4(lo - MAPPED) else V6(hi, 0)
  }

  /** Two addresses share a bucket exactly when they are one IPv4 address, mapped or not, or lie in one IPv6 /64. */
  lemma SharedBucket(a: Addr, b: Addr)
    ensures SourceKey(a) == SourceKey(b) <==> (a == b || AsV4(a) == AsV4(b) != None || (AsV4(a) == AsV4(b) == None && a.hi == b.hi))
    ensures SourceKey(SourceKey(a)) == SourceKey(a)
  {}

  function AsV4(x: Addr): Option<U32> {
    match x
    case V4(a) => Some(a)
    case V6(hi, lo) => if hi == 0 && lo / 0x1_0000_0000 == 0xffff then Some(lo % 0x1_0000_0000) else None
  }

  datatype Bucket = Bucket(tokens: real, last: real)

  datatype Config = Config(rate: real, burst: nat, max: nat, idle: real) {
    predicate Valid() {
      rate >= 0.0 && burst >= 1 && idle >= 0.0
    }

    /** An idle bucket has had the time to refill. */
    predicate RefillsWhenIdle() {
      Gain(idle, rate) >= burst as real
    }
  }

  type Table = map<Addr, Bucket>

  function Min(a: real, b: real): real {
    if a <= b then a else b
  }

  /** The tokens gained in a time. */
  function Gain(seconds: real, rate: real): real {
    seconds * rate
  }

  /** What a bucket holds at a later time. */
  function Refilled(c: Config, b: Bucket, now: real): real {
    Min(c.burst as real, b.tokens + Gain(now - b.last, c.rate))
  }

  function Fresh(t: Table, now: real, idle: real): Table {
    map k | k in t && now - t[k].last <= idle :: t[k]
  }

  /** The table and the answer after one datagram from key k. */
  function Allowed(c: Config, t: Table, k: Addr, now: real): (r: (Table, bool)) {
    var kept := if k !in t && |t| >= c.max then Fresh(t, now, c.idle) else t;
    if k !in t && |t| >= c.max && kept.Keys == t.Keys then (kept, false)
    else
      var b := if k in t then t[k] else Bucket(c.burst as real, now);
      var tokens := Refilled(c, b, now);
      if tokens < 1.0 then (kept[k := Bucket(tokens, now)], false)
      else (kept[k := Bucket(tokens - 1.0, now)], true)
  }

  // ---- the object --------------------------------------------------------------------------

  class Limiter {
    const c: Config
    var buckets: Table

    constructor (c: Config)
      ensures this.c == c && buckets == map[]
    {
      this.c := c;
      buckets := map[];
    }

    method Allow(a: Addr, now: real) returns (ok: bool)
      modifies this
      ensures (buckets, ok) == Allowed(c, old(buckets), SourceKey(a), now)
    {
      hide SourceKey, Gain;
      var k := SourceKey(a);
      if k !in buckets {
        if |buckets| >= c.max {
          var freed := Evict(now);
          if !freed {
            assert buckets.Keys == old(buckets).Keys;
            assert Allowed(c, old(buckets), k, now).0 == Fresh(old(buckets), now, c.idle);
            return false;
          }
        }
        buckets := buckets[k := Bucket(c.burst as real, now)];
      }
      var b := buckets[k];
      b := b.(tokens := Min(c.burst as real, b.tokens + Gain(now - b.last, c.rate)));
      b := b.(last := now);
      if b.tokens < 1.0 {
        buckets := buckets[k := b];
        assert buckets == Allowed(c, old(buckets), k, now).0;
        return false;
      }
      buckets := buckets[k := b.(tokens := b.tokens - 1.0)];
      assert buckets == Allowed(c, old(buckets), k, now).0;
      return true;
    }

    method Evict(now: real) returns (freed: bool)
      modifies this
      ensures buckets == Fresh(old(buckets), now, c.idle)
      ensures forall k :: k in old(buckets) ==> (k in buckets <==> now - old(buckets)[k].last <= c.idle)
      ensures freed <==> buckets.Keys != old(buckets).Keys
    {
      freed := false;
      var todo := buckets.Keys;
      while todo != {}
        invariant todo <= old(buckets).Keys
        invariant buckets == map k | k in old(buckets) && (k in todo || now - old(buckets)[k].last <= c.idle) :: old(buckets)[k]
        invariant freed <==> buckets.Keys != old(buckets).Keys
        decreases |todo|
      {
        var k :| k in todo;
        todo := todo - {k};
        if now - buckets[k].last > c.idle {
          assert k in old(buckets).Keys;
          buckets := buckets - {k};
          freed := true;
        }
      }
    }
  }

  // ---- what a table is worth to a key ----------------------------------------------------------

  /** The tokens key k can count on at `now`: what its bucket has refilled to, or a full burst without one. */
  function Worth(c: Config, t: Table, k: Addr, now: real): real {
    if k in t then Refilled(c, t[k], now) else c.burst as real
  }

  ghost predicate Inv(c: Config, t: Table, now: real) {
    |t| <= c.max && forall k :: k in t ==> 0.0 <= t[k].tokens <= c.burst as real && t[k].last <= now
  }

  lemma GainNonNegative(a: real, r: real)
    requires 0.0 <= a && 0.0 <= r
    ensures 0.0 <= Gain(a, r)
  {}

  lemma GainNothing(r: real)
    ensures Gain(0.0, r) == 0.0
  {}

  lemma GainAdds(a: real, b: real, r: real)
    ensures Gain(a + b, r) == Gain(a, r) + Gain(b, r)
  {}

  lemma WorthBounds(c: Config, t: Table, k: Addr, now: real)
    requires c.Valid() && Inv(c, t, now)
    ensures 0.0 <= Worth(c, t, k, now) <= c.burst as real
  {
    hide Gain;
    if k in t {
      GainNonNegative(now - t[k].last, c.rate);
    }
  }

  /** Waiting adds at most rate times the wait. */
  lemma WorthGrows(c: Config, t: Table, k: Addr, now: real, later: real)
    requires c.Valid() && Inv(c, t, now) && now <= later
    ensures Worth(c, t, k, later) <= Worth(c, t, k, now) + Gain(later - now, c.rate)
  {
    hide Gain;
    GainNonNegative(later - now, c.rate);
    if k in t {
      GainAdds(later - now, now - t[k].last, c.rate);
      assert later - now + (now - t[k].last) == later - t[k].last;
    }
  }

  /** An idle bucket has refilled, so evicting it and making it again gives the same tokens as keeping it. */
  lemma EvictionIsFree(c: Config, t: Table, k: Addr, now: real)
    requires c.Valid() && Inv(c, t, now) && c.RefillsWhenIdle()
    ensures Worth(c, Fresh(t, now, c.idle), k, now) == Worth(c, t, k, now)
  {
    hide Gain;
    if k in t && now - t[k].last > c.idle {
      GainAdds(c.idle, now - t[k].last - c.idle, c.rate);
      assert c.idle + (now - t[k].last - c.idle) == now - t[k].last;
      GainNonNegative(now - t[k].last - c.idle, c.rate);
    }
  }

  lemma FreshKeeps(c: Config, t: Table, now: real)
    requires Inv(c, t, now)
    ensures Inv(c, Fresh(t, now, c.idle), now)
    ensures Fresh(t, now, c.idle).Keys != t.Keys ==> |Fresh(t, now, c.idle)| < |t|
  {
    var f := Fresh(t, now, c.idle);
    FewerKeys(f.Keys, t.Keys);
    KeyCount(f);
    KeyCount(t);
  }

  lemma FewerKeys(a: set<Addr>, b: set<Addr>)
    requires a <= b
    ensures |a| <= |b| && (a != b ==> |a| < |b|)
  {
    assert b == a + (b - a);
  }

  lemma KeyCount(t: Table)
    ensures |t| == |t.Keys|
  {}

  /** The table never grows past its bound, whatever the rate and the idle time. */
  lemma AllowedKeeps(c: Config, t: Table, k: Addr, now: real)
    requires c.Valid() && Inv(c, t, now)
    ensures Inv(c, Allowed(c, t, k, now).0, now)
  {
    hide Gain;
    WorthBounds(c, t, k, now);
    GainNothing(c.rate);
    if k in t {
      SetBucket(c, t, k, Allowed(c, t, k, now).0[k], now);
    } else {
      var kept := if |t| >= c.max then Fresh(t, now, c.idle) else t;
      FreshKeeps(c, t, now);
      if |kept| < c.max {
        SetBucket(c, kept, k, Allowed(c, t, k, now).0[k], now);
      }
    }
  }

  lemma SetBucket(c: Config, t: Table, k: Addr, b: Bucket, now: real)
    requires Inv(c, t, now) && 0.0 <= b.tokens <= c.burst as real && b.last <= now
    requires k in t || |t| < c.max
    ensures Inv(c, t[k := b], now)
  {
    KeyCount(t);
    KeyCount(t[k := b]);
    assert k in t ==> t[k := b].Keys == t.Keys;
  }

  /** The evicting table decides as one that forgets nothing would: a datagram is admitted exactly when the
      table can hold its key and the key is worth a token, and then it costs that key one token and others none. */
  lemma AllowedIsIdeal(c: Config, t: Table, k: Addr, now: real, j: Addr)
    requires c.Valid() && Inv(c, t, now) && c.RefillsWhenIdle()
    ensures var r := Allowed(c, t, k, now);
      && (r.1 ==> Worth(c, t, k, now) >= 1.0)
      && (!r.1 && k in r.0 ==> Worth(c, t, k, now) < 1.0)
      && (k !in r.0 ==> k !in t && |t| >= c.max && Fresh(t, now, c.idle).Keys == t.Keys)
      && Worth(c, r.0, j, now) == Worth(c, t, j, now) - if r.1 && j == k then 1.0 else 0.0
  {
    hide Gain;
    EvictionIsFree(c, t, j, now);
    WorthBounds(c, t, j, now);
    WorthBounds(c, t, k, now);
    GainNothing(c.rate);
  }

  // ---- runs ------------------------------------------------------------------------------------

  datatype Arrival = Arrival(key: Addr, now: real)

  function AfterAll(c: Config, t: Table, arrivals: seq<Arrival>): Table
    decreases |arrivals|
  {
    if arrivals == [] then t
    else AfterAll(c, Allowed(c, t, arrivals[0].key, arrivals[0].now).0, arrivals[1..])
  }

  /** The datagrams of key k that are admitted. */
  function Admitted(c: Config, t: Table, arrivals: seq<Arrival>, k: Addr): nat
    decreases |arrivals|
  {
    if arrivals == [] then 0
    else
      var r := Allowed(c, t, arrivals[0].key, arrivals[0].now);
      (if r.1 && arrivals[0].key == k then 1 else 0) + Admitted(c, r.0, arrivals[1..], k)
  }

  /** Times do not go back, and lie between from and to. */
  ghost predicate Clocked(arrivals: seq<Arrival>, from: real, to: real) {
    && from <= to
    && (forall i :: 0 <= i < |arrivals| ==> from <= arrivals[i].now <= to)
    && (forall i, j :: 0 <= i < j < |arrivals| ==> arrivals[i].now <= arrivals[j].now)
  }

  lemma InvLater(c: Config, t: Table, now: real, later: real)
    requires Inv(c, t, now) && now <= later
    ensures Inv(c, t, later)
  {}

  lemma {:induction false} RunKeeps(c: Config, t: Table, arrivals: seq<Arrival>, from: real, to: real)
    requires c.Valid() && Inv(c, t, from) && Clocked(arrivals, from, to)
    ensures Inv(c, AfterAll(c, t, arrivals), to)
    decreases |arrivals|
  {
    hide Inv, Allowed;
    if arrivals == [] {
      InvLater(c, t, from, to);
    } else {
      var a := arrivals[0];
      InvLater(c, t, from, a.now);
      AllowedKeeps(c, t, a.key, a.now);
      RunKeeps(c, Allowed(c, t, a.key, a.now).0, arrivals[1..], a.now, to);
    }
  }

  lemma {:induction false} WorthPaysForAdmissions(c: Config, t: Table, arrivals: seq<Arrival>, k: Addr, from: real, to: real)
    requires c.Valid() && Inv(c, t, from) && Clocked(arrivals, from, to) && c.RefillsWhenIdle()
    ensures Admitted(c, t, arrivals, k) as real <= Worth(c, t, k, from) + Gain(to - from, c.rate)
    decreases |arrivals|
  {
    hide Inv, Allowed, Worth, Gain;
    if arrivals == [] {
      WorthBounds(c, t, k, from);
      GainNonNegative(to - from, c.rate);
    } else {
      var a := arrivals[0];
      var r := Allowed(c, t, a.key, a.now);
      WorthGrows(c, t, k, from, a.now);
      InvLater(c, t, from, a.now);
      AllowedKeeps(c, t, a.key, a.now);
      AllowedIsIdeal(c, t, a.key, a.now, k);
      WorthPaysForAdmissions(c, r.0, arrivals[1..], k, a.now, to);
      GainAdds(a.now - from, to - a.now, c.rate);
      assert a.now - from + (to - a.now) == to - from;
    }
  }

  /** Between times `from` and `to` of any run with a clock that does not go back, after any arrivals before,
      a key is admitted at most burst + rate * (to - from) times. */
  ghost predicate RateBound(c: Config, before: seq<Arrival>, window: seq<Arrival>, k: Addr, from: real, to: real) {
    Admitted(c, AfterAll(c, map[], before), window, k) as real <= c.burst as real + Gain(to - from, c.rate)
  }

  lemma RateBoundHolds(c: Config, before: seq<Arrival>, window: seq<Arrival>, k: Addr, start: real, from: real, to: real)
    requires c.Valid() && c.RefillsWhenIdle()
    requires Clocked(before, start, from) && Clocked(window, from, to)
    ensures RateBound(c, before, window, k, from, to)
    ensures |AfterAll(c, map[], before)| <= c.max
  {
    hide Allowed, Worth, Clocked, Admitted;
    assert Inv(c, map[], start);
    RunKeeps(c, map[], before, start, from);
    WorthBounds(c, AfterAll(c, map[], before), k, from);
    WorthPaysForAdmissions(c, AfterAll(c, map[], before), window, k, from, to);
  }

  // ---- the condition is needed -------------------------------------------------------------------

  /** n arrivals of one key at one time. */
  function Burst(k: Addr, now: real, n: nat): (s: seq<Arrival>)
    ensures |s| == n && forall i :: 0 <= i < n ==> s[i] == Arrival(k, now)
  {
    if n == 0 then [] else [Arrival(k, now)] + Burst(k, now, n - 1)
  }

  lemma {:induction false} BurstAdmitted(c: Config, t: Table, k: Addr, now: real, n: nat)
    requires c.Valid() && k in t && t[k].last == now && n as real <= t[k].tokens <= c.burst as real
    ensures Admitted(c, t, Burst(k, now, n), k) == n
    ensures AfterAll(c, t, Burst(k, now, n)) == t[k := Bucket(t[k].tokens - n as real, now)]
    decreases n
  {
    if n == 0 {
      assert t == t[k := t[k]];
    } else {
      var s := Burst(k, now, n);
      assert s[1..] == Burst(k, now, n - 1);
      GainNothing(c.rate);
      BurstAdmitted(c, t[k := Bucket(t[k].tokens - 1.0, now)], k, now, n - 1);
    }
  }

  lemma {:induction false} AdmittedTwoParts(c: Config, t: Table, x: seq<Arrival>, y: seq<Arrival>, k: Addr)
    ensures Admitted(c, t, x + y, k) == Admitted(c, t, x, k) + Admitted(c, AfterAll(c, t, x), y, k)
    decreases |x|
  {
    if x == [] {
      assert x + y == y;
    } else {
      assert (x + y)[1..] == x[1..] + y;
      AdmittedTwoParts(c, Allowed(c, t, x[0].key, x[0].now).0, x[1..], y, k);
    }
  }

  /** One datagram at time 0 from each of the keys 1 to n. */
  function Fill(n: nat): (s: seq<Arrival>)
    requires n < 0x1_0000_0000
    ensures |s| == n && forall i :: 0 <= i < n ==> s[i].now == 0.0
  {
    if n == 0 then [] else Fill(n - 1) + [Arrival(V4(n), 0.0)]
  }

  lemma {:induction false} AfterTwoParts(c: Config, t: Table, x: seq<Arrival>, y: seq<Arrival>)
    ensures AfterAll(c, t, x + y) == AfterAll(c, AfterAll(c, t, x), y)
    decreases |x|
  {
    if x == [] {
      assert x + y == y;
    } else {
      assert (x + y)[1..] == x[1..] + y;
      AfterTwoParts(c, Allowed(c, t, x[0].key, x[0].now).0, x[1..], y);
    }
  }

  ghost predicate Filled(t: Table, n: nat) {
    && |t| == n
    && (forall k :: k in t ==> t[k].last == 0.0 && k.V4? && 1 <= k.a <= n)
  }

  lemma {:induction false} FillFills(c: Config, n: nat)
    requires c.Valid() && n <= c.max && n < 0x1_0000_0000
    ensures Filled(AfterAll(c, map[], Fill(n)), n)
    decreases n
  {
    if n > 0 {
      FillFills(c, n - 1);
      var t := AfterAll(c, map[], Fill(n - 1));
      AfterTwoParts(c, map[], Fill(n - 1), [Arrival(V4(n), 0.0)]);
      assert AfterAll(c, t, [Arrival(V4(n), 0.0)]) == Allowed(c, t, V4(n), 0.0).0;
      assert V4(n) !in t;
    }
  }

  /** A key the table does not hold but has room for gets its whole burst at once. */
  lemma FreshBurst(c: Config, t: Table, k: Addr, now: real)
    requires c.Valid() && k !in t && |t| < c.max
    ensures Admitted(c, t, Burst(k, now, c.burst), k) == c.burst
    ensures AfterAll(c, t, Burst(k, now, c.burst)) == t[k := Bucket(0.0, now)]
  {
    var s := Burst(k, now, c.burst);
    var first := t[k := Bucket(c.burst as real - 1.0, now)];
    assert s[1..] == Burst(k, now, c.burst - 1);
    GainNothing(c.rate);
    assert Allowed(c, t, k, now) == (first, true);
    BurstAdmitted(c, first, k, now, c.burst - 1);
    assert first[k := Bucket(0.0, now)] == t[k := Bucket(0.0, now)];
  }

  lemma TimeToEvictBeforeRefill(c: Config) returns (t: real)
    requires c.Valid() && !c.RefillsWhenIdle()
    ensures t > c.idle && Gain(t, c.rate) < c.burst as real
  {
    var short := c.burst as real - Gain(c.idle, c.rate);
    if c.rate == 0.0 {
      t := c.idle + 1.0;
    } else {
      var d := short / (2.0 * c.rate);
      t := c.idle + d;
      assert d * c.rate == short / 2.0;
      GainAdds(c.idle, d, c.rate);
    }
  }

  /** A full table, a burst of key 0, a stranger once everything is idle, and a second burst of key 0. */
  lemma TwoBursts(c: Config, t: real)
    requires c.Valid() && 2 <= c.max < 0x1_0000_0000 && t > c.idle
    ensures var window := Burst(V4(0), 0.0, c.burst) + ([Arrival(V4(c.max), t)] + Burst(V4(0), t, c.burst));
            Admitted(c, AfterAll(c, map[], Fill(c.max - 1)), window, V4(0)) == 2 * c.burst
  {
    hide Gain;
    var k, stranger := V4(0), Arrival(V4(c.max), t);
    var full := AfterAll(c, map[], Fill(c.max - 1));
    FillFills(c, c.max - 1);
    FreshBurst(c, full, k, 0.0);
    var t1 := full[k := Bucket(0.0, 0.0)];
    AdmittedTwoParts(c, full, Burst(k, 0.0, c.burst), [stranger] + Burst(k, t, c.burst), k);
    StrangerClears(c, t1, t);
    var t2 := Allowed(c, t1, stranger.key, t).0;
    FreshBurst(c, t2, k, t);
    assert ([stranger] + Burst(k, t, c.burst))[1..] == Burst(k, t, c.burst);
  }

  lemma StrangerClears(c: Config, t1: Table, t: real)
    requires c.Valid() && 2 <= c.max < 0x1_0000_0000 && t > c.idle && |t1| == c.max
    requires V4(c.max) !in t1 && forall k :: k in t1 ==> t1[k].last == 0.0
    ensures var t2 := Allowed(c, t1, V4(c.max), t).0; V4(0) !in t2 && |t2| < c.max
  {
    assert Fresh(t1, t, c.idle) == map[];
    var k :| k in t1;
    assert k in t1.Keys;
  }

  /** The rate bound, over every run and every window of it. */
  ghost predicate AlwaysBounded(c: Config) {
    forall before: seq<Arrival>, window: seq<Arrival>, k: Addr, start: real, from: real, to: real ::
      Clocked(before, start, from) && Clocked(window, from, to) ==> RateBound(c, before, window, k, from, to)
  }

  /** For a table of at least two entries, the bound holds over all runs exactly when a bucket left idle long
      enough to be evicted has had the time to refill. */
  lemma BoundedExactlyWhenRefilled(c: Config)
    requires c.Valid() && 2 <= c.max < 0x1_0000_0000
    ensures AlwaysBounded(c) <==> c.RefillsWhenIdle()
  {
    hide RateBound, Clocked;
    if c.RefillsWhenIdle() {
      forall before: seq<Arrival>, window: seq<Arrival>, k: Addr, start: real, from: real, to: real
        | Clocked(before, start, from) && Clocked(window, from, to)
        ensures RateBound(c, before, window, k, from, to)
      {
        RateBoundHolds(c, before, window, k, start, from, to);
      }
    } else {
      Violation(c);
    }
  }

  lemma Violation(c: Config)
    requires c.Valid() && 2 <= c.max < 0x1_0000_0000 && !c.RefillsWhenIdle()
    ensures !AlwaysBounded(c)
  {
    hide Gain, AfterAll, Admitted;
    var t := TimeToEvictBeforeRefill(c);
    var before := Fill(c.max - 1);
    var window := Burst(V4(0), 0.0, c.burst) + ([Arrival(V4(c.max), t)] + Burst(V4(0), t, c.burst));
    TwoBursts(c, t);
    assert Clocked(before, 0.0, 0.0);
    assert Clocked(window, 0.0, t);
    assert !RateBound(c, before, window, V4(0), 0.0, t);
  }
}
