/** The rate bound of internal/udp/limit.go for every size of table: exactly when it holds over all runs. */
module SourceLimiterExact {
  import opened SourceLimiter

  /** Neither rate nor idle time is negative. */
  predicate Sane(c: Config) {
    c.rate >= 0.0 && c.idle >= 0.0
  }

  // ---- nothing is ever admitted -------------------------------------------------------------------------

  lemma {:induction false} NoBurstNoAdmission(c: Config, t: Table, arrivals: seq<Arrival>, k: Addr)
    requires c.burst == 0
    ensures Admitted(c, t, arrivals, k) == 0
    decreases |arrivals|
  {
    hide Gain, Fresh;
    if arrivals != [] {
      var a := arrivals[0];
      NoBurstNoAdmission(c, Allowed(c, t, a.key, a.now).0, arrivals[1..], k);
    }
  }

  lemma {:induction false} NoRoomNoAdmission(c: Config, arrivals: seq<Arrival>, k: Addr)
    requires c.max == 0
    ensures Admitted(c, map[], arrivals, k) == 0 && AfterAll(c, map[], arrivals) == map[]
    decreases |arrivals|
  {
    hide Gain;
    if arrivals != [] {
      var a := arrivals[0];
      assert Fresh(map[], a.now, c.idle) == map[];
      NoRoomNoAdmission(c, arrivals[1..], k);
    }
  }

  lemma NothingAdmittedIsBounded(c: Config)
    requires Sane(c) && (c.burst == 0 || c.max == 0)
    ensures AlwaysBounded(c)
  {
    hide Gain, AfterAll, Admitted;
    forall before: seq<Arrival>, window: seq<Arrival>, k: Addr, start: real, from: real, to: real
      | Clocked(before, start, from) && Clocked(window, from, to)
      ensures RateBound(c, before, window, k, from, to)
    {
      if c.burst == 0 {
        NoBurstNoAdmission(c, AfterAll(c, map[], before), window, k);
      } else {
        NoRoomNoAdmission(c, before, k);
        NoRoomNoAdmission(c, window, k);
      }
      GainNonNegative(to - from, c.rate);
    }
  }

  // ---- a table of one entry -------------------------------------------------------------------------------

  /** A bucket evicted for another must wait for that one to become idle too: twice the idle time is enough to refill. */
  predicate RefillsInTwice(c: Config) {
    Gain(2.0 * c.idle, c.rate) >= c.burst as real
  }

  /** `ideal` has every bucket there ever was, as if none had been evicted: the one of the table is as it is there, and any
      other was last used at least the idle time before it. */
  ghost predicate Follows(c: Config, t: Table, ideal: Table, now: real) {
    && |t| <= 1
    && (forall k :: k in ideal ==> 0.0 <= ideal[k].tokens <= c.burst as real && ideal[k].last <= now)
    && (forall k :: k in t ==> k in ideal && ideal[k] == t[k])
    && (forall k :: k in ideal && k !in t ==> exists b :: b in t && ideal[k].last + c.idle <= t[b].last)
  }

  lemma OnlyOne(t: Table, a: Addr, b: Addr)
    requires |t| <= 1 && a in t && b in t
    ensures a == b
  {
    KeyCount(t);
    assert a != b ==> |{a, b}| == 2;
    FewerKeys({a, b}, t.Keys);
  }

  /** Once another bucket that came after it is idle, a bucket has refilled. */
  lemma RefilledByThen(c: Config, b: Bucket, now: real)
    requires Sane(c) && RefillsInTwice(c) && b.tokens >= 0.0 && b.last + 2.0 * c.idle <= now
    ensures Refilled(c, b, now) == c.burst as real
  {
    hide Gain;
    GainAdds(2.0 * c.idle, now - b.last - 2.0 * c.idle, c.rate);
    assert 2.0 * c.idle + (now - b.last - 2.0 * c.idle) == now - b.last;
    GainNonNegative(now - b.last - 2.0 * c.idle, c.rate);
  }

  /** A key the table holds: its bucket refills and pays. */
  lemma BucketAfter(c: Config, t: Table, k: Addr, now: real)
    requires Sane(c) && k in t && 0.0 <= t[k].tokens <= c.burst as real && t[k].last <= now
    ensures var r := Allowed(c, t, k, now);
            var b := r.0[k];
      && r.0 == t[k := b] && b.last == now && 0.0 <= b.tokens <= c.burst as real
      && b.tokens == Refilled(c, t[k], now) - (if r.1 then 1.0 else 0.0)
      && Refilled(c, b, now) == b.tokens
  {
    hide Gain;
    GainNothing(c.rate);
    GainNonNegative(now - t[k].last, c.rate);
  }

  lemma SameKeyFollows(c: Config, t: Table, ideal: Table, k: Addr, now: real, b: Bucket)
    requires Follows(c, t, ideal, now) && k in t && b.last == now && 0.0 <= b.tokens <= c.burst as real
    ensures Follows(c, t[k := b], ideal[k := b], now)
  {
    var t', more := t[k := b], ideal[k := b];
    KeyCount(t);
    KeyCount(t');
    assert t'.Keys == t.Keys;
    forall j | j in more && j !in t' ensures exists x :: x in t' && more[j].last + c.idle <= t'[x].last {
      var x :| x in t && ideal[j].last + c.idle <= t[x].last;
      OnlyOne(t, x, k);
      assert k in t';
    }
    forall j | j in t' ensures j in more && more[j] == t'[j] {
      OnlyOne(t, j, k);
    }
  }

  lemma Refuses(c: Config, t: Table, k: Addr, now: real)
    requires k !in t && |t| >= c.max && Fresh(t, now, c.idle).Keys == t.Keys
    ensures Allowed(c, t, k, now) == (t, false)
  {
    hide Gain;
    assert Fresh(t, now, c.idle) == t;
  }

  /** A new key in an empty table, or in one whose only bucket is idle. */
  lemma NewKeyFollows(c: Config, t: Table, ideal: Table, k: Addr, now: real)
    requires Sane(c) && c.burst >= 1 && c.max == 1 && RefillsInTwice(c) && Follows(c, t, ideal, now) && k !in t
    requires |t| == 0 || Fresh(t, now, c.idle).Keys != t.Keys
    ensures var r := Allowed(c, t, k, now);
      && r == (map[k := Bucket(c.burst as real - 1.0, now)], true)
      && Follows(c, r.0, ideal[k := r.0[k]], now)
      && Worth(c, ideal, k, now) == c.burst as real
  {
    hide Gain;
    GainNothing(c.rate);
    KeyCount(t);
    if |t| == 0 {
      assert t == map[];
      assert k !in ideal;
    } else {
      var f := Fresh(t, now, c.idle);
      KeyCount(f);
      var b := OnlyEvicted(c, t, now);
      assert f == map[];
      forall x | x in t ensures t[x].last + c.idle < now {
        OnlyOne(t, x, b);
      }
      if k in ideal {
        var b' :| b' in t && ideal[k].last + c.idle <= t[b'].last;
        OnlyOne(t, b, b');
        RefilledByThen(c, ideal[k], now);
      }
    }
    var t' := map[k := Bucket(c.burst as real - 1.0, now)];
    NewKeyOthers(c, t, ideal, k, now, t');
  }

  lemma OnlyEvicted(c: Config, t: Table, now: real) returns (b: Addr)
    requires |t| == 1 && Fresh(t, now, c.idle).Keys != t.Keys
    ensures b in t && t[b].last + c.idle < now && Fresh(t, now, c.idle) == map[]
  {
    var f := Fresh(t, now, c.idle);
    assert f.Keys <= t.Keys;
    b :| b in t.Keys && b !in f.Keys;
    forall x | x in t ensures x == b {
      OnlyOne(t, x, b);
    }
  }

  lemma NewKeyOthers(c: Config, t: Table, ideal: Table, k: Addr, now: real, t': Table)
    requires Sane(c) && Follows(c, t, ideal, now) && k !in t && c.burst >= 1
    requires t' == map[k := Bucket(c.burst as real - 1.0, now)]
    requires forall b :: b in t ==> t[b].last + c.idle < now
    ensures Follows(c, t', ideal[k := t'[k]], now)
  {
    KeyCount(t');
    assert t'.Keys == {k};
    var more := ideal[k := t'[k]];
    forall j | j in more && j !in t' ensures exists b :: b in t' && more[j].last + c.idle <= t'[b].last {
      if j in t {
        assert more[j] == t[j];
      } else {
        var b :| b in t && ideal[j].last + c.idle <= t[b].last;
      }
      assert k in t';
    }
  }

  lemma FollowsLater(c: Config, t: Table, ideal: Table, now: real, later: real)
    requires Follows(c, t, ideal, now) && now <= later
    ensures Follows(c, t, ideal, later)
  {}

  lemma IdealBounds(c: Config, ideal: Table, t: Table, k: Addr, now: real)
    requires Sane(c) && Follows(c, t, ideal, now)
    ensures 0.0 <= Worth(c, ideal, k, now) <= c.burst as real
  {
    hide Gain;
    if k in ideal {
      GainNonNegative(now - ideal[k].last, c.rate);
    }
  }

  lemma IdealGrows(c: Config, t: Table, ideal: Table, k: Addr, now: real, later: real)
    requires Sane(c) && Follows(c, t, ideal, now) && now <= later
    ensures Worth(c, ideal, k, later) <= Worth(c, ideal, k, now) + Gain(later - now, c.rate)
  {
    hide Gain;
    GainNonNegative(later - now, c.rate);
    if k in ideal {
      GainAdds(later - now, now - ideal[k].last, c.rate);
      assert later - now + (now - ideal[k].last) == later - ideal[k].last;
    }
  }

  /** One arrival, in a table of one entry: it is admitted only against a token that an ideal bucket would have had. */
  lemma OneArrival(c: Config, t: Table, ideal: Table, a: Addr, now: real, k: Addr) returns (ideal': Table)
    requires Sane(c) && c.burst >= 1 && c.max == 1 && RefillsInTwice(c) && Follows(c, t, ideal, now)
    ensures var r := Allowed(c, t, a, now);
      && Follows(c, r.0, ideal', now)
      && Worth(c, ideal', k, now) == Worth(c, ideal, k, now) - if r.1 && a == k then 1.0 else 0.0
  {
    hide Gain, Fresh;
    if a in t {
      BucketAfter(c, t, a, now);
      var b := Allowed(c, t, a, now).0[a];
      SameKeyFollows(c, t, ideal, a, now, b);
      ideal' := ideal[a := b];
      hide Allowed, Refilled;
      assert ideal[a] == t[a];
      hide Follows;
    } else if |t| >= 1 && Fresh(t, now, c.idle).Keys == t.Keys {
      Refuses(c, t, a, now);
      ideal' := ideal;
    } else {
      NewKeyFollows(c, t, ideal, a, now);
      hide Follows, Allowed;
      ideal' := ideal[a := Allowed(c, t, a, now).0[a]];
      GainNothing(c.rate);
    }
  }

  lemma {:induction false} IdealPays(c: Config, t: Table, ideal: Table, arrivals: seq<Arrival>, k: Addr, from: real, to: real)
    requires Sane(c) && c.burst >= 1 && c.max == 1 && RefillsInTwice(c) && Follows(c, t, ideal, from) && Clocked(arrivals, from, to)
    ensures Admitted(c, t, arrivals, k) as real <= Worth(c, ideal, k, from) + Gain(to - from, c.rate)
    ensures exists after :: Follows(c, AfterAll(c, t, arrivals), after, to)
    decreases |arrivals|
  {
    hide Follows, Allowed, Worth, Gain, RefillsInTwice;
    if arrivals == [] {
      IdealBounds(c, ideal, t, k, from);
      GainNonNegative(to - from, c.rate);
      FollowsLater(c, t, ideal, from, to);
      assert AfterAll(c, t, arrivals) == t;
    } else {
      var a := arrivals[0];
      var r := Allowed(c, t, a.key, a.now);
      IdealGrows(c, t, ideal, k, from, a.now);
      FollowsLater(c, t, ideal, from, a.now);
      var ideal' := OneArrival(c, t, ideal, a.key, a.now, k);
      IdealPays(c, r.0, ideal', arrivals[1..], k, a.now, to);
      var after :| Follows(c, AfterAll(c, r.0, arrivals[1..]), after, to);
      assert AfterAll(c, t, arrivals) == AfterAll(c, r.0, arrivals[1..]);
      GainAdds(a.now - from, to - a.now, c.rate);
      assert a.now - from + (to - a.now) == to - from;
    }
  }

  lemma OneEntryIsBounded(c: Config)
    requires Sane(c) && c.burst >= 1 && c.max == 1 && RefillsInTwice(c)
    ensures AlwaysBounded(c)
  {
    hide Gain, AfterAll, Admitted, Worth, RefillsInTwice;
    forall before: seq<Arrival>, window: seq<Arrival>, k: Addr, start: real, from: real, to: real
      | Clocked(before, start, from) && Clocked(window, from, to)
      ensures RateBound(c, before, window, k, from, to)
    {
      assert Follows(c, map[], map[], start);
      hide Follows, Clocked;
      IdealPays(c, map[], map[], before, k, start, from);
      var t := AfterAll(c, map[], before);
      var ideal :| Follows(c, t, ideal, from);
      IdealPays(c, t, ideal, window, k, from, to);
      IdealBounds(c, ideal, t, k, from);
    }
  }

  /** A burst, a stranger once it is idle, and a burst again once the stranger is idle. */
  lemma OneEntryTwoBursts(c: Config, t: real)
    requires Sane(c) && c.burst >= 1 && c.max == 1 && t > c.idle
    ensures var window := Burst(V4(0), 0.0, c.burst) + ([Arrival(V4(1), t)] + Burst(V4(0), 2.0 * t, c.burst));
            Admitted(c, map[], window, V4(0)) == 2 * c.burst
  {
    hide Gain;
    var k, stranger := V4(0), Arrival(V4(1), t);
    FreshBurst(c, map[], k, 0.0);
    var t1: Table := map[][k := Bucket(0.0, 0.0)];
    AdmittedTwoParts(c, map[], Burst(k, 0.0, c.burst), [stranger] + Burst(k, 2.0 * t, c.burst), k);
    assert Fresh(t1, t, c.idle) == map[] && k in t1.Keys;
    GainNothing(c.rate);
    var t2: Table := map[V4(1) := Bucket(c.burst as real - 1.0, t)];
    assert Allowed(c, t1, V4(1), t).0 == t2;
    assert ([stranger] + Burst(k, 2.0 * t, c.burst))[1..] == Burst(k, 2.0 * t, c.burst);
    SecondBurst(c, t2, k, t);
  }

  lemma SecondBurst(c: Config, t2: Table, k: Addr, t: real)
    requires Sane(c) && c.burst >= 1 && c.max == 1 && t > c.idle && k != V4(1)
    requires t2 == map[V4(1) := Bucket(c.burst as real - 1.0, t)]
    ensures Admitted(c, t2, Burst(k, 2.0 * t, c.burst), k) == c.burst
  {
    hide Gain;
    var now := 2.0 * t;
    assert Fresh(t2, now, c.idle) == map[] && V4(1) in t2.Keys;
    GainNothing(c.rate);
    var first: Table := map[k := Bucket(c.burst as real - 1.0, now)];
    assert Allowed(c, t2, k, now) == (first, true);
    assert Burst(k, now, c.burst)[1..] == Burst(k, now, c.burst - 1);
    BurstAdmitted(c, first, k, now, c.burst - 1);
  }

  lemma OneEntryViolation(c: Config)
    requires Sane(c) && c.burst >= 1 && c.max == 1 && !RefillsInTwice(c)
    ensures !AlwaysBounded(c)
  {
    var t := TimeToEvictBeforeRefill(c.(idle := 2.0 * c.idle));
    hide Gain, Admitted;
    var window := Burst(V4(0), 0.0, c.burst) + ([Arrival(V4(1), t / 2.0)] + Burst(V4(0), 2.0 * (t / 2.0), c.burst));
    OneEntryTwoBursts(c, t / 2.0);
    assert Clocked([], 0.0, 0.0);
    assert Clocked(window, 0.0, t);
    assert AfterAll(c, map[], []) == map[];
    assert !RateBound(c, [], window, V4(0), 0.0, t);
  }

  /** The rate bound holds over all runs exactly when nothing can be admitted at all, when a table of one entry refills a
      bucket within twice the idle time, or when a larger one refills it within the idle time. */
  lemma BoundedExactly(c: Config)
    requires Sane(c) && c.max < 0x1_0000_0000
    ensures AlwaysBounded(c) <==>
              || c.burst == 0 || c.max == 0
              || (c.max == 1 && 2.0 * c.idle * c.rate >= c.burst as real)
              || (c.max >= 2 && c.idle * c.rate >= c.burst as real)
  {
    hide AlwaysBounded;
    if c.burst == 0 || c.max == 0 {
      NothingAdmittedIsBounded(c);
    } else if c.max == 1 {
      if RefillsInTwice(c) {
        OneEntryIsBounded(c);
      } else {
        OneEntryViolation(c);
      }
    } else {
      BoundedExactlyWhenRefilled(c);
    }
  }
}
