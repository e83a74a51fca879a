/** The other side of the rate limit: a source that keeps to its rate is not refused for want of tokens, whatever other sources
    send and however often the table is swept (internal/udp/limit.go). */
module SourceLimiterFair {
  import opened SourceLimiter

  /** Waiting adds rate times the wait, up to a full burst. */
  lemma WorthLater(c: Config, t: Table, k: Addr, now: real, later: real)
    requires c.Valid() && Inv(c, t, now) && now <= later
    ensures Worth(c, t, k, later) == Min(c.burst as real, Worth(c, t, k, now) + Gain(later - now, c.rate))
  {
    hide Gain;
    GainNonNegative(later - now, c.rate);
    if k in t {
      GainAdds(later - now, now - t[k].last, c.rate);
      assert later - now + (now - t[k].last) == later - t[k].last;
    }
  }

  /** How many of the arrivals are of key k. */
  function CountOf(arrivals: seq<Arrival>, k: Addr): nat {
    if arrivals == [] then 0
    else CountOf(arrivals[..|arrivals| - 1], k) + if arrivals[|arrivals| - 1].key == k then 1 else 0
  }

  /** So many tokens can be left at `now`, were every arrival of the key admitted. */
  ghost predicate Affords(c: Config, arrivals: seq<Arrival>, k: Addr, now: real, w: real) {
    && w <= c.burst as real
    && forall i :: 0 <= i < |arrivals| && arrivals[i].key == k ==>
         w <= c.burst as real + Gain(now - arrivals[i].now, c.rate) - CountOf(arrivals[i..], k) as real
  }

  /** What one arrival leaves room for, as seen from the one before it. */
  lemma AffordedSince(c: Config, arrivals: seq<Arrival>, a: Arrival, k: Addr, now: real, w: real, i: nat)
    requires i < |arrivals| && arrivals[i].key == k && Affords(c, arrivals + [a], k, now, w)
    ensures w - Gain(now - a.now, c.rate) + (if a.key == k then 1.0 else 0.0)
         <= c.burst as real + Gain(a.now - arrivals[i].now, c.rate) - CountOf(arrivals[i..], k) as real
  {
    var all, n := arrivals + [a], |arrivals|;
    assert all[i] == arrivals[i];
    CountOneMore(arrivals[i..], a, k);
    assert all[i..] == arrivals[i..] + [a];
    GainAdds(now - a.now, a.now - arrivals[i].now, c.rate);
    assert now - a.now + (a.now - arrivals[i].now) == now - arrivals[i].now;
    hide Gain, CountOf;
    assert w <= c.burst as real + Gain(now - all[i].now, c.rate) - CountOf(all[i..], k) as real;
  }

  lemma CountOneMore(arrivals: seq<Arrival>, a: Arrival, k: Addr)
    ensures CountOf(arrivals + [a], k) == CountOf(arrivals, k) + if a.key == k then 1 else 0
  {
    assert (arrivals + [a])[..|arrivals|] == arrivals;
  }

  lemma AffordedBefore(c: Config, arrivals: seq<Arrival>, a: Arrival, k: Addr, now: real, w: real)
    requires c.Valid() && a.now <= now && Affords(c, arrivals + [a], k, now, w)
    ensures Affords(c, arrivals, k, a.now, w - Gain(now - a.now, c.rate) + if a.key == k then 1.0 else 0.0)
  {
    hide Gain, CountOf;
    var all, n := arrivals + [a], |arrivals|;
    GainNonNegative(now - a.now, c.rate);
    if a.key == k {
      assert all[n] == a && all[n..] == [] + [a];
      CountOneMore([], a, k);
      assert w <= c.burst as real + Gain(now - all[n].now, c.rate) - CountOf(all[n..], k) as real;
    }
    forall i | 0 <= i < n && arrivals[i].key == k
      ensures w - Gain(now - a.now, c.rate) + (if a.key == k then 1.0 else 0.0)
           <= c.burst as real + Gain(a.now - arrivals[i].now, c.rate) - CountOf(arrivals[i..], k) as real
    {
      AffordedSince(c, arrivals, a, k, now, w, i);
    }
  }

  lemma ClockedFront(arrivals: seq<Arrival>, from: real, to: real)
    requires arrivals != [] && Clocked(arrivals, from, to)
    ensures var a := arrivals[|arrivals| - 1]; Clocked(arrivals[..|arrivals| - 1], from, a.now) && from <= a.now <= to
  {}

  lemma AfterLast(c: Config, t: Table, arrivals: seq<Arrival>)
    requires arrivals != []
    ensures var front, a := arrivals[..|arrivals| - 1], arrivals[|arrivals| - 1];
            AfterAll(c, t, arrivals) == Allowed(c, AfterAll(c, t, front), a.key, a.now).0
  {
    hide Allowed;
    var front, a := arrivals[..|arrivals| - 1], arrivals[|arrivals| - 1];
    assert arrivals == front + [a] && [a][1..] == [];
    AfterTwoParts(c, t, front, [a]);
  }

  /** The key is worth all that its arrivals can have left, from any table that does not know it. */
  lemma {:induction false} WorthAtLeast(c: Config, t: Table, arrivals: seq<Arrival>, k: Addr, from: real, now: real, w: real)
    requires c.Valid() && c.RefillsWhenIdle() && Inv(c, t, from) && k !in t
    requires Clocked(arrivals, from, now) && Affords(c, arrivals, k, now, w)
    ensures w <= Worth(c, AfterAll(c, t, arrivals), k, now)
    decreases |arrivals|
  {
    if arrivals != [] {
      hide Gain, Inv, Allowed, Worth, Affords, Clocked;
      var front, a := arrivals[..|arrivals| - 1], arrivals[|arrivals| - 1];
      ClockedFront(arrivals, from, now);
      assert arrivals == front + [a];
      var before := AfterAll(c, t, front);
      AffordedBefore(c, front, a, k, now, w);
      WorthAtLeast(c, t, front, k, from, a.now, w - Gain(now - a.now, c.rate) + if a.key == k then 1.0 else 0.0);
      RunKeeps(c, t, front, from, a.now);
      AllowedIsIdeal(c, before, a.key, a.now, k);
      AllowedKeeps(c, before, a.key, a.now);
      AfterLast(c, t, arrivals);
      WorthLater(c, AfterAll(c, t, arrivals), k, a.now, now);
      AtMostBurst(c, arrivals, k, now, w);
    }
  }

  lemma AtMostBurst(c: Config, arrivals: seq<Arrival>, k: Addr, now: real, w: real)
    requires Affords(c, arrivals, k, now, w)
    ensures w <= c.burst as real
  {
    hide Gain;
  }

  /** The arrivals of the key keep to the rate: up to the last of them, never more than burst + rate * elapsed. */
  ghost predicate Conforms(c: Config, arrivals: seq<Arrival>, k: Addr)
    requires arrivals != []
  {
    forall i :: 0 <= i < |arrivals| && arrivals[i].key == k ==>
      CountOf(arrivals[i..], k) as real <= c.burst as real + Gain(arrivals[|arrivals| - 1].now - arrivals[i].now, c.rate)
  }

  lemma ConformsAffords(c: Config, arrivals: seq<Arrival>, k: Addr)
    requires c.Valid() && arrivals != [] && Conforms(c, arrivals, k) && arrivals[|arrivals| - 1].key == k
    ensures Affords(c, arrivals[..|arrivals| - 1], k, arrivals[|arrivals| - 1].now, 1.0)
  {
    hide Gain, CountOf;
    var n := |arrivals| - 1;
    var front := arrivals[..n];
    forall i | 0 <= i < n && front[i].key == k
      ensures 1.0 <= c.burst as real + Gain(arrivals[n].now - front[i].now, c.rate) - CountOf(front[i..], k) as real
    {
      assert arrivals[i].key == k;
      assert arrivals[i..] == front[i..] + [arrivals[n]];
      CountOneMore(front[i..], arrivals[n], k);
    }
  }

  /** The last arrival is admitted if its source has kept to its rate so far, unless the table is full of other sources none of
      which has been idle long enough. */
  lemma ConformingIsAdmitted(c: Config, arrivals: seq<Arrival>, k: Addr, from: real, to: real)
    requires c.Valid() && c.RefillsWhenIdle() && Clocked(arrivals, from, to)
    requires arrivals != [] && Conforms(c, arrivals, k) && arrivals[|arrivals| - 1].key == k
    ensures var now := arrivals[|arrivals| - 1].now;
            var t := AfterAll(c, map[], arrivals[..|arrivals| - 1]);
      Allowed(c, t, k, now).1 || (k !in t && |t| >= c.max && Fresh(t, now, c.idle).Keys == t.Keys)
  {
    hide Gain, Allowed, Worth, Affords, Conforms, Clocked;
    var front, now := arrivals[..|arrivals| - 1], arrivals[|arrivals| - 1].now;
    ClockedFront(arrivals, from, to);
    ConformsAffords(c, arrivals, k);
    assert Inv(c, map[], from);
    WorthAtLeast(c, map[], front, k, from, now, 1.0);
    RunKeeps(c, map[], front, from, now);
    AllowedIsIdeal(c, AfterAll(c, map[], front), k, now, k);
  }
}
