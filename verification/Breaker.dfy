/** The conntrack circuit breaker: ctBreaker of internal/udp/server.go and its use in
    `redirected`, which the one receiving loop calls a datagram at a time. */
module Breaker {

  /** Nanoseconds. */
  type Time = int

  const FAILURES_BEFORE_PAUSE: nat := 3
  const PAUSE: Time := 30_000_000_000

  datatype State = State(streak: nat, pausedUntil: Time)

  datatype Lookup = Found | NotFound | Failed

  function Recorded(s: State, now: Time, r: Lookup): State {
    if r != Failed then s.(streak := 0)
    else if s.streak + 1 >= FAILURES_BEFORE_PAUSE then State(0, now + PAUSE)
    else s.(streak := s.streak + 1)
  }

  class CtBreaker {
    var streak: nat
    var pausedUntil: Time

    ghost function View(): State
      reads this
    {
      State(streak, pausedUntil)
    }

    method Allow(now: Time) returns (ok: bool)
      ensures ok <==> now >= pausedUntil
    {
      ok := !(now < pausedUntil);
    }

    method Record(now: Time, r: Lookup)
      modifies this
      ensures View() == Recorded(old(View()), now, r)
    {
      if r == Found || r == NotFound {
        streak := 0;
        return;
      }
      streak := streak + 1;
      if streak >= FAILURES_BEFORE_PAUSE {
        streak := 0;
        pausedUntil := now + PAUSE;
      }
    }

    /** The part of `redirected` between the address checks and the answer; `r` is what a lookup would give. */
    method Resolve(now: Time, r: Lookup) returns (lookedUp: bool)
      modifies this
      ensures (View(), lookedUp) == Resolved(old(View()), Datagram(now, r))
      ensures lookedUp <==> old(pausedUntil) <= now
    {
      var ok := Allow(now);
      if !ok {
        return false;
      }
      Record(now, r);
      return true;
    }
  }

  /** A datagram that reaches the breaker, and what a lookup for it would give. */
  datatype Datagram = Datagram(now: Time, lookup: Lookup)

  function Resolved(s: State, d: Datagram): (State, bool) {
    if d.now < s.pausedUntil then (s, false) else (Recorded(s, d.now, d.lookup), true)
  }

  function AfterAll(s: State, ds: seq<Datagram>): State {
    if ds == [] then s else Resolved(AfterAll(s, ds[..|ds| - 1]), ds[|ds| - 1]).0
  }

  /** The lookups made for a sequence of datagrams. */
  function Lookups(s: State, ds: seq<Datagram>): nat {
    if ds == [] then 0
    else Lookups(s, ds[..|ds| - 1]) + if Resolved(AfterAll(s, ds[..|ds| - 1]), ds[|ds| - 1]).1 then 1 else 0
  }

  /** Every datagram lies in the window and every lookup fails; times may go back and forth inside it. */
  ghost predicate FailingWindow(ds: seq<Datagram>, from: Time, to: Time) {
    from <= to && forall i :: 0 <= i < |ds| ==> from <= ds[i].now <= to && ds[i].lookup == Failed
  }

  lemma {:induction false} StreakStaysShort(s: State, ds: seq<Datagram>)
    requires s.streak < FAILURES_BEFORE_PAUSE
    ensures AfterAll(s, ds).streak < FAILURES_BEFORE_PAUSE
  {
    if ds != [] {
      StreakStaysShort(s, ds[..|ds| - 1]);
    }
  }

  /** g pauses were begun in the window: g of them take up 30 seconds each, all but the last of them inside it. */
  lemma {:induction false} PausesSpread(s: State, ds: seq<Datagram>, from: Time, to: Time) returns (g: nat)
    requires s.streak < FAILURES_BEFORE_PAUSE && FailingWindow(ds, from, to)
    ensures var e := AfterAll(s, ds);
      && s.streak + Lookups(s, ds) == 3 * g + e.streak
      && (g > 0 ==> from + g * PAUSE <= e.pausedUntil && (g - 1) * PAUSE <= to - from)
      && (e.streak > 0 && g > 0 ==> Lookups(s, ds) > 0)
      && (g == 0 ==> e.pausedUntil == s.pausedUntil)
      && (g > 0 && e.streak > 0 ==> g * PAUSE <= to - from)
  {
    if ds == [] {
      g := 0;
    } else {
      StreakStaysShort(s, ds[..|ds| - 1]);
      g := PausesSpread(s, ds[..|ds| - 1], from, to);
      var e := AfterAll(s, ds[..|ds| - 1]);
      var d := ds[|ds| - 1];
      if d.now >= e.pausedUntil && e.streak + 1 >= FAILURES_BEFORE_PAUSE {
        g := g + 1;
      }
    }
  }

  /** At most three lookups for every pause that fits the window, and three more. */
  function Bound(elapsed: nat): (n: nat) {
    3 * (elapsed / PAUSE + 1)
  }

  lemma LookupsBounded(s: State, ds: seq<Datagram>, from: Time, to: Time)
    requires s.streak < FAILURES_BEFORE_PAUSE && FailingWindow(ds, from, to)
    ensures Lookups(s, ds) <= Bound(to - from)
  {
    StreakStaysShort(s, ds);
    var g := PausesSpread(s, ds, from, to);
  }

  // ---- the bound is reached ---------------------------------------------------------------

  /** Three datagrams at the start of every pause's length. */
  function Bursts(from: Time, n: nat): (ds: seq<Datagram>)
    ensures |ds| == 3 * n
    ensures forall i :: 0 <= i < |ds| ==> ds[i].lookup == Failed && from <= ds[i].now <= from + n * PAUSE
    ensures n > 0 ==> forall i :: 0 <= i < |ds| ==> ds[i].now <= from + (n - 1) * PAUSE
  {
    if n == 0 then []
    else
      var d := Datagram(from + (n - 1) * PAUSE, Failed);
      Bursts(from, n - 1) + [d] + [d] + [d]
  }

  lemma Push(s: State, ds: seq<Datagram>, d: Datagram)
    ensures AfterAll(s, ds + [d]) == Resolved(AfterAll(s, ds), d).0
    ensures Lookups(s, ds + [d]) == Lookups(s, ds) + if Resolved(AfterAll(s, ds), d).1 then 1 else 0
  {
    assert (ds + [d])[..|ds|] == ds;
  }

  /** Three failures at one time, once no pause is on: three lookups, and a pause. */
  lemma OneBurst(s: State, ds: seq<Datagram>, d: Datagram)
    requires AfterAll(s, ds) == State(0, AfterAll(s, ds).pausedUntil) && AfterAll(s, ds).pausedUntil <= d.now
    requires d.lookup == Failed
    ensures Lookups(s, ds + [d] + [d] + [d]) == Lookups(s, ds) + 3
    ensures AfterAll(s, ds + [d] + [d] + [d]) == State(0, d.now + PAUSE)
  {
    hide AfterAll, Lookups;
    Push(s, ds, d);
    Push(s, ds + [d], d);
    Push(s, ds + [d] + [d], d);
  }

  lemma {:induction false} BurstsAllLookedUp(from: Time, n: nat)
    ensures Lookups(State(0, from), Bursts(from, n)) == 3 * n
    ensures AfterAll(State(0, from), Bursts(from, n)) == State(0, from + n * PAUSE)
  {
    if n > 0 {
      BurstsAllLookedUp(from, n - 1);
      hide AfterAll, Lookups;
      OneBurst(State(0, from), Bursts(from, n - 1), Datagram(from + (n - 1) * PAUSE, Failed));
    }
  }

  /** For every length of window some run makes exactly as many lookups as the bound allows. */
  lemma BoundIsReached(from: Time, elapsed: nat)
    ensures var ds := Bursts(from, elapsed / PAUSE + 1);
            FailingWindow(ds, from, from + elapsed) && Lookups(State(0, from), ds) == Bound(elapsed)
  {
    BurstsAllLookedUp(from, elapsed / PAUSE + 1);
    assert elapsed / PAUSE * PAUSE <= elapsed;
  }

  // ---- when it pauses -----------------------------------------------------------------------

  /** The lookups that were made, in order. */
  function Made(s: State, ds: seq<Datagram>): seq<Datagram> {
    if ds == [] then []
    else
      var d := ds[|ds| - 1];
      Made(s, ds[..|ds| - 1]) + if Resolved(AfterAll(s, ds[..|ds| - 1]), d).1 then [d] else []
  }

  /** The last k lookups failed, and the one before them, if any, did not. */
  ghost predicate FailedInARow(ms: seq<Datagram>, k: nat) {
    && k <= |ms| && (forall i :: |ms| - k <= i < |ms| ==> ms[i].lookup == Failed)
    && (k < |ms| ==> ms[|ms| - 1 - k].lookup != Failed)
  }

  /** Lookup number j was a third failure in a row, or a sixth, a ninth, and so on. */
  ghost predicate TripsAt(ms: seq<Datagram>, j: int) {
    0 <= j < |ms| && exists k: nat :: k > 0 && k % 3 == 0 && FailedInARow(ms[..j + 1], k)
  }

  /** The time is thirty seconds after the last lookup that tripped it, or t if none has. */
  ghost predicate PausedTill(ms: seq<Datagram>, t: Time, until: Time) {
    if exists j :: TripsAt(ms, j) then exists j :: LastTrip(ms, j) && until == ms[j].now + 30_000_000_000
    else until == t
  }

  ghost predicate LastTrip(ms: seq<Datagram>, j: int) {
    TripsAt(ms, j) && forall i :: j < i < |ms| ==> !TripsAt(ms, i)
  }

  ghost predicate Tracks(s: State, ms: seq<Datagram>, t: Time) {
    PausedTill(ms, t, s.pausedUntil) && exists k: nat :: FailedInARow(ms, k) && s.streak == k % 3
  }

  lemma TripsEarlier(ms: seq<Datagram>, d: Datagram, j: int)
    requires 0 <= j < |ms|
    ensures TripsAt(ms + [d], j) == TripsAt(ms, j)
  {
    hide FailedInARow;
    assert (ms + [d])[..j + 1] == ms[..j + 1];
  }

  lemma OneFailureMore(ms: seq<Datagram>, d: Datagram, k: nat)
    requires FailedInARow(ms, k)
    ensures FailedInARow(ms + [d], if d.lookup == Failed then k + 1 else 0)
  {}

  lemma RunUnique(ms: seq<Datagram>, k: nat, m: nat)
    requires FailedInARow(ms, k) && FailedInARow(ms, m)
    ensures k == m
  {}

  lemma TripsNow(ms: seq<Datagram>, d: Datagram, k: nat)
    requires FailedInARow(ms, k)
    ensures TripsAt(ms + [d], |ms|) <==> d.lookup == Failed && (k + 1) % 3 == 0
  {
    var more := ms + [d];
    var now := if d.lookup == Failed then k + 1 else 0;
    assert more[..|ms| + 1] == more;
    OneFailureMore(ms, d, k);
    forall m: nat | FailedInARow(more, m) ensures m == now {
      RunUnique(more, m, now);
    }
    hide FailedInARow;
  }

  lemma OneMorePause(ms: seq<Datagram>, t: Time, until: Time, d: Datagram)
    requires PausedTill(ms, t, until)
    ensures PausedTill(ms + [d], t, if TripsAt(ms + [d], |ms|) then d.now + 30_000_000_000 else until)
  {
    hide TripsAt;
    var more := ms + [d];
    forall j | 0 <= j < |ms| ensures TripsAt(more, j) == TripsAt(ms, j) {
      TripsEarlier(ms, d, j);
    }
    OutOfRange(more);
    OutOfRange(ms);
    if TripsAt(more, |ms|) {
      assert LastTrip(more, |ms|);
    } else if exists j :: TripsAt(ms, j) {
      var j :| LastTrip(ms, j) && until == ms[j].now + 30_000_000_000;
      assert LastTrip(more, j);
    }
  }

  lemma OneMoreTracked(s: State, ms: seq<Datagram>, t: Time, d: Datagram)
    requires Tracks(s, ms, t)
    ensures Tracks(Recorded(s, d.now, d.lookup), ms + [d], t)
  {
    hide FailedInARow, TripsAt, PausedTill;
    var k: nat :| FailedInARow(ms, k) && s.streak == k % 3;
    OneFailureMore(ms, d, k);
    TripsNow(ms, d, k);
    OneMorePause(ms, t, s.pausedUntil, d);
  }

  lemma OutOfRange(ms: seq<Datagram>)
    ensures forall j :: TripsAt(ms, j) ==> 0 <= j < |ms|
  {}

  /** Over every run of a breaker that starts anew, it is paused until thirty seconds after the last lookup that was a third
      failure in a row, whatever answers came between: a lookup that does not fail begins the count again. */
  lemma {:induction false} PausesExactly(t: Time, ds: seq<Datagram>)
    ensures Tracks(AfterAll(State(0, t), ds), Made(State(0, t), ds), t)
  {
    hide Tracks, Recorded;
    if ds == [] {
      NothingTracked(t);
    } else {
      PausesExactly(t, ds[..|ds| - 1]);
      var ms, d := Made(State(0, t), ds[..|ds| - 1]), ds[|ds| - 1];
      OneMoreTracked(AfterAll(State(0, t), ds[..|ds| - 1]), ms, t, d);
      assert ms + [] == ms;
    }
  }

  lemma NothingTracked(t: Time)
    ensures Tracks(State(0, t), [], t)
  {
    assert FailedInARow([], 0);
  }
}
