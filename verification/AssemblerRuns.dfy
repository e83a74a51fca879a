/** What every run of the attempt table keeps: its bounds, and that a key is reported
    again only after it has been forgotten. */
module AssemblerRuns {
  import opened Options
  import opened Bytes
  import opened Packets
  import opened Reassembly
  import opened Assembler
  import Frames

  // ---- bytes held by one attempt -----------------------------------------------------

  ghost function TotalBytes(m: Segments): (n: nat)
    decreases |m|
  {
    if m == map[] then 0
    else
      var o :| o in m;
      |m[o]| + TotalBytes(m - {o})
  }

  lemma {:induction false} TotalBytesSplit(m: Segments, o: nat)
    requires o in m
    ensures TotalBytes(m) == |m[o]| + TotalBytes(m - {o})
    decreases |m|
  {
    var q :| q in m && TotalBytes(m) == |m[q]| + TotalBytes(m - {q});
    if q != o {
      TotalBytesSplit(m - {q}, o);
      TotalBytesSplit(m - {o}, q);
      assert (m - {q}) - {o} == (m - {o}) - {q};
    }
  }

  lemma TotalBytesAdd(m: Segments, o: nat, d: seq<byte>)
    requires o !in m
    ensures TotalBytes(m[o := d]) == TotalBytes(m) + |d|
  {
    TotalBytesSplit(m[o := d], o);
    assert m[o := d] - {o} == m;
  }

  // ---- the invariant -------------------------------------------------------------------

  ghost predicate Bounded(at: Attempt) {
    && |at.segments| <= MAX_SEGMENTS
    && TotalBytes(at.segments) == at.stored <= MAX_CRYPTO_BYTES
    && forall o :: o in at.segments ==> o < MAX_CRYPTO_BYTES && at.segments[o] != []
  }

  /** A waiting attempt: within its caps, and without a complete hello. */
  ghost predicate Waiting(at: Attempt) {
    Bounded(at) && HelloOf(Contiguous(at.segments)) == None && !at.complete && at.hello == None
  }

  ghost predicate Sizes(s: State) {
    && s.pending.Keys !! s.completed.Keys
    && |s.pending| <= MAX_PENDING
    && |s.pending| + |s.completed| <= MAX_TRACKED
  }

  ghost predicate AllWaiting(pending: map<Key, Attempt>) {
    forall k :: k in pending ==> pending[k].key == k && Waiting(pending[k])
  }

  ghost predicate Inv(s: State) {
    Sizes(s) && AllWaiting(s.pending)
  }

  lemma StoreKeeps(at: Attempt, s: Frames.Segment)
    requires Bounded(at)
    ensures Bounded(Store(at, s))
  {
    if s.offset !in at.segments {
      TotalBytesAdd(at.segments, s.offset, s.data);
    }
  }

  lemma {:induction false} StoreAllKeeps(at: Attempt, ss: seq<Frames.Segment>)
    requires Bounded(at)
    ensures Bounded(StoreAll(at, ss))
  {
    hide Bounded, Store;
    if ss != [] {
      StoreAllKeeps(at, ss[..|ss| - 1]);
      StoreKeeps(StoreAll(at, ss[..|ss| - 1]), ss[|ss| - 1]);
    }
  }

  /** Storing segments changes nothing but the segments and their total. */
  lemma {:induction false} StoreAllFrame(at: Attempt, ss: seq<Frames.Segment>)
    ensures StoreAll(at, ss) == at.(segments := StoreAll(at, ss).segments, stored := StoreAll(at, ss).stored)
  {
    if ss != [] {
      StoreAllFrame(at, ss[..|ss| - 1]);
    }
  }

  ghost predicate SameIdentity(a: Attempt, b: Attempt) {
    a.key == b.key && a.firstSeen == b.firstSeen && a.complete == b.complete && a.hello == b.hello
  }

  lemma AbsorbFrame(at: Attempt, p: Packet, raw: seq<byte>, first: bool)
    ensures SameIdentity(at, Absorb(at, p, raw, first))
  {
    if p.frames.Some? {
      hide StoreAll;
      StoreAllFrame(Noted(Counted(at, raw, first), p.frames.value), p.frames.value.crypto);
    }
  }

  lemma AbsorbKeeps(at: Attempt, p: Packet, raw: seq<byte>, first: bool)
    requires Bounded(at)
    ensures Bounded(Absorb(at, p, raw, first))
  {
    hide StoreAll, Bounded;
    SameBounds(at, Counted(at, raw, first));
    if p.frames.Some? {
      var noted := Noted(Counted(at, raw, first), p.frames.value);
      SameBounds(at, noted);
      StoreAllKeeps(noted, p.frames.value.crypto);
    }
  }

  lemma SameBounds(a: Attempt, b: Attempt)
    requires Bounded(a) && a.segments == b.segments && a.stored == b.stored
    ensures Bounded(b)
  {}

  lemma PutBack(s: State, key: Key, at: Attempt)
    requires Inv(s) && key !in s.completed && at.key == key && Waiting(at)
    requires Admits(s, key)
    ensures Inv(s.(pending := s.pending[key := at]))
  {
    hide Waiting;
    KeyCount(s.pending);
    KeyCount(s.pending[key := at]);
    assert key in s.pending ==> s.pending[key := at].Keys == s.pending.Keys;
  }

  lemma MoveKeepsSizes(s: State, over: set<Key>, completed: map<Key, Time>)
    requires Sizes(s) && completed.Keys <= s.completed.Keys + over
    requires over <= s.pending.Keys || (|over| == 1 && |s.pending| + |s.completed| < MAX_TRACKED)
    ensures Sizes(s.(pending := s.pending - over, completed := completed))
  {
    var p := s.pending - over;
    MoveSizes(s.pending.Keys, s.completed.Keys, over, completed.Keys);
    KeyCount(s.pending);
    KeyCount(s.completed);
    KeyCount(completed);
    KeyCount(p);
    assert p.Keys == s.pending.Keys - over;
  }

  /** Keys move from pending to completed, and completed keys may be forgotten. */
  lemma MoveKeeps(s: State, over: set<Key>, completed: map<Key, Time>)
    requires Inv(s) && completed.Keys <= s.completed.Keys + over
    requires over <= s.pending.Keys || (|over| == 1 && |s.pending| + |s.completed| < MAX_TRACKED)
    ensures Inv(s.(pending := s.pending - over, completed := completed))
  {
    hide Sizes, Waiting;
    MoveKeepsSizes(s, over, completed);
  }

  lemma KeyCount<K, V>(m: map<K, V>)
    ensures |m| == |m.Keys|
  {}

  lemma MoveSizes(p: set<Key>, c: set<Key>, over: set<Key>, left: set<Key>)
    requires left <= c + over
    ensures |p - over| <= |p|
    ensures |left| <= |c| + |over|
    ensures over <= p ==> |p - over| + |left| <= |p| + |c|
  {
    SubsetSize(left, c + over);
    SubsetSize(p - over, p);
    assert c + over == c + (over - c);
    SubsetSize(over - c, over);
    if over <= p {
      assert p == (p - over) + over;
    }
  }

  lemma ConcludedKeeps(s: State, key: Key, now: Time, at: Attempt)
    requires Inv(s) && key !in s.completed && at.key == key && Bounded(at) && !at.complete && at.hello == None
    requires Admits(s, key)
    ensures Inv(Concluded(s, key, now, at).0)
  {
    hide Bounded, Inv, Contiguous, HelloOf;
    var settled := at.(cryptoBytes := |Contiguous(at.segments)|);
    SameBounds(at, settled);
    if HelloOf(Contiguous(at.segments)).None? {
      PutBack(s, key, settled);
    } else {
      MoveKeeps(s, {key}, s.completed[key := now]);
    }
  }

  /** There is room in the table, or the attempt is in it already. */
  ghost predicate Admits(s: State, key: Key) {
    key in s.pending || (|s.pending| + |s.completed| < MAX_TRACKED && |s.pending| < MAX_PENDING)
  }

  /** Add keeps the invariant; what it reports was not completed before and is completed, at this time, after. */
  lemma AddedKeeps(s: State, key: Key, now: Time, p: Packet, raw: seq<byte>, first: bool)
    requires Inv(s)
    ensures var r := Added(s, key, now, p, raw, first);
      && Inv(r.0)
      && (r.1.Some? ==> r.1.value.key == key && key !in s.completed && key in r.0.completed && r.0.completed[key] == now)
      && (key in s.completed ==> r.0.completed == s.completed)
  {
    hide Waiting, Absorb, Concluded, NewAttempt;
    if key !in s.completed && Admits(s, key) {
      AdmittedKeeps(s, key, now, p, raw, first);
    }
  }

  lemma AdmittedKeeps(s: State, key: Key, now: Time, p: Packet, raw: seq<byte>, first: bool)
    requires Inv(s) && key !in s.completed && Admits(s, key)
    ensures var before := if key in s.pending then s.pending[key] else NewAttempt(key, now, p, raw);
            var r := Concluded(s, key, now, Absorb(before, p, raw, first));
      && Inv(r.0)
      && (r.1.Some? ==> r.1.value.key == key && key in r.0.completed && r.0.completed[key] == now)
  {
    hide Sizes, Bounded, Absorb, Contiguous, HelloOf, NewAttempt;
    var before := if key in s.pending then s.pending[key] else NewAttempt(key, now, p, raw);
    FreshBounded(key, now, p, raw);
    AbsorbKeeps(before, p, raw, first);
    AbsorbFrame(before, p, raw, first);
    ConcludedKeeps(s, key, now, Absorb(before, p, raw, first));
  }

  /** A packet of one key leaves every other key as it was. */
  lemma OthersUntouched(s: State, key: Key, now: Time, p: Packet, raw: seq<byte>, first: bool, k: Key)
    requires k != key
    ensures var r := Added(s, key, now, p, raw, first).0;
      && (k in r.completed <==> k in s.completed) && (k in s.completed ==> r.completed[k] == s.completed[k])
      && (k in r.pending <==> k in s.pending) && (k in s.pending ==> r.pending[k] == s.pending[k])
  {
    hide Absorb, Contiguous, HelloOf, NewAttempt;
  }

  lemma FreshBounded(key: Key, now: Time, p: Packet, raw: seq<byte>)
    ensures var at := NewAttempt(key, now, p, raw);
            Bounded(at) && at.key == key && !at.complete && at.hello == None
  {}

  lemma ExpireKeeps(s: State, now: Time)
    requires Inv(s)
    ensures Inv(AfterExpire(s, now))
  {
    hide Inv, GivenUp;
    MoveKeeps(s, TimedOut(s, now), AfterExpire(s, now).completed);
  }

  lemma ExpireReports(s: State, now: Time, at: Attempt)
    requires Inv(s) && at in ExpiredAttempts(s, now)
    ensures at.key !in s.completed
    ensures at.key in AfterExpire(s, now).completed && AfterExpire(s, now).completed[at.key] == now
  {
    hide Waiting, GivenUp;
    var k :| k in TimedOut(s, now) && at == GivenUp(s.pending[k]);
    GivenUpKey(s.pending[k]);
  }

  lemma GivenUpKey(at: Attempt)
    ensures GivenUp(at).key == at.key
  {}

  lemma SubsetSize<T>(a: set<T>, b: set<T>)
    requires a <= b
    ensures |a| <= |b|
  {
    assert b == a + (b - a);
  }

  // ---- runs ------------------------------------------------------------------------------

  datatype Event =
    | Arrive(key: Key, now: Time, packet: Packet, raw: seq<byte>, first: bool)
    | Sweep(now: Time)

  ghost function Next(s: State, e: Event): State {
    match e
    case Arrive(key, now, p, raw, first) => Added(s, key, now, p, raw, first).0
    case Sweep(now) => AfterExpire(s, now)
  }

  /** The attempts one event reports. */
  ghost function Reports(s: State, e: Event): set<Attempt> {
    match e
    case Arrive(key, now, p, raw, first) =>
      var r := Added(s, key, now, p, raw, first).1;
      if r.Some? then {r.value} else {}
    case Sweep(now) => ExpiredAttempts(s, now)
  }

  ghost function After(s: State, evs: seq<Event>): State {
    if evs == [] then s else Next(After(s, evs[..|evs| - 1]), evs[|evs| - 1])
  }

  lemma AfterOneMore(s: State, evs: seq<Event>, j: nat)
    requires j < |evs|
    ensures After(s, evs[..j + 1]) == Next(After(s, evs[..j]), evs[j])
  {
    assert evs[..j + 1][..j] == evs[..j];
  }

  lemma StepKeeps(s: State, e: Event)
    requires Inv(s)
    ensures Inv(Next(s, e))
  {
    match e
    case Arrive(key, now, p, raw, first) => AddedKeeps(s, key, now, p, raw, first);
    case Sweep(now) => ExpireKeeps(s, now);
  }

  /** The bounds hold after every run, from the empty table on. */
  lemma {:induction false} RunKeeps(s: State, evs: seq<Event>)
    requires Inv(s)
    ensures Inv(After(s, evs))
  {
    hide Inv, Next;
    if evs != [] {
      RunKeeps(s, evs[..|evs| - 1]);
      StepKeeps(After(s, evs[..|evs| - 1]), evs[|evs| - 1]);
    }
  }

  lemma EmptyTable()
    ensures Inv(State(map[], map[], 0, 0))
  {}

  /** A table as NewAssembler makes it stays within its bounds over every run. */
  lemma BoundedFromEmpty(evs: seq<Event>)
    ensures Inv(After(State(map[], map[], 0, 0), evs))
  {
    hide Inv, After;
    EmptyTable();
    RunKeeps(State(map[], map[], 0, 0), evs);
  }

  /** Event number i of a run reports key k. */
  ghost predicate ReportedAt(s: State, evs: seq<Event>, i: nat, k: Key)
    requires i < |evs|
  {
    exists at :: at in Reports(After(s, evs[..i]), evs[i]) && at.key == k
  }

  lemma StepReports(s: State, e: Event, k: Key)
    requires Inv(s) && exists at :: at in Reports(s, e) && at.key == k
    ensures k !in s.completed && k in Next(s, e).completed && Next(s, e).completed[k] == e.now
  {
    hide Inv, Added, AfterExpire, ExpiredAttempts;
    var at :| at in Reports(s, e) && at.key == k;
    match e
    case Arrive(key, now, p, raw, first) => AddedKeeps(s, key, now, p, raw, first);
    case Sweep(now) => ExpireReports(s, now, at);
  }

  /** Only a sweep, and only one late enough, forgets a completed key. */
  lemma StepRemembers(s: State, e: Event, k: Key)
    requires Inv(s) && k in s.completed
    requires e.Sweep? ==> e.now - s.completed[k] < COMPLETED_TTL
    ensures k in Next(s, e).completed && Next(s, e).completed[k] == s.completed[k]
  {
    hide Waiting, Added;
    match e
    case Arrive(key, now, p, raw, first) =>
      AddedKeeps(s, key, now, p, raw, first);
      if k != key {
        OthersUntouched(s, key, now, p, raw, first, k);
      }
    case Sweep(now) =>
      assert k !in TimedOut(s, now);
  }

  /** A sweep late enough to forget something completed at time t, strictly between two events of a run. */
  ghost predicate ForgottenBetween(evs: seq<Event>, i: nat, j: nat, t: Time) {
    exists m :: i < m < j && m < |evs| && evs[m].Sweep? && evs[m].now - t >= COMPLETED_TTL
  }

  lemma {:induction false} RemembersUntil(s: State, evs: seq<Event>, i: nat, j: nat, k: Key)
    requires Inv(s) && i < j <= |evs| && ReportedAt(s, evs, i, k)
    requires !ForgottenBetween(evs, i, j, evs[i].now)
    ensures k in After(s, evs[..j]).completed && After(s, evs[..j]).completed[k] == evs[i].now
    decreases j
  {
    hide Inv, Next, Reports;
    RunKeeps(s, evs[..j - 1]);
    assert evs[..j][..j - 1] == evs[..j - 1];
    if j == i + 1 {
      StepReports(After(s, evs[..i]), evs[i], k);
    } else {
      assert !ForgottenBetween(evs, i, j - 1, evs[i].now);
      RemembersUntil(s, evs, i, j - 1, k);
      StepRemembers(After(s, evs[..j - 1]), evs[j - 1], k);
    }
  }

  /** Between two reports of one key there is a sweep at least CompletedTTL after the first. */
  lemma ReportsSeparated(s: State, evs: seq<Event>, i: nat, j: nat, k: Key)
    requires Inv(s) && i < j < |evs|
    requires ReportedAt(s, evs, i, k) && ReportedAt(s, evs, j, k)
    ensures ForgottenBetween(evs, i, j, evs[i].now)
  {
    hide Inv, Next, Reports;
    if !ForgottenBetween(evs, i, j, evs[i].now) {
      RemembersUntil(s, evs, i, j, k);
      RunKeeps(s, evs[..j]);
      StepReports(After(s, evs[..j]), evs[j], k);
      assert false;
    }
  }
}
