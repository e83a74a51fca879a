/** The start condition of the identity results is exact: when a batch found at the start can be halved into the name of
    another, some run queues two batches of one name. A crash inside a split leaves just that
    (internal/exporters/loom/spool.go). */
module LoomCollide {
  import opened LoomQueues
  import opened LoomDelivery
  import opened LoomDeliveryLaws
  import opened LoomAccounts

  ghost predicate RunsTo(s: State, t: State, ss: seq<State>, steps: seq<Step>) {
    Follows(ss, steps) && ss[0] == s && ss[|steps|] == t
  }

  /** Some enabled steps lead from s to t. */
  ghost predicate Reachable(s: State, t: State) {
    exists ss, steps :: RunsTo(s, t, ss, steps)
  }

  lemma ReachSelf(s: State)
    ensures Reachable(s, s)
  {
    assert RunsTo(s, s, [s], []);
  }

  lemma ReachStep(s: State, t: State, step: Step)
    requires Reachable(s, t) && Enabled(t, step)
    ensures Reachable(s, Next(t, step))
  {
    hide Enabled, Next;
    var ss, steps :| RunsTo(s, t, ss, steps);
    var more, longer := ss + [Next(t, step)], steps + [step];
    forall i | 0 <= i < |longer| ensures Enabled(more[i], longer[i]) && more[i + 1] == Next(more[i], longer[i]) {
      if i < |steps| {
        assert Enabled(ss[i], steps[i]);
      }
    }
    assert RunsTo(s, Next(t, step), more, longer);
  }

  // ---- halving into a taken name ------------------------------------------------------------------------

  /** In drain, with batch d the first that is kept, and a batch of name y behind it. */
  ghost predicate Facing(t: State, d: nat, it: Item, y: string, j: nat) {
    && t.sender.Checking? && d < |t.spool.items| && t.spool.items[d] == it
    && d < j < |t.spool.items| && t.spool.items[j].id == y
  }

  /** The batch is read, posted, refused as too large and halved in its place. */
  lemma HalvesIt(s: State, t: State, d: nat, it: Item, y: string, j: nat) returns (u: State)
    requires Reachable(s, t) && Facing(t, d, it, y, j) && |it.docs| >= 2
    ensures Reachable(s, u) && u.sender.Checking? && u.spool.items == Halves(it) + t.spool.items[d + 1..]
  {
    hide Reachable, Enabled, Next, Halves;
    ReadsIt(t, d, it);
    var a := Next(t, CheckSpool(d));
    ReachStep(s, t, CheckSpool(d));
    RefusedIt(a, it);
    var b := Next(a, Answer(TooLarge));
    ReachStep(s, a, Answer(TooLarge));
    HalvedFirst(b, it);
    u := Next(b, Act(true));
    ReachStep(s, b, Act(true));
    assert t.spool.items[d..][1..] == t.spool.items[d + 1..];
  }

  lemma ReadsIt(t: State, d: nat, it: Item)
    requires t.sender.Checking? && d < |t.spool.items| && t.spool.items[d] == it
    ensures Enabled(t, CheckSpool(d))
    ensures var a := Next(t, CheckSpool(d)); a.sender == Posting(SpoolLane, it) && a.spool.items == t.spool.items[d..]
  {
    hide DocsOf, Orphan;
  }

  lemma RefusedIt(a: State, it: Item)
    requires a.sender == Posting(SpoolLane, it)
    ensures Enabled(a, Answer(TooLarge))
    ensures var b := Next(a, Answer(TooLarge)); b.sender == Answered(SpoolLane, it, TooLarge) && b.spool == a.spool
  {}

  lemma HalvedFirst(b: State, it: Item)
    requires b.sender == Answered(SpoolLane, it, TooLarge) && b.spool.items != [] && b.spool.items[0] == it && |it.docs| >= 2
    ensures Enabled(b, Act(true))
    ensures var u := Next(b, Act(true)); u.sender.Checking? && u.spool.items == Halves(it) + b.spool.items[1..]
  {
    hide Halved;
    assert b.spool.items[0].id == it.id;
    HalvedAt(b.spool.items, it, 0);
    assert b.spool.items[..0] + Halves(it) + b.spool.items[1..] == Halves(it) + b.spool.items[1..];
  }

  /** Halving along the path that leads to the taken name ends with that name twice in the queue. */
  lemma {:induction false} Collides(s: State, t: State, d: nat, it: Item, y: string, j: nat) returns (u: State)
    requires Reachable(s, t) && Facing(t, d, it, y, j) && Reaches(it.id, |it.docs|, y)
    ensures Reachable(s, u) && !Distinct(u.spool.items)
    decreases |it.docs|
  {
    hide Reachable, Distinct;
    u := HalvesIt(s, t, d, it, y, j);
    var a, b := Halves(it)[0], Halves(it)[1];
    var k := j - d + 1;
    assert u.spool.items[0] == a && u.spool.items[1] == b && u.spool.items[k] == t.spool.items[j];
    if y == a.id {
      TwiceThere(u.spool.items, 0, k);
    } else if y == b.id {
      TwiceThere(u.spool.items, 1, k);
    } else if Reaches(a.id, |it.docs| / 2, y) {
      u := Collides(s, u, 0, a, y, k);
    } else {
      u := Collides(s, u, 1, b, y, k);
    }
  }

  lemma TwiceThere(items: seq<Item>, i: nat, k: nat)
    requires i < k < |items| && items[i].id == items[k].id
    ensures !Distinct(items)
  {}

  /** No batch stands before one it is a half of: so in a queue sorted by name. */
  ghost predicate HalvesBehind(items: seq<Item>) {
    forall i, j :: 0 <= i < j < |items| ==> !Descends(items[j].id, items[i].id)
  }

  lemma RelatedPair(s: State) returns (i: nat, j: nat)
    requires Start(s) && HalvesBehind(s.spool.items) && !Unrelated(s.spool)
    ensures i < j < |s.spool.items| && Reaches(s.spool.items[i].id, |s.spool.items[i].docs|, s.spool.items[j].id)
  {
    hide Reaches, Descends, DocsOf;
    var items := s.spool.items;
    var i', u :| 0 <= i' < |items| && u in s.spool.used && Reaches(items[i'].id, |items[i'].docs|, u);
    var it :| it in items && it.id == u;
    var j' :| 0 <= j' < |items| && items[j'] == it;
    i, j := i', j';
    ReachesDescends(items[i].id, |items[i].docs|, u);
    NoSelfDescent(u);
  }

  /** From a start with related names, some run queues one name twice. */
  lemma RelatedCollide(s: State) returns (u: State)
    requires Start(s) && HalvesBehind(s.spool.items) && !Unrelated(s.spool)
    ensures Reachable(s, u) && !Distinct(u.spool.items)
  {
    var i, j := RelatedPair(s);
    hide Reachable, HalvesBehind, Unrelated, DocsOf, IdsOf, Reaches;
    ReachSelf(s);
    ReachStep(s, s, StartWake);
    var a := Next(s, StartWake);
    ReachStep(s, a, TakeKick);
    var b := Next(a, TakeKick);
    assert b.sender.Checking? && b.spool == s.spool;
    u := Collides(s, b, i, s.spool.items[i], s.spool.items[j].id, j);
  }

  lemma ReachedIsDistinct(s: State, t: State)
    requires Initial(s) && Reachable(s, t)
    ensures Distinct(t.spool.items) && Distinct(t.mem.items)
  {
    var ss, steps :| RunsTo(s, t, ss, steps);
    hide Initial, Enabled, Next, Distinct;
    InFlightIdentity(ss, steps, |steps|);
  }

  /** The exact start condition: names stay unique in every run if and only if no batch found can be halved into the name
      of another. */
  lemma UniqueExactlyWhenUnrelated(s: State)
    requires Start(s) && HalvesBehind(s.spool.items)
    ensures (forall t :: Reachable(s, t) ==> Distinct(t.spool.items)) <==> Unrelated(s.spool)
  {
    hide Reachable, Distinct, HalvesBehind, Unrelated, Start;
    if Unrelated(s.spool) {
      forall t | Reachable(s, t) ensures Distinct(t.spool.items) {
        ReachedIsDistinct(s, t);
      }
    } else {
      var u := RelatedCollide(s);
    }
  }
}
