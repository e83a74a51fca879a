/** What every interleaving of batcher and sender keeps: no lost wake-up, the identity of the
    batch being posted, an account of every record, and the order of delivery. */
module LoomDeliveryLaws {
  import opened LoomQueues
  import opened LoomDelivery

  // ---- no lost wake-up ------------------------------------------------------------------------

  /** A wake that has been decided on and not yet made. */
  predicate WakeOwed(s: State) {
    s.batcher.Owes? || s.starting
  }

  /** Whatever is queued, the sender will look at it: a wake is in the slot or owed, the timer is armed, or the
      sender is in drain and has the check that covers that queue still before it. */
  ghost predicate Awake(s: State) {
    && (s.sender.Waiting? && (s.spool.items != [] || s.mem.items != []) ==> s.kick || s.retry || WakeOwed(s))
    && (s.sender.SpoolChecked? && s.spool.items != [] ==> s.kick || WakeOwed(s))
    && (!s.sender.Waiting? ==> !s.retry)
  }

  lemma StepStaysAwake(s: State, step: Step)
    requires Awake(s) && Enabled(s, step)
    ensures Awake(Next(s, step))
  {
    hide DocsOf, Without, Halved, Present, Fresh, Orphan;
    if step.Act? {
      ActFrame(s, step.ok);
    }
  }

  lemma ActFrame(s: State, ok: bool)
    requires Enabled(s, Act(ok))
    ensures var t := Next(s, Act(ok));
            (t.sender.Checking? || t.sender.Discarding?) && t.retry == s.retry
  {
    hide Without, Halved, Present, Again;
  }

  // ---- identities and the batch in flight --------------------------------------------------------

  ghost predicate Distinct(items: seq<Item>) {
    forall i, j :: 0 <= i < j < |items| ==> items[i].id != items[j].id
  }

  /** Queued identities are distinct, known, not yet delivered, and no half that can be made of them has been named. */
  ghost predicate IdsOk(l: Lane) {
    && Distinct(l.items)
    && (forall i :: 0 <= i < |l.items| ==> l.items[i].id in l.used && l.items[i].id !in l.sent)
    && Unrelated(l)
    && l.sent <= l.used
  }

  /** The batch being posted stands first in its queue, as it was read, or has been taken from it by a cap. */
  ghost predicate FirstOrGone(l: Lane, it: Item) {
    && it.id in l.used && it.id !in l.sent
    && forall i :: 0 <= i < |l.items| && l.items[i].id == it.id ==> i == 0 && l.items[0] == it
  }

  predicate Flying(sender: Sender) {
    sender.Posting? || sender.Answered? || sender.Discarding?
  }

  ghost predicate Ids(spool: Lane, mem: Lane, sender: Sender) {
    && IdsOk(spool) && IdsOk(mem)
    && (Flying(sender) ==> FirstOrGone(if sender.w.SpoolLane? then spool else mem, sender.it))
  }

  ghost predicate IdInv(s: State) {
    Ids(s.spool, s.mem, s.sender)
  }

  lemma {:induction false} ReachesDescends(id: string, n: nat, u: string)
    requires Reaches(id, n, u)
    ensures Descends(id, u)
    decreases n
  {
    hide Descends;
    HalfDescends(id, u, "a");
    HalfDescends(id, u, "b");
    if Reaches(id + "a", n / 2, u) {
      ReachesDescends(id + "a", n / 2, u);
    }
    if Reaches(id + "b", n - n / 2, u) {
      ReachesDescends(id + "b", n - n / 2, u);
    }
  }

  /** What reaches a half of x is x, or reaches x. */
  lemma {:induction false} ReachesHalf(y: string, m: nat, x: string, half: string)
    requires (half == "a" || half == "b") && Reaches(y, m, x + half)
    ensures y == x || Reaches(y, m, x)
    decreases m
  {
    var u := x + half;
    if u == y + "a" || u == y + "b" {
      assert x == u[..|x|] && (y + "a")[..|y|] == y && (y + "b")[..|y|] == y;
    } else if Reaches(y + "a", m / 2, u) {
      ReachesHalf(y + "a", m / 2, x, half);
    } else {
      ReachesHalf(y + "b", m - m / 2, x, half);
    }
  }

  lemma LoseIds(l: Lane, d: nat)
    requires IdsOk(l) && d <= |l.items|
    ensures IdsOk(l.(items := l.items[d..]))
  {
    hide Reaches;
    forall i | 0 <= i < |l.items[d..]| ensures l.items[d..][i] == l.items[i + d] {}
  }

  lemma LoseFlight(l: Lane, d: nat, it: Item)
    requires FirstOrGone(l, it) && d <= |l.items|
    ensures FirstOrGone(l.(items := l.items[d..]), it)
  {
    forall i | 0 <= i < |l.items[d..]| ensures l.items[d..][i] == l.items[i + d] {}
  }

  lemma AppendIds(l: Lane, id: string, docs: seq<Doc>, put: seq<Doc>)
    requires IdsOk(l) && Fresh(id, l.used)
    ensures IdsOk(l.(items := l.items + [Item(id, docs)], put := put, used := l.used + {id}))
  {
    hide Descends, Reaches;
    var r := l.(items := l.items + [Item(id, docs)], put := put, used := l.used + {id});
    forall i, u | 0 <= i < |r.items| && u in r.used ensures !Reaches(r.items[i].id, |r.items[i].docs|, u) {
      NoSelfDescent(id);
      if Reaches(r.items[i].id, |r.items[i].docs|, u) {
        ReachesDescends(r.items[i].id, |r.items[i].docs|, u);
      }
    }
  }

  lemma NoSelfDescent(id: string)
    ensures !Descends(id, id)
  {}

  lemma AppendFlight(l: Lane, id: string, docs: seq<Doc>, put: seq<Doc>, it: Item)
    requires FirstOrGone(l, it) && Fresh(id, l.used)
    ensures FirstOrGone(l.(items := l.items + [Item(id, docs)], put := put, used := l.used + {id}), it)
  {
    hide Descends;
  }

  /** With the posted batch first or gone, Remove leaves the queue without it. */
  lemma WithoutPosted(l: Lane, it: Item)
    requires FirstOrGone(l, it)
    ensures Without(l.items, it.id) == if Present(l, it) then l.items[1..] else l.items
    ensures Present(l, it) <==> l.items != [] && l.items[0] == it
  {
    if Present(l, it) {
      WithoutAt(l.items, it.id, 0);
    } else {
      WithoutAt(l.items, it.id, |l.items|);
    }
  }

  lemma TakeOffIds(l: Lane, it: Item, delivered: seq<Doc>, sent: set<string>)
    requires IdsOk(l) && FirstOrGone(l, it) && (sent == l.sent || sent == l.sent + {it.id})
    ensures IdsOk(l.(items := Without(l.items, it.id), delivered := delivered, sent := sent))
  {
    hide Reaches, Without;
    WithoutPosted(l, it);
    if Present(l, it) {
      forall i | 0 <= i < |l.items[1..]| ensures l.items[1..][i] == l.items[i + 1] {}
    }
  }

  lemma HalfDescends(x: string, y: string, half: string)
    requires half == "a" || half == "b"
    ensures Descends(x, x + half)
    ensures Descends(y, x + half) ==> y == x || Descends(y, x)
    ensures Descends(x + half, y) ==> Descends(x, y)
  {
    assert (x + half)[..|x|] == x && (x + half)[|x|..] == half;
    if Descends(y, x + half) && y != x {
      assert |y| <= |x|;
      assert (x + half)[..|y|] == x[..|y|];
      var p := (x + half)[|y|..];
      assert |y| < |x| ==> x[|y|..] == p[..|p| - 1];
    }
    if Descends(x + half, y) {
      assert y[..|x|] == y[..|x + half|][..|x|];
      assert y[|x|..] == half + y[|x| + 1..];
    }
  }

  lemma HalvedIds(l: Lane, it: Item)
    requires IdsOk(l) && l.items != [] && l.items[0] == it && |it.docs| >= 2
    ensures IdsOk(l.(items := Halves(it) + l.items[1..], used := l.used + {it.id + "a", it.id + "b"}))
  {
    hide Reaches;
    var a, b := it.id + "a", it.id + "b";
    var r := l.(items := Halves(it) + l.items[1..], used := l.used + {a, b});
    ReachesOwnHalves(it.id, |it.docs|);
    assert a[|it.id|] != b[|it.id|];
    forall i | 2 <= i < |r.items| ensures r.items[i] == l.items[i - 1] && r.items[i].id !in {a, b, it.id} {}
    forall i, u | 0 <= i < |r.items| && u in r.used ensures !Reaches(r.items[i].id, |r.items[i].docs|, u) {
      HalvesUnrelated(l, it, i, u);
    }
  }

  lemma ReachesOwnHalves(id: string, n: nat)
    requires n >= 2
    ensures Reaches(id, n, id + "a") && Reaches(id, n, id + "b")
  {}

  lemma HalvesUnrelated(l: Lane, it: Item, i: nat, u: string)
    requires IdsOk(l) && l.items != [] && l.items[0] == it && i < |l.items| + 1 && |it.docs| >= 2
    requires u in l.used || u == it.id + "a" || u == it.id + "b"
    ensures var x := (Halves(it) + l.items[1..])[i]; !Reaches(x.id, |x.docs|, u)
  {
    var x := (Halves(it) + l.items[1..])[i];
    if i < 2 {
      assert Reaches(x.id, |x.docs|, u) ==> Reaches(it.id, |it.docs|, u);
      hide Reaches, Descends;
      if u !in l.used && Reaches(x.id, |x.docs|, u) {
        ReachesDescends(x.id, |x.docs|, u);
        SameLength(x.id, u);
      }
    } else {
      hide Reaches;
      assert x == l.items[i - 1];
      if u !in l.used && Reaches(x.id, |x.docs|, u) {
        ReachesHalf(x.id, |x.docs|, it.id, if u == it.id + "a" then "a" else "b");
      }
    }
  }

  lemma SameLength(x: string, u: string)
    requires |x| == |u|
    ensures !Descends(x, u)
  {}

  lemma LoseKeepsIds(s: State, w: Which, d: nat)
    requires IdInv(s) && d <= |LaneOf(s, w).items|
    ensures IdInv(Lose(s, w, d))
  {
    hide IdsOk, FirstOrGone, DocsOf;
    LoseIds(LaneOf(s, w), d);
    if InFlight(s, w) {
      LoseFlight(LaneOf(s, w), d, s.sender.it);
    }
  }

  lemma AppendKeepsIds(s: State, w: Which, id: string, docs: seq<Doc>)
    requires IdInv(s) && Fresh(id, LaneOf(s, w).used)
    ensures IdInv(Append(s, w, id, docs))
  {
    hide IdsOk, FirstOrGone, Fresh;
    var l := LaneOf(s, w);
    AppendIds(l, id, docs, l.put + docs);
    if InFlight(s, w) {
      AppendFlight(l, id, docs, l.put + docs, s.sender.it);
    }
  }

  lemma PostedFirst(l: Lane)
    requires IdsOk(l) && l.items != []
    ensures FirstOrGone(l, l.items[0])
  {
    hide Reaches;
  }

  /** A queue changes while no post is out any more. */
  lemma LandedIds(s: State, w: Which, l: Lane, t: State)
    requires IdInv(s) && IdsOk(l) && !Flying(t.sender)
    requires t.spool == WithLane(s, w, l).spool && t.mem == WithLane(s, w, l).mem
    ensures IdInv(t)
  {
    hide IdsOk, FirstOrGone;
  }

  lemma FlightIds(s: State)
    requires IdInv(s) && Flying(s.sender)
    ensures IdsOk(LaneOf(s, s.sender.w)) && FirstOrGone(LaneOf(s, s.sender.w), s.sender.it)
  {
    hide IdsOk, FirstOrGone;
  }

  lemma AcceptKeepsIds(s: State)
    requires IdInv(s) && s.sender.Answered?
    ensures IdInv(Deliver(s, s.sender.w, s.sender.it))
  {
    hide IdInv, IdsOk, FirstOrGone, Without, Present;
    var w, it := s.sender.w, s.sender.it;
    var l := LaneOf(s, w);
    FlightIds(s);
    TakeOffIds(l, it, l.delivered + it.docs, l.sent + {it.id});
    LandedIds(s, w, l.(items := Without(l.items, it.id), delivered := l.delivered + it.docs, sent := l.sent + {it.id}),
              Deliver(s, w, it));
  }

  lemma TakeOffKeepsIds(s: State, t: State)
    requires IdInv(s) && Flying(s.sender)
    requires t == GiveUp(s, s.sender.w, s.sender.it)
    ensures IdInv(t)
  {
    hide IdInv, IdsOk, FirstOrGone, Without, Present;
    var w, it := s.sender.w, s.sender.it;
    var l := LaneOf(s, w);
    FlightIds(s);
    TakeOffIds(l, it, l.delivered, l.sent);
    LandedIds(s, w, l.(items := Without(l.items, it.id)), t);
  }

  lemma TooLargeKeepsIds(s: State, ok: bool)
    requires IdInv(s) && s.sender.Answered?
    ensures IdInv(SplitUp(s, s.sender.w, s.sender.it, ok))
  {
    hide IdsOk, FirstOrGone, Without, Halved, Present;
    var w, it := s.sender.w, s.sender.it;
    var l := LaneOf(s, w);
    WithoutPosted(l, it);
    if Present(l, it) {
      HalvedAt(l.items, it, 0);
      assert l.items[..0] + Halves(it) + l.items[1..] == Halves(it) + l.items[1..];
      if |it.docs| >= 2 {
        HalvedIds(l, it);
      }
    }
  }

  lemma StoreKeepsIds(s: State, w: Which, id: string, docs: seq<Doc>, lost: nat)
    requires IdInv(s) && lost <= |LaneOf(s, w).items| && Fresh(id, LaneOf(s, w).used)
    ensures IdInv(Append(Lose(s, w, lost), w, id, docs))
  {
    hide IdInv, Lose, Append, Fresh;
    LoseKeepsIds(s, w, lost);
    LoseFrame(s, w, lost);
    AppendKeepsIds(Lose(s, w, lost), w, id, docs);
  }

  lemma CheckKeepsIds(s: State, step: Step)
    requires IdInv(s) && (step.CheckSpool? || step.CheckMem?) && Enabled(s, step)
    ensures IdInv(Next(s, step))
  {
    hide IdsOk, FirstOrGone, Lose;
    if step.CheckSpool? {
      LoseKeepsIds(s, SpoolLane, step.lost);
      var t := Lose(s, SpoolLane, step.lost);
      if t.spool.items != [] {
        PostedFirst(t.spool);
      }
    } else if s.mem.items != [] {
      PostedFirst(s.mem);
    }
  }

  lemma AnswerKeepsIds(s: State, reply: Reply)
    requires IdInv(s) && s.sender.Posting?
    ensures IdInv(Next(s, Answer(reply)))
  {
    hide IdsOk, FirstOrGone;
  }

  lemma LandIds(s: State, t: State)
    requires IdInv(s) && t.spool == s.spool && t.mem == s.mem && !Flying(t.sender)
    ensures IdInv(t)
  {
    hide IdsOk, FirstOrGone;
  }

  /** In every interleaving the posted batch is first in its queue or gone from it, and identities stay unique
      through nested halving; so a batch answered with a 2xx is never queued or posted again. */
  lemma StepKeepsIds(s: State, step: Step)
    requires IdInv(s) && Enabled(s, step)
    ensures IdInv(Next(s, step))
  {
    hide Ids, GiveUp, Lose, Append, Fresh, Acted;
    match step
    case Encode(_) =>
    case SpoolStores(id, lost) => StoreKeepsIds(s, SpoolLane, id, s.inHand, lost);
    case SpoolRefuses(lost) => LoseKeepsIds(s, SpoolLane, lost);
    case MemStores(id, lost) => StoreKeepsIds(s, MemLane, id, s.batcher.docs, lost);
    case Wake =>
    case StartWake =>
    case TakeKick => LandIds(s, Next(s, step));
    case TimerFires => LandIds(s, Next(s, step));
    case CheckSpool(_) => CheckKeepsIds(s, step);
    case CheckMem => CheckKeepsIds(s, step);
    case Answer(reply) => AnswerKeepsIds(s, reply);
    case Act(ok) => ActKeepsIds(s, ok);
    case Discard => TakeOffKeepsIds(s, Next(s, step));
  }

  lemma ActKeepsIds(s: State, ok: bool)
    requires IdInv(s) && Enabled(s, Act(ok))
    ensures IdInv(Next(s, Act(ok)))
  {
    hide Ids, Deliver, GiveUp, SplitUp;
    match s.sender.reply
    case Accepted => AcceptKeepsIds(s);
    case Rejected => TakeOffKeepsIds(s, Next(s, Act(ok)));
    case TooLarge => TooLargeKeepsIds(s, ok);
  }

  lemma LoseFrame(s: State, w: Which, d: nat)
    requires d <= |LaneOf(s, w).items|
    ensures var t := Lose(s, w, d);
      && LaneOf(t, w) == LaneOf(s, w).(items := LaneOf(s, w).items[d..])
      && t.sender == s.sender && t.inHand == s.inHand && t.batcher == s.batcher
  {}
}
