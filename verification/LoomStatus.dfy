/** What a status code does: one round of drain by the number it is answered with, and a whole pass of drain as a run of
    the shipper (drain of internal/exporters/loom/shipper.go). */
module LoomStatus {
  import opened LoomQueues
  import opened LoomDelivery
  import opened LoomShipper
  import opened LoomDrain
  import S = LoomSpool
  import M = LoomMem

  /** The first batch has left its queue, and nothing else has. */
  ghost predicate FirstLeft(q: Queues, f: Found, q': Queues) {
    if f.inSpool then SpoolItems(q) != [] && SpoolItems(q') == SpoolItems(q)[1..] && MemItems(q') == MemItems(q)
    else MemItems(q) != [] && MemItems(q') == MemItems(q)[1..] && SpoolItems(q') == SpoolItems(q)
  }

  /** The first batch has given way to its halves, and nothing else has changed. */
  ghost predicate FirstHalved(q: Queues, f: Found, q': Queues) {
    if f.inSpool then
      SpoolItems(q) != [] && SpoolItems(q') == Halves(SpoolItems(q)[0]) + SpoolItems(q)[1..] && MemItems(q') == MemItems(q)
    else
      MemItems(q) != [] && MemItems(q') == Halves(MemItems(q)[0]) + MemItems(q)[1..] && SpoolItems(q') == SpoolItems(q)
  }

  predicate CanHalve(f: Found, r: Round) {
    |f.docs| >= 2 && (f.inSpool ==> r.okA && r.okB)
  }

  /** What the answer to a post of the first batch leads to: the queues after it, the fates it gives, and whether drain goes on. */
  ghost predicate Outcome(r: Round, q: Queues, f: Found, q': Queues, x: seq<Fate>, goes: bool, k: nat) {
    match r.answer
    case NoAnswer => q' == q && x == [] && !goes
    case Status(code, _) =>
      && (200 <= code <= 299 ==> FirstLeft(q, f, q') && x == [Delivered(f.docs, k)] && goes)
      && (code == 400 || code == 415 ==> FirstLeft(q, f, q') && x == [Fate.Rejected(f.docs, k)] && goes)
      && (code == 413 && CanHalve(f, r) ==> FirstHalved(q, f, q') && x == [] && goes)
      && (code == 413 && !CanHalve(f, r) ==> FirstLeft(q, f, q') && x == [Fate.Refused(f.docs, k)] && goes)
      && (code < 200 || (code > 299 && code != 400 && code != 413 && code != 415) ==> q' == q && x == [] && !goes)
  }

  lemma TakenOffLeaves(q: Queues, f: Found, deleted: bool, t: nat)
    requires Ready(q, t) && IsFirst(f, q)
    ensures FirstLeft(q, f, TakenOff(q, f, deleted))
  {
    FirstIsQueued(q, f);
    hide Ready, IsFirst, TakenOff, SpoolItems, MemItems;
    TakeOffKeeps(q, f, deleted, t);
  }

  lemma SplitHalves(q: Queues, f: Found, r: Round, t: nat)
    requires Ready(q, t) && IsFirst(f, q)
    ensures var (q', split) := SplitOf(q, f, r);
      && split == CanHalve(f, r)
      && (split ==> FirstHalved(q, f, q'))
      && (!split ==> FirstLeft(q, f, TakenOff(q', f, r.deleted)))
  {
    FirstIsQueued(q, f);
    hide Ready, IsFirst, TakenOff, SplitOf, SpoolItems, MemItems, Halves;
    SplitKeepsReady(q, f, r, t);
    var (q', split) := SplitOf(q, f, r);
    if !split {
      TakenOffLeaves(q', f, r.deleted, t);
    }
  }

  lemma PostByStatus(q: Queues, f: Found, r: Round, k: nat, t: nat)
    requires Ready(q, t) && IsFirst(f, q)
    ensures Outcome(r, q, f, AfterPost(q, f, r), PostFates(q, f, r, k), Settles(r.answer), k)
  {
    hide Ready, IsFirst, TakenOff, SplitOf, FirstLeft, FirstHalved, CanHalve;
    TakenOffLeaves(q, f, r.deleted, t);
    SplitHalves(q, f, r, t);
  }

  lemma FirstIsQueued(q: Queues, f: Found)
    requires IsFirst(f, q)
    ensures if f.inSpool then SpoolItems(q) != [] else MemItems(q) != []
  {
    hide SpoolItems, MemItems;
  }

  /** A round that has something to post: what the offer leaves, and then what the number of the status calls for. */
  lemma RoundByStatus(l: S.Limits, q: Queues, r: Round, k: nat, t: nat)
    requires Ready(q, t) && Offered(l, q, r).1.Some?
    ensures var (q1, f) := Offered(l, q, r);
            var x := RoundFates(l, q, r, k)[GoneIn(l, q, r)..];
      && IsFirst(f.value, q1)
      && Outcome(r, q1, f.value, AfterRound(l, q, r), x, Going(l, q, r), k)
      && ShippedIn(RoundFates(l, q, r, k))
         == if r.answer.Status? && 200 <= r.answer.code <= 299 then |f.value.docs| else 0
  {
    hide Ready, IsFirst, Offered, AfterPost, PostFates, Outcome, SpoolItems, LostFates, GoneIn, GivenUp, ShippedIn;
    var (q1, f) := Offered(l, q, r);
    OfferKeeps(l, q, r, t);
    PostByStatus(q1, f.value, r, k, t);
    RoundShips(l, q, r, k, t);
    Numbered(q1, f.value);
  }

  // ---- as the shipper runs it -------------------------------------------------------------------------

  /** What the shipper makes of an answer. */
  function ReplyOf(a: Answer): Reply {
    match a
    case NoAnswer => Reply.Retry
    case Status(code, _) =>
      if 200 <= code <= 299 then Reply.Accepted
      else if code == 413 then Reply.TooLarge
      else if code == 400 || code == 415 then Reply.Rejected
      else Reply.Retry
  }

  /** The shippers before and after each event. */
  ghost predicate Leads(cs: seq<Shipper>, es: seq<Event>) {
    |cs| == |es| + 1 && forall i :: 0 <= i < |es| ==> Happens(cs[i], es[i]) && cs[i + 1] == After(cs[i], es[i])
  }

  lemma OneEvent(cs: seq<Shipper>, es: seq<Event>, e: Event)
    requires Leads(cs, es) && Happens(cs[|es|], e)
    ensures Leads(cs + [After(cs[|es|], e)], es + [e])
  {
    hide Happens, After;
  }

  function QueuesOf(c: Shipper): Queues {
    Queues(c.sp, c.m)
  }

  /** What has been found waits to be posted. */
  predicate HandsOut(c: Shipper, f: Found) {
    c.sender == Out(if f.inSpool then SpoolLane else MemLane, f.name, f.docs)
  }

  /** All that a pass of drain may change is the queues, where the sender is, the timer and the counts. */
  predicate SameElse(c: Shipper, d: Shipper) {
    d == c.(sp := d.sp, m := d.m, sender := d.sender, retry := d.retry, shipped := d.shipped, given := d.given)
  }

  /** What a look at the spool finds, and then one at memory. */
  lemma LooksInTurn(c: Shipper, r: Round)
    requires c.sender.Looking?
    ensures var e := LooksAtSpool(r.now, r.readable);
            var d := After(c, e);
      && Happens(c, e) && (d.sender.SpoolEmpty? || LookedUp(c, r, d))
      && (d.sender.SpoolEmpty? ==> Happens(d, LooksAtMem) && LookedUp(c, r, After(d, LooksAtMem)))
  {
    var (sp, b) := S.AfterOldest(c.sp, c.lim, r.now, r.readable);
    hide S.AfterOldest;
    if b.None? {
      assert After(c, LooksAtSpool(r.now, r.readable)) == c.(sp := sp, sender := SpoolEmpty);
    }
  }

  /** The shipper holds what next offers. */
  ghost predicate LookedUp(c: Shipper, r: Round, d: Shipper) {
    var (q, f) := Offered(c.lim, QueuesOf(c), r);
    && d == c.(sp := q.sp, sender := d.sender) && q.m == c.m
    && (if f.None? then d.sender.Idle? else HandsOut(d, f.value))
  }

  lemma LooksUp(c: Shipper, r: Round) returns (cs: seq<Shipper>, es: seq<Event>)
    requires c.sender.Looking?
    ensures Leads(cs, es) && cs[0] == c && LookedUp(c, r, cs[|es|])
  {
    hide LookedUp, Happens, After;
    LooksInTurn(c, r);
    var e := LooksAtSpool(r.now, r.readable);
    var d := After(c, e);
    cs, es := [c, d], [e];
    if d.sender.SpoolEmpty? {
      OneEvent(cs, es, LooksAtMem);
      cs, es := cs + [After(d, LooksAtMem)], es + [LooksAtMem];
    }
  }

  lemma SplitIsSplitOf(c: Shipper, f: Found, r: Round)
    ensures var d := Split(c, if f.inSpool then SpoolLane else MemLane, f.name, f.docs, r.okA, r.okB);
            var (q, split) := SplitOf(QueuesOf(c), f, r);
      && QueuesOf(d) == q && d == c.(sp := d.sp, m := d.m, sender := d.sender)
      && d.sender == if split then Looking else Dropping(if f.inSpool then SpoolLane else MemLane, f.name, f.docs)
  {
    hide S.AfterSplit, M.AfterSplit;
  }

  lemma TakenIsTakenOff(c: Shipper, f: Found, deleted: bool)
    ensures var d := Taken(c, if f.inSpool then SpoolLane else MemLane, f.name, deleted);
            QueuesOf(d) == TakenOff(QueuesOf(c), f, deleted) && d == c.(sp := d.sp, m := d.m)
  {
    hide S.AfterRemove, M.AfterRemove;
  }

  /** The rest of a round whose post has been answered: the shipper's events do to the queues what drain does. */
  ghost predicate Dealt(c: Shipper, f: Found, r: Round, d: Shipper) {
    && QueuesOf(d) == AfterPost(QueuesOf(c), f, r) && SameElse(c, d)
    && d.sender == (if Settles(r.answer) then Looking else Idle)
    && d.retry == (c.retry || !Settles(r.answer))
    && d.shipped == c.shipped + ShippedIn(PostFates(QueuesOf(c), f, r, 0))
  }

  lemma PostShips(q: Queues, f: Found, r: Round)
    ensures ShippedIn(PostFates(q, f, r, 0)) == if ReplyOf(r.answer).Accepted? then |f.docs| else 0
  {
    hide SplitOf, PostFates, LogDocs, ShippedIn;
    PostDocs(q, f, r, 0);
  }

  /** The post comes back. */
  lemma Answered(c: Shipper, f: Found, r: Round)
    requires HandsOut(c, f)
    ensures Happens(c, Replied(ReplyOf(r.answer)))
    ensures var d := After(c, Replied(ReplyOf(r.answer)));
      if ReplyOf(r.answer).Retry? then d == c.(sender := Idle, retry := true)
      else d == c.(sender := Back(if f.inSpool then SpoolLane else MemLane, f.name, f.docs, ReplyOf(r.answer)))
  {}

  predicate ComesBack(c: Shipper, f: Found, r: Round) {
    && !ReplyOf(r.answer).Retry?
    && c.sender == Back(if f.inSpool then SpoolLane else MemLane, f.name, f.docs, ReplyOf(r.answer))
  }

  /** The answer takes the batch off. */
  lemma ReactsTaking(c: Shipper, f: Found, r: Round)
    requires ComesBack(c, f, r) && !ReplyOf(r.answer).TooLarge?
    ensures var e := Reacts(r.okA, r.okB, r.deleted); Happens(c, e) && Dealt(c, f, r, After(c, e))
  {
    hide Taken, Split, TakenOff, SplitOf, PostFates, ShippedIn;
    PostShips(QueuesOf(c), f, r);
    TakenIsTakenOff(c, f, r.deleted);
  }

  /** A 413: the halves go in, or the batch is left to be dropped. */
  lemma ReactsSplitting(c: Shipper, f: Found, r: Round)
    requires ComesBack(c, f, r) && ReplyOf(r.answer).TooLarge?
    ensures var e := Reacts(r.okA, r.okB, r.deleted);
      && Happens(c, e)
      && After(c, e) == Split(c, if f.inSpool then SpoolLane else MemLane, f.name, f.docs, r.okA, r.okB)
  {
    hide Split;
  }

  lemma HalvesIn(c: Shipper, f: Found, r: Round)
    requires ComesBack(c, f, r) && ReplyOf(r.answer).TooLarge? && SplitOf(QueuesOf(c), f, r).1
    ensures Dealt(c, f, r, After(c, Reacts(r.okA, r.okB, r.deleted)))
  {
    ReactsSplitting(c, f, r);
    hide Happens, After, Split, TakenOff, SplitOf, PostFates, ShippedIn;
    PostShips(QueuesOf(c), f, r);
    SplitIsSplitOf(c, f, r);
  }

  lemma DropsAfterwards(c: Shipper, f: Found, r: Round)
    requires ComesBack(c, f, r) && ReplyOf(r.answer).TooLarge? && !SplitOf(QueuesOf(c), f, r).1
    ensures var d := After(c, Reacts(r.okA, r.okB, r.deleted));
            Happens(d, Drops(r.deleted)) && Dealt(c, f, r, After(d, Drops(r.deleted)))
  {
    ReactsSplitting(c, f, r);
    var d := After(c, Reacts(r.okA, r.okB, r.deleted));
    hide Split, Taken, TakenOff, SplitOf, PostFates, ShippedIn, Reacted;
    PostShips(QueuesOf(c), f, r);
    SplitIsSplitOf(c, f, r);
    TakenIsTakenOff(d, f, r.deleted);
  }

  lemma DealtAfterReply(c: Shipper, c1: Shipper, f: Found, r: Round, d: Shipper)
    requires Dealt(c1, f, r, d) && c1 == c.(sender := c1.sender)
    ensures Dealt(c, f, r, d)
  {
    hide AfterPost, PostFates, ShippedIn;
  }

  lemma NotDealtWith(c: Shipper, f: Found, r: Round)
    requires ReplyOf(r.answer).Retry?
    ensures Dealt(c, f, r, c.(sender := Idle, retry := true))
  {
    hide TakenOff, SplitOf, PostFates, ShippedIn;
    PostShips(QueuesOf(c), f, r);
  }

  lemma Deals(c: Shipper, f: Found, r: Round) returns (cs: seq<Shipper>, es: seq<Event>)
    requires HandsOut(c, f)
    ensures Leads(cs, es) && cs[0] == c && Dealt(c, f, r, cs[|es|])
  {
    hide Happens, After, Dealt, SplitOf, ReplyOf;
    Answered(c, f, r);
    var c1 := After(c, Replied(ReplyOf(r.answer)));
    cs, es := [c, c1], [Replied(ReplyOf(r.answer))];
    if ReplyOf(r.answer).Retry? {
      NotDealtWith(c, f, r);
    } else {
      var e := Reacts(r.okA, r.okB, r.deleted);
      if ReplyOf(r.answer).TooLarge? {
        ReactsSplitting(c1, f, r);
        if SplitOf(QueuesOf(c1), f, r).1 {
          HalvesIn(c1, f, r);
        } else {
          DropsAfterwards(c1, f, r);
        }
      } else {
        ReactsTaking(c1, f, r);
      }
      OneEvent(cs, es, e);
      var d := After(c1, e);
      cs, es := cs + [d], es + [e];
      if ReplyOf(r.answer).TooLarge? && !SplitOf(QueuesOf(c1), f, r).1 {
        OneEvent(cs, es, Drops(r.deleted));
        cs, es := cs + [After(d, Drops(r.deleted))], es + [Drops(r.deleted)];
      }
      DealtAfterReply(c, c1, f, r, cs[|es|]);
    }
  }

  lemma Joined(cs: seq<Shipper>, es: seq<Event>, ds: seq<Shipper>, fs: seq<Event>)
    requires Leads(cs, es) && Leads(ds, fs) && cs[|es|] == ds[0]
    ensures var all := cs + ds[1..]; Leads(all, es + fs) && all[0] == cs[0] && all[|es + fs|] == ds[|fs|]
  {
    hide Happens, After;
    var all := cs + ds[1..];
    forall i | 0 <= i < |es + fs| ensures Happens(all[i], (es + fs)[i]) && all[i + 1] == After(all[i], (es + fs)[i]) {
      if i < |es| {
        assert all[i] == cs[i] && all[i + 1] == cs[i + 1] && (es + fs)[i] == es[i];
      } else {
        var j := i - |es|;
        assert all[i] == ds[j] && all[i + 1] == ds[j + 1] && (es + fs)[i] == fs[j];
      }
    }
  }

  /** The shipper after a whole round of drain. */
  ghost predicate RoundDone(c: Shipper, r: Round, d: Shipper) {
    && QueuesOf(d) == AfterRound(c.lim, QueuesOf(c), r) && SameElse(c, d)
    && d.sender == (if Going(c.lim, QueuesOf(c), r) then Looking else Idle)
    && d.retry == (c.retry || (Offered(c.lim, QueuesOf(c), r).1.Some? && !Settles(r.answer)))
    && d.shipped == c.shipped + ShippedIn(RoundFates(c.lim, QueuesOf(c), r, 0))
  }

  lemma RoundDoneIs(c: Shipper, r: Round, c1: Shipper, d: Shipper, t: nat)
    requires Ready(QueuesOf(c), t) && LookedUp(c, r, c1)
    requires var f := Offered(c.lim, QueuesOf(c), r).1; if f.None? then d == c1 else Dealt(c1, f.value, r, d)
    ensures RoundDone(c, r, d)
  {
    hide Ready, Offered, AfterPost, PostFates, RoundFates, ShippedIn;
    var (q, f) := Offered(c.lim, QueuesOf(c), r);
    RoundShips(c.lim, QueuesOf(c), r, 0, t);
    if f.Some? {
      OfferKeeps(c.lim, QueuesOf(c), r, t);
      Numbered(q, f.value);
      PostShips(q, f.value, r);
    }
  }

  /** A round of drain is a run of the shipper from one look at the spool to the next, or to its rest. */
  lemma RoundIsEvents(c: Shipper, r: Round, t: nat) returns (cs: seq<Shipper>, es: seq<Event>)
    requires c.sender.Looking? && Ready(QueuesOf(c), t)
    ensures Leads(cs, es) && cs[0] == c && RoundDone(c, r, cs[|es|])
  {
    hide Ready, Happens, After, Dealt, RoundDone, Offered;
    cs, es := LooksUp(c, r);
    var c1, f := cs[|es|], Offered(c.lim, QueuesOf(c), r).1;
    var d := c1;
    if f.Some? {
      var ds, fs := Deals(c1, f.value, r);
      Joined(cs, es, ds, fs);
      cs, es := cs + ds[1..], es + fs;
      d := cs[|es|];
    }
    RoundDoneIs(c, r, c1, d, t);
  }

  /** The shipper after n rounds of a pass that it began at c. */
  ghost predicate PassDoneAt(c: Shipper, qs: seq<Queues>, world: nat -> Round, n: nat, d: Shipper)
    requires n < |qs|
  {
    && QueuesOf(d) == qs[n] && SameElse(c, d)
    && d.sender == (if n == 0 || Going(c.lim, qs[n - 1], world(n - 1)) then Looking else Idle)
    && d.retry == (c.retry || (n > 0 && Offered(c.lim, qs[n - 1], world(n - 1)).1.Some? && !Settles(world(n - 1).answer)))
    && d.shipped == c.shipped + ShippedIn(LogOf(c.lim, qs, world, n))
  }

  lemma LogOneMore(l: S.Limits, qs: seq<Queues>, world: nat -> Round, n: nat, t: nat)
    requires 0 < n <= |qs| && Ready(qs[n - 1], t)
    ensures ShippedIn(LogOf(l, qs, world, n))
         == ShippedIn(LogOf(l, qs, world, n - 1)) + ShippedIn(RoundFates(l, qs[n - 1], world(n - 1), 0))
  {
    hide Ready, Offered, RoundFates, ShippedIn;
    RoundShips(l, qs[n - 1], world(n - 1), n - 1, t);
    RoundShips(l, qs[n - 1], world(n - 1), 0, t);
    LogTwoParts(LogOf(l, qs, world, n - 1), RoundFates(l, qs[n - 1], world(n - 1), n - 1));
  }

  lemma OneRoundOn(c: Shipper, qs: seq<Queues>, world: nat -> Round, n: nat, c1: Shipper, d: Shipper, t: nat)
    requires IsPass(c.lim, qs, world) && 0 < n < |qs| && Ready(qs[n - 1], t)
    requires PassDoneAt(c, qs, world, n - 1, c1) && RoundDone(c1, world(n - 1), d) && c1.sender.Looking?
    ensures PassDoneAt(c, qs, world, n, d)
  {
    LogOneMore(c.lim, qs, world, n, t);
    hide Ready, Offered, RoundFates, ShippedIn, LogOf, AfterRound, Settles;
  }

  /** A pass of drain is a run of the shipper: the same queues after each round, the same count shipped, and at its end the
      sender rests, with the timer armed if its last post failed. */
  lemma {:induction false} PassIsShipping(c: Shipper, qs: seq<Queues>, world: nat -> Round, n: nat, t: nat)
    returns (cs: seq<Shipper>, es: seq<Event>)
    requires c.sender.Looking? && IsPass(c.lim, qs, world) && qs[0] == QueuesOf(c) && n < |qs| && Ready(qs[0], t)
    ensures Leads(cs, es) && cs[0] == c && PassDoneAt(c, qs, world, n, cs[|es|])
    decreases n
  {
    if n == 0 {
      cs, es := [c], [];
    } else {
      cs, es := PassIsShipping(c, qs, world, n - 1, t);
      var c1 := cs[|es|];
      GoesOnLooking(c, qs, world, n - 1, c1);
      hide Ready, Happens, After, PassDoneAt, RoundDone, IsPass;
      PassReady(c.lim, qs, world, n - 1, t);
      var ds, fs := RoundIsEvents(c1, world(n - 1), t);
      Joined(cs, es, ds, fs);
      cs, es := cs + ds[1..], es + fs;
      OneRoundOn(c, qs, world, n, c1, cs[|es|], t);
    }
  }

  lemma GoesOnLooking(c: Shipper, qs: seq<Queues>, world: nat -> Round, n: nat, c1: Shipper)
    requires IsPass(c.lim, qs, world) && n + 1 < |qs| && PassDoneAt(c, qs, world, n, c1)
    ensures c1.sender.Looking? && QueuesOf(c1) == qs[n]
  {
    hide Offered, LogOf, ShippedIn, AfterRound, Going;
  }
}
