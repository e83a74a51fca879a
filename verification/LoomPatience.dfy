/** The sender waits out a failure: after a post that failed it looks at its queues again only once the retry timer has fired,
    whatever is stored and however often it is woken meanwhile (send of internal/exporters/loom/shipper.go). */
module LoomPatience {
  import opened LoomQueues
  import opened LoomDelivery
  import opened LoomDeliveryLaws
  import opened LoomAccounts
  import opened LoomLink
  import opened LoomShipper
  import Spool = LoomSpool
  import Mem = LoomMem

  /** While the timer is armed, nothing but its firing disarms it. */
  lemma TimerStaysArmed(s: State, step: Step)
    requires Enabled(s, step) && s.retry && !step.TimerFires?
    ensures Next(s, step).retry
  {
    hide DocsOf, Without, Halved, Present, Fresh, Orphan, Again;
    if step.Act? {
      ActFrame(s, step.ok);
    }
  }

  /** Only a post that failed arms it, and it always does. */
  lemma TimerArmed(s: State, step: Step)
    requires Enabled(s, step)
    ensures step == Answer(Retry) ==> Next(s, step).retry && Next(s, step).sender.Waiting?
    ensures !s.retry && Next(s, step).retry ==> step == Answer(Retry)
  {
    hide DocsOf, Without, Halved, Present, Fresh, Orphan, Again;
    if step.Act? {
      ActFrame(s, step.ok);
    }
  }

  /** The step looks at a queue. */
  predicate Looks(step: Step) {
    step.CheckSpool? || step.CheckMem?
  }

  lemma ArmedDoesNotLook(s: State, step: Step)
    requires Awake(s) && s.retry && Looks(step)
    ensures !Enabled(s, step)
  {}

  lemma {:induction false} ArmedUntilFired(ss: seq<State>, steps: seq<Step>, i: nat, j: nat)
    requires Follows(ss, steps) && i <= j <= |steps| && ss[i].retry
    requires forall k :: i <= k < j ==> !steps[k].TimerFires?
    ensures ss[j].retry
    decreases j
  {
    hide Enabled, Next;
    if i < j {
      ArmedUntilFired(ss, steps, i, j - 1);
      assert Enabled(ss[j - 1], steps[j - 1]) && ss[j] == Next(ss[j - 1], steps[j - 1]);
      TimerStaysArmed(ss[j - 1], steps[j - 1]);
    }
  }

  /** Between a post that failed and the next look at either queue the timer fires: in every run, from every start. */
  lemma WaitsOutFailure(ss: seq<State>, steps: seq<Step>, i: nat, j: nat)
    requires Follows(ss, steps) && Start(ss[0]) && i < j < |steps| && steps[i] == Answer(Retry) && Looks(steps[j])
    ensures exists k :: i < k < j && steps[k].TimerFires?
  {
    hide Enabled, Next, Start, Awake, Looks;
    assert Enabled(ss[i], steps[i]) && ss[i + 1] == Next(ss[i], steps[i]);
    TimerArmed(ss[i], steps[i]);
    if forall k :: i < k < j ==> !steps[k].TimerFires? {
      ArmedUntilFired(ss, steps, i + 1, j);
      RunStaysAwake(ss, steps, j);
      ArmedDoesNotLook(ss[j], steps[j]);
    }
  }

  // ---- the shipper --------------------------------------------------------------------------------------

  predicate LooksAt(e: Event) {
    e.LooksAtSpool? || e.LooksAtMem?
  }

  lemma SplitKeepsTimer(c: Shipper, w: Which, name: string, docs: seq<Doc>, okA: bool, okB: bool)
    ensures Split(c, w, name, docs, okA, okB).retry == c.retry
  {
    hide Spool.AfterSplit, Mem.AfterSplit;
  }

  lemma TakenKeepsTimer(c: Shipper, w: Which, name: string, deleted: bool)
    ensures Taken(c, w, name, deleted).retry == c.retry
  {
    hide Spool.AfterRemove, Mem.AfterRemove;
  }

  lemma EventKeepsTimer(c: Shipper, e: Event)
    requires Happens(c, e) && !e.Timer? && !e.Replied?
    ensures After(c, e).retry == c.retry
  {
    hide Taken, Split, Spool.AfterPut, Spool.AfterOldest, Mem.AfterPut;
    match e
    case Reacts(okA, okB, deleted) =>
      SplitKeepsTimer(c, c.sender.w, c.sender.name, c.sender.docs, okA, okB);
      TakenKeepsTimer(c, c.sender.w, c.sender.name, deleted);
    case Drops(deleted) => TakenKeepsTimer(c, c.sender.w, c.sender.name, deleted);
    case _ =>
  }

  lemma ReplySetsTimer(c: Shipper, reply: Reply)
    requires Happens(c, Replied(reply))
    ensures After(c, Replied(reply)).retry == (c.retry || reply.Retry?)
  {}

  lemma {:induction false} ShipperArmed(cs: seq<Shipper>, es: seq<Event>, i: nat, j: nat)
    requires IsShipping(cs, es) && i <= j <= |es| && cs[i].retry && forall k :: i <= k < j ==> !es[k].Timer?
    ensures cs[j].retry
    decreases j
  {
    hide Happens, After, Starts;
    if i < j {
      ShipperArmed(cs, es, i, j - 1);
      assert Happens(cs[j - 1], es[j - 1]) && cs[j] == After(cs[j - 1], es[j - 1]);
      if es[j - 1].Replied? {
        ReplySetsTimer(cs[j - 1], es[j - 1].reply);
      } else {
        EventKeepsTimer(cs[j - 1], es[j - 1]);
      }
    }
  }

  lemma ArmedShipperIsIdle(c: Shipper, s: State)
    requires Shows(c, s) && Awake(s) && c.retry
    ensures c.sender.Idle?
  {
    hide SpoolShown, MemShown, IdInv, CountsShown, Names;
  }

  lemma LooksOnlyAwake(c: Shipper, e: Event)
    requires Happens(c, e) && LooksAt(e)
    ensures !c.sender.Idle?
  {}

  lemma ArmedDoesNotLookAt(cs: seq<Shipper>, es: seq<Event>, j: nat)
    requires IsShipping(cs, es) && j < |es| && cs[j].retry
    ensures cs[j].sender.Idle?
  {
    assert |cs| == |es| + 1;
    hide IsShipping, Shows, Awake, Enabled, Next, IdInv;
    var ss, steps := Shipping(cs, es, j);
    RunStaysAwake(ss, steps, j);
    ArmedShipperIsIdle(cs[j], ss[j]);
  }

  /** The same of the shipper on its two queues: after a failed post it looks at neither until the timer has fired. */
  lemma ShipperWaits(cs: seq<Shipper>, es: seq<Event>, i: nat, j: nat)
    requires IsShipping(cs, es) && i < j < |es| && es[i] == Replied(Retry) && LooksAt(es[j])
    ensures exists k :: i < k < j && es[k].Timer?
  {
    hide Happens, After, Starts, LooksAt;
    assert Happens(cs[i], es[i]) && cs[i + 1] == After(cs[i], es[i]);
    ReplySetsTimer(cs[i], Retry);
    LooksOnlyAwake(cs[j], es[j]);
    if forall k :: i < k < j ==> !es[k].Timer? {
      ShipperArmed(cs, es, i + 1, j);
      ArmedDoesNotLookAt(cs, es, j);
    }
  }
}
