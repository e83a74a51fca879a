/** The shipper on its two real queues: batcher and sender interleaved over a spool and a memory queue as the objects
    behave, step by step a run of the protocol (internal/exporters/loom/shipper.go). */
module LoomShipper {
  import opened Options
  import opened LoomNames
  import opened LoomQueues
  import opened LoomDelivery
  import opened LoomDeliveryLaws
  import opened LoomAccounts
  import opened LoomSpoolLaws
  import opened LoomReports
  import opened LoomSpoolOps
  import opened LoomLink
  import Spool = LoomSpool
  import Mem = LoomMem

  /** Where the sender is, with the name and the documents it has read. */
  datatype Hands =
    | Idle
    | Looking
    | SpoolEmpty
    | Out(w: Which, name: string, docs: seq<Doc>)
    | Back(w: Which, name: string, docs: seq<Doc>, reply: Reply)
    | Dropping(w: Which, name: string, docs: seq<Doc>)

  /** `hasSpool` is false when no directory could be used; `shipped` counts what was answered with a 2xx, `given` what was
      removed for another answer. */
  datatype Shipper = Shipper(
    lim: Spool.Limits, memMax: int, hasSpool: bool,
    inHand: seq<Doc>, batcher: Batcher, starting: bool, kick: bool, retry: bool,
    sp: Spool.State, clock: nat, m: Mem.State, sender: Hands,
    encoded: nat, shipped: nat, given: nat)

  datatype Event =
    | Encoded(doc: Doc)
    | PutSpool(env: Spool.PutEnv)
    | PutMem
    | Wakes
    | StartWakes
    | TakesKick
    | Timer
    | LooksAtSpool(now: Spool.Time, readable: string -> bool)
    | LooksAtMem
    | Replied(reply: Reply)
    | Reacts(okA: bool, okB: bool, deleted: bool)
    | Drops(deleted: bool)

  /** The clock does not go back, and a run puts fewer than a million batches. */
  predicate Happens(c: Shipper, e: Event) {
    match e
    case Encoded(_) => c.batcher.Collecting?
    case PutSpool(env) =>
      && c.batcher.Collecting? && c.inHand != []
      && (c.hasSpool ==> c.clock <= env.nameAt < INT64_LIMIT && c.sp.puts + 1 < SEQ_LIMIT)
    case PutMem => c.batcher.Refused?
    case Wakes => c.batcher.Owes?
    case StartWakes => c.starting
    case TakesKick => c.sender.Idle? && c.kick
    case Timer => c.sender.Idle? && c.retry
    case LooksAtSpool(_, _) => c.sender.Looking?
    case LooksAtMem => c.sender.SpoolEmpty?
    case Replied(_) => c.sender.Out?
    case Reacts(_, _, _) => c.sender.Back? && !c.sender.reply.Retry?
    case Drops(_) => c.sender.Dropping?
  }

  /** The named batch leaves its queue. */
  function Taken(c: Shipper, w: Which, name: string, deleted: bool): Shipper {
    if w.SpoolLane? then c.(sp := Spool.AfterRemove(c.sp, name, deleted).0) else c.(m := Mem.AfterRemove(c.m, name))
  }

  function Split(c: Shipper, w: Which, name: string, docs: seq<Doc>, okA: bool, okB: bool): Shipper {
    if w.SpoolLane? then
      var (sp, r) := Spool.AfterSplit(c.sp, name, docs, okA, okB);
      c.(sp := sp, sender := if r == Spool.Split then Looking else Dropping(w, name, docs))
    else
      var (m, split) := Mem.AfterSplit(c.m, name, docs);
      c.(m := m, sender := if split then Looking else Dropping(w, name, docs))
  }

  function Reacted(c: Shipper, w: Which, name: string, docs: seq<Doc>, reply: Reply, okA: bool, okB: bool, deleted: bool): Shipper {
    match reply
    case Accepted => Taken(c, w, name, deleted).(sender := Looking, shipped := c.shipped + |docs|)
    case Rejected => Taken(c, w, name, deleted).(sender := Looking, given := c.given + |docs|)
    case TooLarge => Split(c, w, name, docs, okA, okB)
    case Retry => c
  }

  function After(c: Shipper, e: Event): Shipper
    requires Happens(c, e)
  {
    match e
    case Encoded(doc) => c.(inHand := c.inHand + [doc], encoded := c.encoded + 1)
    case PutSpool(env) =>
      if !c.hasSpool then c.(inHand := [], batcher := Refused(c.inHand))
      else
        var (sp, r) := Spool.AfterPut(c.sp, c.lim, c.inHand, env);
        c.(sp := sp, clock := env.nameAt, inHand := [], batcher := if r == Spool.Stored then Owes else Refused(c.inHand))
    case PutMem => c.(m := Mem.AfterPut(c.m, c.memMax, c.batcher.docs), batcher := Owes)
    case Wakes => c.(kick := true, batcher := Collecting)
    case StartWakes => c.(kick := true, starting := false)
    case TakesKick => c.(kick := false, sender := if c.retry then Idle else Looking)
    case Timer => c.(retry := false, sender := Looking)
    case LooksAtSpool(now, readable) =>
      var (sp, r) := Spool.AfterOldest(c.sp, c.lim, now, readable);
      c.(sp := sp, sender := if r.None? then SpoolEmpty else Out(SpoolLane, r.value.name, r.value.docs))
    case LooksAtMem => c.(sender := if c.m.items == [] then Idle else Out(MemLane, c.m.items[0].name, c.m.items[0].docs))
    case Replied(reply) =>
      if reply.Retry? then c.(sender := Idle, retry := true)
      else c.(sender := Back(c.sender.w, c.sender.name, c.sender.docs, reply))
    case Reacts(okA, okB, deleted) => Reacted(c, c.sender.w, c.sender.name, c.sender.docs, c.sender.reply, okA, okB, deleted)
    case Drops(deleted) =>
      Taken(c, c.sender.w, c.sender.name, deleted).(sender := Looking, given := c.given + |c.sender.docs|)
  }

  // ---- as the protocol sees it ------------------------------------------------------------------------

  /** The name stands for the batch. */
  ghost predicate Names(w: Which, name: string, docs: seq<Doc>, it: Item) {
    docs == it.docs && name == if w.SpoolLane? then PostedName(it) else it.id
  }

  ghost predicate SenderShown(h: Hands, s: Sender) {
    match h
    case Idle => s.Waiting?
    case Looking => s.Checking?
    case SpoolEmpty => s.SpoolChecked?
    case Out(w, name, docs) => s.Posting? && s.w == w && Names(w, name, docs, s.it)
    case Back(w, name, docs, reply) => s.Answered? && s.w == w && Names(w, name, docs, s.it) && s.reply == reply
    case Dropping(w, name, docs) => s.Discarding? && s.w == w && Names(w, name, docs, s.it)
  }

  ghost predicate CountsShown(c: Shipper, s: State) {
    && c.encoded == |s.encoded| && c.shipped == |s.spool.delivered| + |s.mem.delivered| && c.given == |s.tally.answers|
  }

  ghost predicate ControlShown(c: Shipper, s: State) {
    && s.inHand == c.inHand && s.batcher == c.batcher && s.starting == c.starting && s.kick == c.kick && s.retry == c.retry
    && (!c.hasSpool ==> c.sp.files == [])
  }

  /** The protocol's state says of the shipper all that is so. */
  ghost predicate Shows(c: Shipper, s: State) {
    && ControlShown(c, s) && SenderShown(c.sender, s.sender) && CountsShown(c, s)
    && SpoolShown(c.sp, c.clock, s) && MemShown(c.m, s) && IdInv(s)
  }

  predicate ControlSame(s: State, t: State) {
    t.inHand == s.inHand && t.batcher == s.batcher && t.starting == s.starting && t.kick == s.kick && t.retry == s.retry
  }

  predicate ControlKept(c: Shipper, d: Shipper) {
    && d.inHand == c.inHand && d.batcher == c.batcher && d.starting == c.starting && d.kick == c.kick && d.retry == c.retry
    && d.hasSpool == c.hasSpool && (c.sp.files == [] ==> d.sp.files == [])
  }

  lemma StillShows(c: Shipper, d: Shipper, s: State, t: State)
    requires ControlShown(c, s) && ControlKept(c, d) && ControlSame(s, t)
    requires SenderShown(d.sender, t.sender) && CountsShown(d, t)
    requires SpoolShown(d.sp, d.clock, t) && MemShown(d.m, t) && IdInv(t)
    ensures Shows(d, t)
  {
    hide SenderShown, CountsShown, SpoolShown, MemShown, IdInv;
  }

  // ---- every event is a step ---------------------------------------------------------------------------

  /** Events that leave both queues alone. */
  function PlainStep(c: Shipper, e: Event): Step {
    match e
    case Encoded(doc) => Encode(doc)
    case Wakes => Wake
    case StartWakes => StartWake
    case TakesKick => TakeKick
    case Timer => TimerFires
    case Replied(reply) => Answer(reply)
    case _ => CheckMem
  }

  lemma SameQueuesShown(c: Shipper, d: Shipper, s: State, t: State)
    requires SpoolShown(c.sp, c.clock, s) && MemShown(c.m, s)
    requires d.sp == c.sp && d.clock == c.clock && d.m == c.m && t.spool == s.spool && t.mem == s.mem && t.tally == s.tally
    ensures SpoolShown(d.sp, d.clock, t) && MemShown(d.m, t)
  {
    hide SpoolMirrors, MemMirrors, DropSum;
  }

  lemma PlainQueues(c: Shipper, e: Event, s: State)
    requires ControlShown(c, s) && SenderShown(c.sender, s.sender) && Happens(c, e)
    requires e.Encoded? || e.Wakes? || e.StartWakes? || e.TakesKick? || e.Timer? || e.Replied?
    ensures Enabled(s, PlainStep(c, e))
    ensures var t := Next(s, PlainStep(c, e)); t.spool == s.spool && t.mem == s.mem && t.tally == s.tally
    ensures var d := After(c, e); d.sp == c.sp && d.clock == c.clock && d.m == c.m
  {
    hide Names, Lose, Append, Fresh, Acted, GiveUp, Reacted, Taken;
  }

  lemma BatcherControl(c: Shipper, e: Event, s: State)
    requires ControlShown(c, s) && SenderShown(c.sender, s.sender) && CountsShown(c, s) && Happens(c, e)
    requires (e.Encoded? || e.Wakes? || e.StartWakes?) && Enabled(s, PlainStep(c, e))
    ensures var d, t := After(c, e), Next(s, PlainStep(c, e));
            ControlShown(d, t) && SenderShown(d.sender, t.sender) && CountsShown(d, t)
  {
    hide Names, Lose, Append, Fresh, Acted, GiveUp, Reacted, Taken, SenderShown;
  }

  lemma SenderControl(c: Shipper, e: Event, s: State)
    requires ControlShown(c, s) && SenderShown(c.sender, s.sender) && CountsShown(c, s) && Happens(c, e)
    requires (e.TakesKick? || e.Timer?) && Enabled(s, PlainStep(c, e))
    ensures var d, t := After(c, e), Next(s, PlainStep(c, e));
            ControlShown(d, t) && SenderShown(d.sender, t.sender) && CountsShown(d, t)
  {
    hide Names, Lose, Append, Fresh, Acted, GiveUp, Reacted, Taken;
  }

  lemma AnswerNext(s: State, reply: Reply)
    requires s.sender.Posting?
    ensures Enabled(s, Answer(reply))
    ensures Next(s, Answer(reply))
            == if reply.Retry? then s.(sender := Waiting, retry := true)
               else s.(sender := Answered(s.sender.w, s.sender.it, reply))
  {}

  lemma ReplyAfter(c: Shipper, reply: Reply)
    requires c.sender.Out?
    ensures Happens(c, Replied(reply))
    ensures After(c, Replied(reply))
            == if reply.Retry? then c.(sender := Idle, retry := true)
               else c.(sender := Back(c.sender.w, c.sender.name, c.sender.docs, reply))
  {}

  lemma ReplyControl(c: Shipper, e: Event, s: State)
    requires ControlShown(c, s) && SenderShown(c.sender, s.sender) && CountsShown(c, s) && Happens(c, e)
    requires e.Replied? && c.sender.Out? && Enabled(s, PlainStep(c, e))
    ensures var d, t := After(c, e), Next(s, PlainStep(c, e));
            ControlShown(d, t) && SenderShown(d.sender, t.sender) && CountsShown(d, t)
  {
    hide Names, After, Next, Enabled, Happens;
    AnswerNext(s, e.reply);
    ReplyAfter(c, e.reply);
  }

  lemma PlainIsStep(c: Shipper, e: Event, s: State)
    requires Shows(c, s) && Happens(c, e)
    requires e.Encoded? || e.Wakes? || e.StartWakes? || e.TakesKick? || e.Timer? || e.Replied?
    ensures Enabled(s, PlainStep(c, e)) && Shows(After(c, e), Next(s, PlainStep(c, e)))
  {
    assert e.Replied? ==> c.sender.Out?;
    hide ControlShown, SenderShown, CountsShown, SpoolShown, MemShown, IdInv, Happens, After, Next, Enabled, PlainStep;
    PlainQueues(c, e, s);
    if e.Replied? {
      ReplyControl(c, e, s);
    } else if e.TakesKick? || e.Timer? {
      SenderControl(c, e, s);
    } else {
      BatcherControl(c, e, s);
    }
    SameQueuesShown(c, After(c, e), s, Next(s, PlainStep(c, e)));
    StepKeepsIds(s, PlainStep(c, e));
  }

  lemma MemLookIsStep(c: Shipper, s: State)
    requires Shows(c, s) && c.sender.SpoolEmpty?
    ensures Enabled(s, CheckMem) && Shows(After(c, LooksAtMem), Next(s, CheckMem))
  {
    hide SpoolShown, MemShown, IdInv, Reacted, Taken, ControlShown, CountsShown;
    MemFirstShown(c.m, s);
    var d, t := After(c, LooksAtMem), Next(s, CheckMem);
    SameQueuesShown(c, d, s, t);
    StepKeepsIds(s, CheckMem);
    LookCounts(c, d, s, t);
    StillShows(c, d, s, t);
  }

  lemma MemFirstShown(m: Mem.State, s: State)
    requires MemShown(m, s)
    ensures |m.items| == |s.mem.items| && (m.items != [] ==> s.mem.items[0] == Item(m.items[0].name, m.items[0].docs))
  {
    hide Mem.Bytes, KnownNumbers;
  }

  /** What a step that only loses and stores leaves alone. */
  lemma StoreFrame(s: State, step: Step)
    requires Enabled(s, step) && (step.SpoolStores? || step.SpoolRefuses? || step.MemStores?)
    ensures var t := Next(s, step);
      && t.sender == s.sender && t.starting == s.starting && t.kick == s.kick && t.retry == s.retry && t.encoded == s.encoded
      && t.spool.delivered == s.spool.delivered && t.mem.delivered == s.mem.delivered && t.tally.answers == s.tally.answers
      && t.inHand == (if step.MemStores? then s.inHand else [])
      && t.batcher == (if step.SpoolRefuses? then Refused(s.inHand) else Owes)
      && (step.MemStores? ==> t.spool == s.spool && t.tally.spoolCaps == s.tally.spoolCaps)
      && (!step.MemStores? ==> t.mem == s.mem && t.tally.memCaps == s.tally.memCaps)
  {
    hide Fresh, Orphan, DocsOf;
  }

  lemma SameMemShown(m: Mem.State, s: State, t: State)
    requires MemShown(m, s) && t.mem == s.mem && t.tally.memCaps == s.tally.memCaps
    ensures MemShown(m, t)
  {
    hide MemMirrors;
  }

  lemma SameSpoolShown(sp: Spool.State, t: nat, s: State, s': State)
    requires SpoolShown(sp, t, s) && s'.spool == s.spool && s'.tally.spoolCaps == s.tally.spoolCaps
    ensures SpoolShown(sp, t, s')
  {
    hide SpoolMirrors, DropSum;
  }

  lemma PutIsEvent(c: Shipper, env: Spool.PutEnv, s: State) returns (step: Step)
    requires Shows(c, s) && Happens(c, PutSpool(env))
    ensures Enabled(s, step) && Shows(After(c, PutSpool(env)), Next(s, step))
  {
    hide SpoolShown, MemShown, IdInv, Enabled, Next, PutReports, Spool.AfterPut, Names;
    if c.hasSpool {
      var a, b, d;
      step, a, b, d := PutIsStep(s, c.sp, c.lim, env, c.clock);
    } else {
      step := SpoolRefuses(0);
      NoSpoolStep(s, c.sp, c.clock);
    }
    StoreFrame(s, step);
    SameMemShown(c.m, s, Next(s, step));
    StepKeepsIds(s, step);
  }

  lemma NoSpoolStep(s: State, sp: Spool.State, t: nat)
    requires SpoolShown(sp, t, s) && s.batcher.Collecting? && s.inHand != []
    ensures Enabled(s, SpoolRefuses(0)) && SpoolShown(sp, t, Next(s, SpoolRefuses(0)))
  {
    hide SpoolMirrors, DropSum;
    StepLanes(s, "", 0);
    hide Next, Enabled;
    assert s.spool.items[0..] == s.spool.items && s.spool.items[..0] == [];
    Mem.NoDocs();
    assert s.tally.spoolCaps + [] == s.tally.spoolCaps;
  }

  lemma MemPutIsEvent(c: Shipper, s: State) returns (step: Step)
    requires Shows(c, s) && Happens(c, PutMem)
    ensures Enabled(s, step) && Shows(After(c, PutMem), Next(s, step))
  {
    hide SpoolShown, MemShown, IdInv, Enabled, Next, Mem.AfterPut, Names, DocsOf;
    step := MemPutIsStep(s, c.m, c.memMax);
    StoreFrame(s, step);
    SameSpoolShown(c.sp, c.clock, s, Next(s, step));
    StepKeepsIds(s, step);
  }

  lemma LookIsEvent(c: Shipper, now: Spool.Time, readable: string -> bool, s: State) returns (step: Step)
    requires Shows(c, s) && c.sender.Looking?
    ensures Enabled(s, step) && Shows(After(c, LooksAtSpool(now, readable)), Next(s, step))
  {
    hide ControlShown, CountsShown, SpoolShown, MemShown, IdInv, Enabled, Next, After, Spool.AfterOldest, GivesUp, Stem,
         Names, ControlKept;
    var a, b;
    step, a, b := OldestIsStep(s, c.sp, c.lim, now, readable, c.clock);
    LookFrame(s, step);
    SameMemShown(c.m, s, Next(s, step));
    StepKeepsIds(s, step);
    LookAfter(c, now, readable);
    var d := After(c, LooksAtSpool(now, readable));
    LookCounts(c, d, s, Next(s, step));
    var r := Spool.AfterOldest(c.sp, c.lim, now, readable).1;
    if r.Some? {
      SpoolNames(r.value.name, r.value.docs);
    }
    StillShows(c, d, s, Next(s, step));
  }

  lemma SpoolNames(name: string, docs: seq<Doc>)
    requires name == PostedName(Item(Stem(name), docs))
    ensures Names(SpoolLane, name, docs, Item(Stem(name), docs))
  {
    hide PostedName, Stem;
  }

  lemma LookAfter(c: Shipper, now: Spool.Time, readable: string -> bool)
    requires c.sender.Looking?
    ensures var d := After(c, LooksAtSpool(now, readable));
            var (sp, r) := Spool.AfterOldest(c.sp, c.lim, now, readable);
      && ControlKept(c, d) && d.sp == sp && d.clock == c.clock && d.m == c.m
      && d.encoded == c.encoded && d.shipped == c.shipped && d.given == c.given
      && d.sender == if r.None? then SpoolEmpty else Out(SpoolLane, r.value.name, r.value.docs)
  {
    StaysWithout(c, now, readable);
    hide Spool.AfterOldest;
  }

  lemma LookCounts(c: Shipper, d: Shipper, s: State, t: State)
    requires CountsShown(c, s) && d.encoded == c.encoded && d.shipped == c.shipped && d.given == c.given
    requires t.encoded == s.encoded && t.spool.delivered == s.spool.delivered && t.mem.delivered == s.mem.delivered
    requires t.tally.answers == s.tally.answers
    ensures CountsShown(d, t)
  {}

  lemma StaysWithout(c: Shipper, now: Spool.Time, readable: string -> bool)
    ensures c.sp.files == [] ==> Spool.AfterOldest(c.sp, c.lim, now, readable).0.files == []
  {}

  lemma LookFrame(s: State, step: Step)
    requires Enabled(s, step) && step.CheckSpool?
    ensures var t := Next(s, step);
      && ControlSame(s, t) && t.encoded == s.encoded && t.spool.delivered == s.spool.delivered && t.mem == s.mem
      && t.tally.answers == s.tally.answers && t.tally.memCaps == s.tally.memCaps
  {
    hide Orphan, DocsOf;
  }

  // ---- what follows an answer ------------------------------------------------------------------------------

  lemma PostedId(w: Which, name: string, docs: seq<Doc>, it: Item)
    requires Names(w, name, docs, it)
    ensures w.MemLane? ==> name == it.id
    ensures w.SpoolLane? ==> name == PostedName(it)
    ensures docs == it.docs
  {
    hide PostedName;
  }

  /** Deliver and GiveUp change one queue and the counts. */
  lemma TakeFrame(s: State, w: Which, it: Item)
    ensures var t := Deliver(s, w, it);
      && ControlSame(s, t) && t.sender.Checking? && t.tally == s.tally && t.encoded == s.encoded
      && |t.spool.delivered| + |t.mem.delivered| == |s.spool.delivered| + |s.mem.delivered| + |it.docs|
      && (if w.SpoolLane? then t.mem == s.mem else t.spool == s.spool)
    ensures var t := GiveUp(s, w, it);
      && ControlSame(s, t) && t.sender.Checking? && t.encoded == s.encoded
      && t.tally.spoolCaps == s.tally.spoolCaps && t.tally.memCaps == s.tally.memCaps
      && |t.tally.answers| == |s.tally.answers| + |it.docs|
      && t.spool.delivered == s.spool.delivered && t.mem.delivered == s.mem.delivered
      && (if w.SpoolLane? then t.mem == s.mem else t.spool == s.spool)
  {
    hide Without, Again;
  }

  lemma TakenFrame(c: Shipper, w: Which, name: string, deleted: bool)
    ensures var d := Taken(c, w, name, deleted);
      && d == c.(sp := d.sp, m := d.m)
      && (if w.SpoolLane? then d.m == c.m else d.sp == c.sp)
      && (c.sp.files == [] ==> d.sp.files == [])
  {
    hide Mem.AfterRemove;
  }

  /** The queues after the posted batch was taken off, delivered or given up. */
  lemma TakenShown(c: Shipper, w: Which, name: string, deleted: bool, s: State)
    requires Shows(c, s) && InFlight(s, w) && Names(w, name, s.sender.it.docs, s.sender.it)
    ensures var d := Taken(c, w, name, deleted);
      && SpoolShown(d.sp, d.clock, Deliver(s, w, s.sender.it)) && MemShown(d.m, Deliver(s, w, s.sender.it))
      && SpoolShown(d.sp, d.clock, GiveUp(s, w, s.sender.it)) && MemShown(d.m, GiveUp(s, w, s.sender.it))
  {
    var it := s.sender.it;
    PostedId(w, name, it.docs, it);
    TakeFrame(s, w, it);
    hide SpoolMirrors, MemMirrors, IdInv, Deliver, GiveUp, DropSum, Names, PostedName, Spool.AfterRemove, Mem.AfterRemove;
    if w.SpoolLane? {
      RemoveIsStep(s, c.sp, deleted, c.clock);
    } else {
      MemRemoveIsStep(s, c.m);
    }
  }

  lemma ActNext(s: State, ok: bool)
    requires s.sender.Answered? && !s.sender.reply.Retry? && (s.sender.w.MemLane? ==> ok)
    ensures Enabled(s, Act(ok))
    ensures s.sender.reply.Accepted? ==> Next(s, Act(ok)) == Deliver(s, s.sender.w, s.sender.it)
    ensures s.sender.reply.Rejected? ==> Next(s, Act(ok)) == GiveUp(s, s.sender.w, s.sender.it)
    ensures s.sender.reply.TooLarge? ==> Next(s, Act(ok)) == SplitUp(s, s.sender.w, s.sender.it, ok)
  {
    hide Deliver, GiveUp, SplitUp;
  }

  lemma ReactAfter(c: Shipper, e: Event)
    requires Happens(c, e) && e.Reacts? && c.sender.Back?
    ensures var h := c.sender;
            var u := Taken(c, h.w, h.name, e.deleted);
      && (h.reply.Accepted? ==> After(c, e) == u.(sender := Looking, shipped := c.shipped + |h.docs|))
      && (h.reply.Rejected? ==> After(c, e) == u.(sender := Looking, given := c.given + |h.docs|))
      && (h.reply.TooLarge? ==> After(c, e) == Split(c, h.w, h.name, h.docs, e.okA, e.okB))
  {
    hide Taken, Split;
  }

  lemma AcceptIsEvent(c: Shipper, e: Event, s: State)
    requires Shows(c, s) && Happens(c, e) && e.Reacts? && c.sender.Back? && c.sender.reply.Accepted?
    ensures Enabled(s, Act(true)) && Shows(After(c, e), Next(s, Act(true)))
  {
    var w, name, it := c.sender.w, c.sender.name, s.sender.it;
    hide SpoolShown, MemShown, IdInv, ControlShown, CountsShown, Deliver, GiveUp, Taken, Split, Names, Enabled, Next, After, Happens,
         ControlKept, ControlSame, PostedName;
    PostedId(w, name, c.sender.docs, it);
    TakenShown(c, w, name, e.deleted, s);
    ActNext(s, true);
    StepKeepsIds(s, Act(true));
    ReactAfter(c, e);
    TakenFrame(c, w, name, e.deleted);
    TakeFrame(s, w, it);
    var d := After(c, e);
    DeliverCounts(c, d, s, Deliver(s, w, it), |it.docs|);
    TakenKept(c, Taken(c, w, name, e.deleted), d);
    StillShows(c, d, s, Deliver(s, w, it));
  }

  lemma DeliverCounts(c: Shipper, d: Shipper, s: State, t: State, n: nat)
    requires CountsShown(c, s) && d.encoded == c.encoded && d.shipped == c.shipped + n && d.given == c.given
    requires t.encoded == s.encoded && t.tally == s.tally
    requires |t.spool.delivered| + |t.mem.delivered| == |s.spool.delivered| + |s.mem.delivered| + n
    ensures CountsShown(d, t)
  {}

  lemma GiveUpCounts(c: Shipper, d: Shipper, s: State, t: State, n: nat)
    requires CountsShown(c, s) && d.encoded == c.encoded && d.shipped == c.shipped && d.given == c.given + n
    requires t.encoded == s.encoded && |t.tally.answers| == |s.tally.answers| + n
    requires t.spool.delivered == s.spool.delivered && t.mem.delivered == s.mem.delivered
    ensures CountsShown(d, t)
  {}

  lemma TakenKept(c: Shipper, u: Shipper, d: Shipper)
    requires u == c.(sp := u.sp, m := u.m) && (c.sp.files == [] ==> u.sp.files == [])
    requires d == u.(sender := d.sender, shipped := d.shipped, given := d.given)
    ensures ControlKept(c, d)
  {}

  lemma RejectIsEvent(c: Shipper, e: Event, s: State)
    requires Shows(c, s) && Happens(c, e) && e.Reacts? && c.sender.Back? && c.sender.reply.Rejected?
    ensures Enabled(s, Act(true)) && Shows(After(c, e), Next(s, Act(true)))
  {
    var w, name, it := c.sender.w, c.sender.name, s.sender.it;
    hide SpoolShown, MemShown, IdInv, ControlShown, CountsShown, Deliver, GiveUp, Taken, Split, Names, Enabled, Next, After, Happens,
         ControlKept, ControlSame, PostedName;
    PostedId(w, name, c.sender.docs, it);
    TakenShown(c, w, name, e.deleted, s);
    ActNext(s, true);
    StepKeepsIds(s, Act(true));
    ReactAfter(c, e);
    TakenFrame(c, w, name, e.deleted);
    TakeFrame(s, w, it);
    var d := After(c, e);
    GiveUpCounts(c, d, s, GiveUp(s, w, it), |it.docs|);
    TakenKept(c, Taken(c, w, name, e.deleted), d);
    StillShows(c, d, s, GiveUp(s, w, it));
  }

  lemma DropNext(c: Shipper, e: Event, s: State)
    requires s.sender.Discarding? && Happens(c, e) && e.Drops?
    ensures Enabled(s, Discard) && Next(s, Discard) == GiveUp(s, s.sender.w, s.sender.it)
    ensures After(c, e) == Taken(c, c.sender.w, c.sender.name, e.deleted).(sender := Looking, given := c.given + |c.sender.docs|)
  {
    hide GiveUp, Taken;
  }

  lemma DropIsEvent(c: Shipper, e: Event, s: State)
    requires Shows(c, s) && Happens(c, e) && e.Drops? && c.sender.Dropping?
    ensures Enabled(s, Discard) && Shows(After(c, e), Next(s, Discard))
  {
    var w, name, it := c.sender.w, c.sender.name, s.sender.it;
    hide SpoolShown, MemShown, IdInv, ControlShown, CountsShown, Deliver, GiveUp, Taken, Names, Enabled, Next, After, Happens,
         ControlKept, ControlSame;
    PostedId(w, name, c.sender.docs, it);
    TakenShown(c, w, name, e.deleted, s);
    DropNext(c, e, s);
    StepKeepsIds(s, Discard);
    TakenFrame(c, w, name, e.deleted);
    TakeFrame(s, w, it);
    var d := After(c, e);
    GiveUpCounts(c, d, s, GiveUp(s, w, it), |it.docs|);
    TakenKept(c, Taken(c, w, name, e.deleted), d);
    StillShows(c, d, s, GiveUp(s, w, it));
  }

  lemma SplitFrame(s: State, w: Which, it: Item, ok: bool)
    ensures var t := SplitUp(s, w, it, ok);
      && ControlSame(s, t) && (t.sender.Checking? || t.sender == Discarding(w, it)) && t.tally == s.tally && t.encoded == s.encoded
      && t.spool.delivered == s.spool.delivered && t.mem.delivered == s.mem.delivered
      && (if w.SpoolLane? then t.mem == s.mem else t.spool == s.spool)
  {
    hide Halved, Present;
    var l := LaneOf(s, w);
    if |it.docs| >= 2 && Present(l, it) && ok {
      LaneFrame(s, w, l.(items := Halved(l.items, it), used := l.used + {it.id + "a", it.id + "b"}));
    }
    hide WithLane;
  }

  lemma LaneFrame(s: State, w: Which, l: Lane)
    requires l.delivered == LaneOf(s, w).delivered
    ensures var t := WithLane(s, w, l);
      && t == s.(spool := t.spool, mem := t.mem)
      && t.spool.delivered == s.spool.delivered && t.mem.delivered == s.mem.delivered
      && (if w.SpoolLane? then t.mem == s.mem else t.spool == s.spool)
  {}

  /** The shipper after a split, as far as it is not in the queues. */
  ghost predicate SplitLeaves(c: Shipper, d: Shipper, w: Which, name: string, it: Item, t: State) {
    && d == c.(sp := d.sp, m := d.m, sender := d.sender)
    && (if t.sender.Checking? then d.sender.Looking? else t.sender == Discarding(w, it) && d.sender == Dropping(w, name, it.docs))
    && (c.sp.files == [] ==> d.sp.files == [])
  }

  lemma SpoolSplitShown(c: Shipper, name: string, okA: bool, okB: bool, s: State, it: Item)
    requires Shows(c, s) && s.sender.Answered? && s.sender.w.SpoolLane? && it == s.sender.it && name == PostedName(it)
    ensures var d, t := Split(c, SpoolLane, name, it.docs, okA, okB), SplitUp(s, SpoolLane, it, okA && okB);
            SpoolShown(d.sp, d.clock, t) && MemShown(d.m, t) && SplitLeaves(c, d, SpoolLane, name, it, t)
  {
    hide SpoolShown, MemShown, SpoolMirrors, IdInv, SplitUp, PostedName, ControlShown, CountsShown, SenderShown, ControlSame,
         Spool.AfterSplit, Split, SplitLeaves;
    var t := SplitUp(s, SpoolLane, it, okA && okB);
    var sp' := Spool.AfterSplit(c.sp, name, it.docs, okA, okB).0;
    SpoolShownIs(c.sp, c.clock, s);
    SplitFrame(s, SpoolLane, it, okA && okB);
    SplitIsStep(s, c.sp, okA, okB, c.clock);
    SameMemShown(c.m, s, t);
    SpoolStillShown(sp', c.sp, c.clock, s, t);
    SpoolSplitLeaves(c, name, okA, okB, it, t);
  }

  lemma SpoolSplitLeaves(c: Shipper, name: string, okA: bool, okB: bool, it: Item, t: State)
    requires var (sp', r) := Spool.AfterSplit(c.sp, name, it.docs, okA, okB);
             t.sender == if r == Spool.Split then Checking else Discarding(SpoolLane, it)
    ensures var d := Split(c, SpoolLane, name, it.docs, okA, okB);
      && SplitLeaves(c, d, SpoolLane, name, it, t)
      && d.sp == Spool.AfterSplit(c.sp, name, it.docs, okA, okB).0 && d.clock == c.clock && d.m == c.m
  {
    hide Spool.AfterSplit;
    SplitOfNothing(c.sp, name, it.docs, okA, okB);
  }

  lemma SpoolShownIs(sp: Spool.State, t: nat, s: State)
    requires SpoolShown(sp, t, s)
    ensures SpoolMirrors(sp, t, s.spool)
  {
    hide SpoolMirrors, DropSum;
  }

  lemma SpoolStillShown(sp': Spool.State, sp: Spool.State, t: nat, s: State, s': State)
    requires SpoolShown(sp, t, s) && SpoolMirrors(sp', t, s'.spool) && sp'.drops == sp.drops && s'.tally == s.tally
    ensures SpoolShown(sp', t, s')
  {
    hide SpoolMirrors, DropSum;
  }

  lemma MemSplitShown(c: Shipper, okA: bool, okB: bool, s: State)
    requires Shows(c, s) && s.sender.Answered? && s.sender.w.MemLane?
    ensures var it := s.sender.it;
            var d, t := Split(c, MemLane, it.id, it.docs, okA, okB), SplitUp(s, MemLane, it, true);
            SpoolShown(d.sp, d.clock, t) && MemShown(d.m, t) && SplitLeaves(c, d, MemLane, it.id, it, t)
  {
    var it := s.sender.it;
    hide SpoolMirrors, MemMirrors, IdInv, SplitUp, DropSum, Mem.AfterSplit, ControlShown, CountsShown, SenderShown;
    SplitFrame(s, MemLane, it, true);
    MemSplitIsStep(s, c.m);
  }

  lemma SplitOfNothing(sp: Spool.State, name: string, docs: seq<Doc>, okA: bool, okB: bool)
    ensures sp.files == [] ==> Spool.AfterSplit(sp, name, docs, okA, okB).0.files == []
  {}

  lemma TooLargeIsEvent(c: Shipper, e: Event, s: State) returns (ok: bool)
    requires Shows(c, s) && Happens(c, e) && e.Reacts? && c.sender.Back? && c.sender.reply.TooLarge?
    ensures Enabled(s, Act(ok)) && Shows(After(c, e), Next(s, Act(ok)))
  {
    var w, name, it := c.sender.w, c.sender.name, s.sender.it;
    hide SpoolShown, MemShown, IdInv, ControlShown, CountsShown, SplitUp, Taken, SplitLeaves, Split, Names, Enabled, Next, After, Happens,
         ControlKept, ControlSame, PostedName;
    ok := w.MemLane? || (e.okA && e.okB);
    PostedId(w, name, c.sender.docs, it);
    if w.SpoolLane? {
      SpoolSplitShown(c, name, e.okA, e.okB, s, it);
    } else {
      MemSplitShown(c, e.okA, e.okB, s);
    }
    ActNext(s, ok);
    StepKeepsIds(s, Act(ok));
    ReactAfter(c, e);
    SplitFrame(s, w, it, ok);
    var d, t := After(c, e), SplitUp(s, w, it, ok);
    SplitCounts(c, d, s, t, w, name, it);
    StillShows(c, d, s, t);
  }

  lemma SplitCounts(c: Shipper, d: Shipper, s: State, t: State, w: Which, name: string, it: Item)
    requires CountsShown(c, s) && SplitLeaves(c, d, w, name, it, t) && Names(w, name, it.docs, it)
    requires t.tally == s.tally && t.encoded == s.encoded && (t.sender.Checking? || t.sender == Discarding(w, it))
    requires t.spool.delivered == s.spool.delivered && t.mem.delivered == s.mem.delivered
    ensures ControlKept(c, d) && CountsShown(d, t) && SenderShown(d.sender, t.sender)
  {
    hide Names;
  }

  /** Whatever the shipper does is one enabled step of the protocol, and leaves what the protocol says. */
  lemma EventIsStep(c: Shipper, e: Event, s: State) returns (step: Step)
    requires Shows(c, s) && Happens(c, e)
    ensures Enabled(s, step) && Shows(After(c, e), Next(s, step))
  {
    assert e.Reacts? ==> c.sender.Back? && !c.sender.reply.Retry?;
    hide Shows, Enabled, Next, After;
    match e
    case PutSpool(env) => step := PutIsEvent(c, env, s);
    case PutMem => step := MemPutIsEvent(c, s);
    case LooksAtSpool(now, readable) => step := LookIsEvent(c, now, readable, s);
    case LooksAtMem =>
      step := CheckMem;
      MemLookIsStep(c, s);
    case Reacts(_, _, _) =>
      if c.sender.reply.Accepted? {
        step := Act(true);
        AcceptIsEvent(c, e, s);
      } else if c.sender.reply.Rejected? {
        step := Act(true);
        RejectIsEvent(c, e, s);
      } else {
        var ok := TooLargeIsEvent(c, e, s);
        step := Act(ok);
      }
    case Drops(_) =>
      step := Discard;
      DropIsEvent(c, e, s);
    case _ =>
      step := PlainStep(c, e);
      PlainIsStep(c, e, s);
  }

  // ---- whole runs --------------------------------------------------------------------------------------------

  /** A shipper as it starts: nothing in hand, an empty memory queue, and a spool in order, without reports. */
  ghost predicate Starts(c: Shipper) {
    && c.inHand == [] && c.batcher.Collecting? && c.starting && !c.kick && !c.retry && c.sender.Idle?
    && Indexed(c.sp) && Named(c.sp, c.clock) && c.sp.drops == [] && (!c.hasSpool ==> c.sp.files == [])
    && c.m == Mem.State([], 0, 0, 0) && c.shipped == 0 && c.given == 0 && c.encoded == |DocsOf(Items(c.sp))|
  }

  ghost predicate IsShipping(cs: seq<Shipper>, es: seq<Event>) {
    && |cs| == |es| + 1 && Starts(cs[0])
    && forall i :: 0 <= i < |es| ==> Happens(cs[i], es[i]) && cs[i + 1] == After(cs[i], es[i])
  }

  lemma StartShown(c: Shipper)
    requires Starts(c)
    ensures Initial(StartOn(Items(c.sp))) && Shows(c, StartOn(Items(c.sp)))
  {
    OpenedStarts(c.sp, c.clock);
    InitialIds(StartOn(Items(c.sp)));
    NoReports(Spool.Age);
    hide Indexed, Named, Items, IdInv, SpoolMirrors, MemMirrors, Initial, DocsOf;
    assert c.encoded == |multiset(DocsOf(Items(c.sp)))|;
  }

  /** A run of the shipper on its two queues is a run of the protocol, step for step, so all the protocol keeps it keeps. */
  lemma {:induction false} Shipping(cs: seq<Shipper>, es: seq<Event>, n: nat) returns (ss: seq<State>, steps: seq<Step>)
    requires IsShipping(cs, es) && n <= |es|
    ensures IsRun(ss, steps) && |steps| == n && forall i :: 0 <= i <= n ==> Shows(cs[i], ss[i])
    decreases n
  {
    hide Shows, Happens, After, Enabled, Next, Initial, Starts;
    if n == 0 {
      StartShown(cs[0]);
      ss, steps := [StartOn(ItemsAt(cs[0]))], [];
    } else {
      var ss', steps' := Shipping(cs, es, n - 1);
      assert Happens(cs[n - 1], es[n - 1]) && cs[n] == After(cs[n - 1], es[n - 1]);
      var step := EventIsStep(cs[n - 1], es[n - 1], ss'[n - 1]);
      ss, steps := ss' + [Next(ss'[n - 1], step)], steps' + [step];
    }
  }

  ghost function ItemsAt(c: Shipper): seq<Item>
    requires Starts(c)
  {
    Items(c.sp)
  }

  /** Counting over a run: what was encoded or found at the start is in hand, queued, shipped, reported by a cap, or given up
      for an answer, exactly, but for batches a cap dropped while their post was out; of those at most the excess is counted
      twice. */
  lemma CountsAddUp(cs: seq<Shipper>, es: seq<Event>, n: nat) returns (s: State)
    requires IsShipping(cs, es) && n <= |es|
    ensures var c := cs[n];
      && Shows(c, s) && AllBacked(c.sp)
      && c.encoded + |s.overlap|
         == |c.inHand| + |RefusedDocs(s)| + |DocsOf(Items(c.sp))| + |DocsOf(Mem.Items(c.m.items))|
            + c.shipped + DropSum(c.sp.drops) + c.m.dropped + c.given
      && s.overlap <= s.hit && (s.hit == multiset{} ==> |s.overlap| == 0)
  {
    var ss, steps := Shipping(cs, es, n);
    s := ss[n];
    Conservation(ss, steps, n);
    ShownItems(cs[n], s);
    hide Shows, IsRun, DocsOf, Items, Mem.Items, DropSum;
    Sizes(s);
  }

  lemma ShownItems(c: Shipper, s: State)
    requires Shows(c, s)
    ensures AllBacked(c.sp) && Items(c.sp) == s.spool.items && Mem.Items(c.m.items) == s.mem.items && c.inHand == s.inHand
    ensures c.encoded == |s.encoded| && c.shipped == |s.spool.delivered| + |s.mem.delivered| && c.given == |s.tally.answers|
    ensures DropSum(c.sp.drops) == |s.tally.spoolCaps| && c.m.dropped == |s.tally.memCaps|
  {
    hide Named, KnownStems, KnownNumbers, Mem.Bytes, IdInv, Names, DropSum, Items, Mem.Items;
    ItemsLength(c.sp);
  }

  lemma Sizes(s: State)
    requires s.encoded + s.overlap
             == multiset(s.inHand) + multiset(RefusedDocs(s))
                + (multiset(DocsOf(s.spool.items)) + multiset(s.spool.delivered)
                   + (multiset(DocsOf(s.mem.items)) + multiset(s.mem.delivered)))
                + (multiset(s.tally.spoolCaps) + multiset(s.tally.memCaps) + multiset(s.tally.answers))
    ensures |s.encoded| + |s.overlap|
            == |s.inHand| + |RefusedDocs(s)| + |DocsOf(s.spool.items)| + |s.spool.delivered| + |DocsOf(s.mem.items)|
               + |s.mem.delivered| + |s.tally.spoolCaps| + |s.tally.memCaps| + |s.tally.answers|
  {
    hide DocsOf, RefusedDocs;
    assert |s.encoded + s.overlap| == |s.encoded| + |s.overlap|;
  }
}
