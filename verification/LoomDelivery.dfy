/** The two goroutines of the shipper as interleaved atomic steps: the batcher that stores
    batches, the sender that posts them, one kick slot and one retry timer
    (internal/exporters/loom/shipper.go). */
module LoomDelivery {
  import opened LoomQueues
  import LoomNames

  /** One queue with its history: documents put into it in order, documents delivered from it in order,
      identities it ever held, and identities answered with a 2xx. */
  datatype Lane = Lane(items: seq<Item>, put: seq<Doc>, delivered: seq<Doc>, used: set<string>, sent: set<string>)

  datatype Which = SpoolLane | MemLane

  /** Collecting a batch; with a batch the spool refused, on the way to memory; or with a batch stored and the wake due. */
  datatype Batcher = Collecting | Refused(docs: seq<Doc>) | Owes

  /** 2xx; 413; 400 or 415; or anything after which the batch is kept: 429, other statuses, transport errors. */
  datatype Reply = Accepted | TooLarge | Rejected | Retry

  /** In the select; in drain before the spool is looked at; after it was found empty, before memory is;
      while a post is out; with its answer; and between a split that did nothing and the removal that follows. */
  datatype Sender =
    | Waiting
    | Checking
    | SpoolChecked
    | Posting(w: Which, it: Item)
    | Answered(w: Which, it: Item, reply: Reply)
    | Discarding(w: Which, it: Item)

  /** The removed documents by what removed them: the caps of the spool, the cap of the memory queue, or an answer. */
  datatype Tally = Tally(spoolCaps: seq<Doc>, memCaps: seq<Doc>, answers: seq<Doc>)

  /** `removed` collects the documents of every removal that is reported, `hit` those of batches a cap removed
      while their post was out, `overlap` those that were then also counted as delivered or removed. */
  datatype State = State(
    inHand: seq<Doc>, batcher: Batcher, starting: bool,
    spool: Lane, mem: Lane,
    kick: bool, retry: bool, sender: Sender,
    encoded: multiset<Doc>, removed: multiset<Doc>, hit: multiset<Doc>, overlap: multiset<Doc>,
    tally: Tally)

  datatype Step =
    | Encode(doc: Doc)
    | SpoolStores(id: string, lost: nat)
    | SpoolRefuses(lost: nat)
    | MemStores(id: string, lost: nat)
    | Wake
    | StartWake
    | TakeKick
    | TimerFires
    | CheckSpool(lost: nat)
    | CheckMem
    | Answer(reply: Reply)
    | Act(ok: bool)
    | Discard

  // ---- identities -----------------------------------------------------------------------------

  /** u is x with letters a and b behind it: a half of it, or a half of a half. */
  predicate Descends(x: string, u: string) {
    |x| < |u| && u[..|x|] == x && LoomNames.IsPath(u[|x|..])
  }

  /** Halving a batch of n documents, and its halves, as long as they can be halved, makes a batch named u. */
  predicate Reaches(id: string, n: nat, u: string)
    decreases n
  {
    && n >= 2
    && (u == id + "a" || u == id + "b" || Reaches(id + "a", n / 2, u) || Reaches(id + "b", n - n / 2, u))
  }

  /** New to a queue, and unrelated to every identity it has held. */
  predicate Fresh(id: string, used: set<string>) {
    id !in used && forall u :: u in used ==> !Descends(id, u) && !Descends(u, id)
  }

  // ---- steps ----------------------------------------------------------------------------------

  function LaneOf(s: State, w: Which): Lane {
    if w.SpoolLane? then s.spool else s.mem
  }

  function WithLane(s: State, w: Which, l: Lane): State {
    if w.SpoolLane? then s.(spool := l) else s.(mem := l)
  }

  predicate InFlight(s: State, w: Which) {
    (s.sender.Posting? || s.sender.Answered? || s.sender.Discarding?) && s.sender.w == w
  }

  predicate Present(l: Lane, it: Item) {
    exists i :: 0 <= i < |l.items| && l.items[i].id == it.id
  }

  /** The batch whose post is out, if a cap has taken it from this queue meanwhile. */
  function Orphan(s: State, w: Which): seq<Doc> {
    if InFlight(s, w) && !Present(LaneOf(s, w), s.sender.it) then s.sender.it.docs else []
  }

  function Capped(y: Tally, w: Which, docs: seq<Doc>): Tally {
    if w.SpoolLane? then y.(spoolCaps := y.spoolCaps + docs) else y.(memCaps := y.memCaps + docs)
  }

  /** A cap takes the d oldest batches. */
  function Lose(s: State, w: Which, d: nat): State
    requires d <= |LaneOf(s, w).items|
  {
    var l := LaneOf(s, w);
    var t := WithLane(s, w, l.(items := l.items[d..]));
    t.(removed := s.removed + multiset(DocsOf(l.items[..d])),
       tally := Capped(s.tally, w, DocsOf(l.items[..d])),
       hit := s.hit + multiset(Orphan(t, w)) - multiset(Orphan(s, w)))
  }

  /** The batch goes to the end of the queue. */
  function Append(s: State, w: Which, id: string, docs: seq<Doc>): State {
    var l := LaneOf(s, w);
    WithLane(s, w, l.(items := l.items + [Item(id, docs)], put := l.put + docs, used := l.used + {id}))
  }

  /** What is counted over again when an answer comes for a batch that a cap had already taken. */
  function Again(l: Lane, it: Item): multiset<Doc> {
    if Present(l, it) then multiset{} else multiset(it.docs)
  }

  /** 2xx: the posted batch is removed by name and its documents are counted as delivered. */
  function Deliver(s: State, w: Which, it: Item): State {
    var l := LaneOf(s, w);
    var l' := l.(items := Without(l.items, it.id), delivered := l.delivered + it.docs, sent := l.sent + {it.id});
    WithLane(s, w, l').(overlap := s.overlap + Again(l, it), sender := Checking)
  }

  /** The posted batch is removed by name and its documents are reported as removed. */
  function GiveUp(s: State, w: Which, it: Item): State {
    var l := LaneOf(s, w);
    WithLane(s, w, l.(items := Without(l.items, it.id))).(
      overlap := s.overlap + Again(l, it), removed := s.removed + multiset(it.docs),
      tally := s.tally.(answers := s.tally.answers + it.docs), sender := Checking)
  }

  /** 413: the batch is halved in its place; a single document, or a failed write, leaves it to be given up;
      a batch a cap has taken counts as split. */
  function SplitUp(s: State, w: Which, it: Item, ok: bool): State {
    var l := LaneOf(s, w);
    if |it.docs| < 2 || (Present(l, it) && !ok) then s.(sender := Discarding(w, it))
    else if !Present(l, it) then s.(sender := Checking)
    else WithLane(s, w, l.(items := Halved(l.items, it), used := l.used + {it.id + "a", it.id + "b"})).(sender := Checking)
  }

  predicate Enabled(s: State, step: Step) {
    match step
    case Encode(_) => s.batcher.Collecting?
    case SpoolStores(id, lost) =>
      s.batcher.Collecting? && s.inHand != [] && lost <= |s.spool.items| && Fresh(id, s.spool.used)
    case SpoolRefuses(lost) => s.batcher.Collecting? && s.inHand != [] && lost <= |s.spool.items|
    case MemStores(id, lost) => s.batcher.Refused? && lost <= |s.mem.items| && Fresh(id, s.mem.used)
    case Wake => s.batcher.Owes?
    case StartWake => s.starting
    case TakeKick => s.sender.Waiting? && s.kick
    case TimerFires => s.sender.Waiting? && s.retry
    case CheckSpool(lost) => s.sender.Checking? && lost <= |s.spool.items|
    case CheckMem => s.sender.SpoolChecked?
    case Answer(_) => s.sender.Posting?
    case Act(ok) => s.sender.Answered? && !s.sender.reply.Retry? && (s.sender.w.MemLane? ==> ok)
    case Discard => s.sender.Discarding?
  }

  function Next(s: State, step: Step): State
    requires Enabled(s, step)
  {
    match step
    case Encode(doc) => s.(inHand := s.inHand + [doc], encoded := s.encoded + multiset{doc})
    case SpoolStores(id, lost) => Append(Lose(s, SpoolLane, lost), SpoolLane, id, s.inHand).(inHand := [], batcher := Owes)
    case SpoolRefuses(lost) => Lose(s, SpoolLane, lost).(inHand := [], batcher := Refused(s.inHand))
    case MemStores(id, lost) => Append(Lose(s, MemLane, lost), MemLane, id, s.batcher.docs).(batcher := Owes)
    case Wake => s.(kick := true, batcher := Collecting)
    case StartWake => s.(kick := true, starting := false)
    case TakeKick => s.(kick := false, sender := if s.retry then Waiting else Checking)
    case TimerFires => s.(retry := false, sender := Checking)
    case CheckSpool(lost) =>
      var t := Lose(s, SpoolLane, lost);
      t.(sender := if t.spool.items == [] then SpoolChecked else Posting(SpoolLane, t.spool.items[0]))
    case CheckMem => s.(sender := if s.mem.items == [] then Waiting else Posting(MemLane, s.mem.items[0]))
    case Answer(reply) =>
      if reply.Retry? then s.(sender := Waiting, retry := true)
      else s.(sender := Answered(s.sender.w, s.sender.it, reply))
    case Act(ok) => Acted(s, s.sender.w, s.sender.it, s.sender.reply, ok)
    case Discard => GiveUp(s, s.sender.w, s.sender.it)
  }

  /** What drain does with an answer. */
  function Acted(s: State, w: Which, it: Item, reply: Reply, ok: bool): State {
    match reply
    case Accepted => Deliver(s, w, it)
    case Rejected => GiveUp(s, w, it)
    case TooLarge => SplitUp(s, w, it, ok)
    case Retry => s
  }

  /** A shipper as Run starts it: the spool may hold batches found in its directory, under names that differ, and Run's
      own wake is due. */
  ghost predicate Start(s: State) {
    && s.inHand == [] && s.batcher.Collecting? && s.starting && !s.kick && !s.retry && s.sender.Waiting?
    && s.removed == multiset{} && s.hit == multiset{} && s.overlap == multiset{} && s.tally == Tally([], [], [])
    && s.mem == Lane([], [], [], {}, {})
    && s.spool.put == DocsOf(s.spool.items) && s.spool.delivered == [] && s.spool.sent == {}
    && s.spool.used == IdsOf(s.spool.items)
    && (forall i, j :: 0 <= i < j < |s.spool.items| ==> s.spool.items[i].id != s.spool.items[j].id)
    && s.encoded == multiset(DocsOf(s.spool.items))
  }

  /** No batch can be halved into the name of another: so when no earlier run stopped inside a split. */
  ghost predicate Unrelated(l: Lane) {
    forall i, u :: 0 <= i < |l.items| && u in l.used ==> !Reaches(l.items[i].id, |l.items[i].docs|, u)
  }

  ghost predicate Initial(s: State) {
    Start(s) && Unrelated(s.spool)
  }

  function IdsOf(items: seq<Item>): set<string> {
    set it | it in items :: it.id
  }

  /** States joined by enabled steps. */
  ghost predicate Follows(ss: seq<State>, steps: seq<Step>) {
    && |ss| == |steps| + 1
    && forall i :: 0 <= i < |steps| ==> Enabled(ss[i], steps[i]) && ss[i + 1] == Next(ss[i], steps[i])
  }

  /** A run. */
  ghost predicate IsRun(ss: seq<State>, steps: seq<Step>) {
    Follows(ss, steps) && Initial(ss[0])
  }
}
