/** Every record is accounted for at every moment, and each queue delivers in the order it was filled. */
module LoomAccounts {
  import opened LoomQueues
  import opened Subsequences
  import opened LoomDelivery
  import opened LoomDeliveryLaws

  function RefusedDocs(s: State): seq<Doc> {
    if s.batcher.Refused? then s.batcher.docs else []
  }

  /** Documents the batcher holds. */
  ghost function Hand(s: State): multiset<Doc> {
    multiset(s.inHand) + multiset(RefusedDocs(s))
  }

  /** Documents a queue holds or has delivered. */
  ghost function LaneDocs(l: Lane): multiset<Doc> {
    multiset(DocsOf(l.items)) + multiset(l.delivered)
  }

  ghost function Queues(s: State): multiset<Doc> {
    LaneDocs(s.spool) + LaneDocs(s.mem)
  }

  /** Documents of batches whose post is out and which a cap has taken meanwhile. */
  ghost function Orphans(s: State): multiset<Doc> {
    multiset(Orphan(s, SpoolLane)) + multiset(Orphan(s, MemLane))
  }

  /** Nothing is lost and nothing appears: what was encoded is in hand, queued, delivered or in a reported removal,
      once, except that what a cap removed while its post was out may be counted a second time with the answer. */
  ghost predicate Balanced(s: State) {
    Sums(s.encoded, s.overlap, Hand(s), Queues(s), s.removed) && s.overlap + Orphans(s) <= s.hit
  }

  ghost predicate Sums(encoded: multiset<Doc>, overlap: multiset<Doc>,
                       hand: multiset<Doc>, queues: multiset<Doc>, removed: multiset<Doc>) {
    encoded + overlap == hand + queues + removed
  }

  /** A queue's deliveries, the batch being posted if only the sender still has it, and what is queued. */
  ghost predicate LineOf(delivered: seq<Doc>, orphan: seq<Doc>, queued: seq<Doc>, put: seq<Doc>) {
    Subseq(delivered + (orphan + queued), put)
  }

  ghost predicate InOrder(s: State, w: Which) {
    LineOf(LaneOf(s, w).delivered, Orphan(s, w), DocsOf(LaneOf(s, w).items), LaneOf(s, w).put)
  }

  ghost predicate Inv(s: State) {
    IdInv(s) && Balanced(s) && InOrder(s, SpoolLane) && InOrder(s, MemLane)
  }

  function OtherOf(w: Which): Which {
    if w.SpoolLane? then MemLane else SpoolLane
  }

  // ---- sums ---------------------------------------------------------------------------------------

  lemma QueueToRemoved(e: multiset<Doc>, o: multiset<Doc>, h: multiset<Doc>, q: multiset<Doc>, r: multiset<Doc>,
                       q': multiset<Doc>, x: multiset<Doc>)
    requires Sums(e, o, h, q, r) && q' + x == q
    ensures Sums(e, o, h, q', r + x)
  {
    assert h + (q' + x) + r == h + q' + (r + x);
  }

  lemma HandToQueue(e: multiset<Doc>, o: multiset<Doc>, h: multiset<Doc>, q: multiset<Doc>, r: multiset<Doc>,
                    h': multiset<Doc>, x: multiset<Doc>)
    requires Sums(e, o, h, q, r) && h == h' + x
    ensures Sums(e, o, h', q + x, r)
  {
    assert h' + x + q + r == h' + (q + x) + r;
  }

  lemma CountedAgain(e: multiset<Doc>, o: multiset<Doc>, h: multiset<Doc>, q: multiset<Doc>, r: multiset<Doc>, x: multiset<Doc>)
    requires Sums(e, o, h, q, r)
    ensures Sums(e, o + x, h, q + x, r) && Sums(e, o + x, h, q, r + x)
  {
    assert e + (o + x) == e + o + x;
    assert h + (q + x) + r == h + q + r + x;
    assert h + q + (r + x) == h + q + r + x;
  }

  lemma NoDocs(x: multiset<Doc>)
    ensures x + multiset{} == x
  {}

  // ---- what a queue holds -------------------------------------------------------------------------

  lemma LaneLoses(l: Lane, d: nat)
    requires d <= |l.items|
    ensures LaneDocs(l.(items := l.items[d..])) + multiset(DocsOf(l.items[..d])) == LaneDocs(l)
  {
    DocsCut(l.items, d);
    hide DocsOf;
    var a, b, c := multiset(DocsOf(l.items[..d])), multiset(DocsOf(l.items[d..])), multiset(l.delivered);
    assert (b + c) + a == (a + b) + c;
  }

  lemma LaneGains(l: Lane, id: string, docs: seq<Doc>, put: seq<Doc>, used: set<string>)
    ensures LaneDocs(l.(items := l.items + [Item(id, docs)], put := put, used := used)) == LaneDocs(l) + multiset(docs)
  {
    AppendDocs(l, id, docs);
    hide DocsOf;
    var a, b, c := multiset(DocsOf(l.items)), multiset(docs), multiset(l.delivered);
    assert (a + b) + c == (a + c) + b;
  }

  /** Without the posted batch: it was at the front (`there`), or is not in the queue. */
  lemma LaneWithout(l: Lane, items: seq<Item>, docs: seq<Doc>, there: bool, sent: set<string>)
    requires DocsOf(l.items) == if there then docs + DocsOf(items) else DocsOf(items)
    ensures there ==> LaneDocs(l.(items := items)) + multiset(docs) == LaneDocs(l)
    ensures !there ==> LaneDocs(l.(items := items)) == LaneDocs(l)
    ensures there ==> LaneDocs(l.(items := items, delivered := l.delivered + docs, sent := sent)) == LaneDocs(l)
    ensures !there ==> LaneDocs(l.(items := items, delivered := l.delivered + docs, sent := sent)) == LaneDocs(l) + multiset(docs)
  {
    hide DocsOf;
    var a, b, c := multiset(DocsOf(items)), multiset(docs), multiset(l.delivered);
    assert multiset(docs + DocsOf(items)) == b + a;
    assert multiset(l.delivered + docs) == c + b;
    assert (b + a) + c == (a + c) + b;
    assert a + (c + b) == (a + c) + b;
  }

  /** One queue trades x for y. */
  lemma QueuesTrade(s: State, t: State, w: Which, x: multiset<Doc>, y: multiset<Doc>)
    requires LaneOf(t, OtherOf(w)) == LaneOf(s, OtherOf(w))
    requires LaneDocs(LaneOf(t, w)) + x == LaneDocs(LaneOf(s, w)) + y
    ensures Queues(t) + x == Queues(s) + y
  {
    hide LaneDocs;
    var a, b, c := LaneDocs(LaneOf(s, w)), LaneDocs(LaneOf(t, w)), LaneDocs(LaneOf(s, OtherOf(w)));
    assert Queues(s) == a + c && Queues(t) == b + c;
    assert b + c + x == (b + x) + c;
  }

  // ---- lines --------------------------------------------------------------------------------------

  lemma LineDrops(v: seq<Doc>, o: seq<Doc>, x: seq<Doc>, y: seq<Doc>, put: seq<Doc>)
    requires LineOf(v, o, x + y, put)
    ensures LineOf(v, o, y, put)
  {
    assert v + (o + (x + y)) == (v + o) + (x + y);
    SubseqWithout(v + o, x, y, put);
    assert (v + o) + y == v + (o + y);
  }

  lemma LineOrphans(v: seq<Doc>, o: seq<Doc>, x: seq<Doc>, y: seq<Doc>, put: seq<Doc>)
    requires LineOf(v, [], (o + x) + y, put)
    ensures LineOf(v, o, y, put)
  {
    assert v + ([] + ((o + x) + y)) == (v + o) + (x + y);
    SubseqWithout(v + o, x, y, put);
    assert (v + o) + y == v + (o + y);
  }

  lemma LineForgets(v: seq<Doc>, o: seq<Doc>, y: seq<Doc>, put: seq<Doc>)
    requires LineOf(v, o, y, put)
    ensures LineOf(v, [], y, put)
  {
    SubseqWithout(v, o, y, put);
    assert [] + y == y;
  }

  lemma LineGrows(v: seq<Doc>, o: seq<Doc>, y: seq<Doc>, put: seq<Doc>, x: seq<Doc>)
    requires LineOf(v, o, y, put)
    ensures LineOf(v, o, y + x, put + x)
  {
    SubseqAppend(v + (o + y), put, x);
    assert v + (o + y) + x == v + (o + (y + x));
  }

  /** The posted documents, at the front of the queue or only with the sender, are delivered. */
  lemma LineDelivers(v: seq<Doc>, o: seq<Doc>, x: seq<Doc>, y: seq<Doc>, q: seq<Doc>, put: seq<Doc>)
    requires LineOf(v, o, q, put) && ((o == [] && q == x + y) || (o == x && q == y))
    ensures LineOf(v + x, [], y, put) && LineOf(v, [], y, put)
  {
    assert o + q == x + y by { assert [] + (x + y) == x + y; }
    SubseqWithout(v, x, y, put);
    assert v + x + ([] + y) == v + (x + y);
    assert v + ([] + y) == v + y;
  }

  // ---- a cap takes a prefix -----------------------------------------------------------------------

  lemma DocsCut(items: seq<Item>, d: nat)
    requires d <= |items|
    ensures DocsOf(items) == DocsOf(items[..d]) + DocsOf(items[d..])
  {
    hide DocsOf;
    assert items[..d] + items[d..] == items;
    DocsOfTwoParts(items[..d], items[d..]);
  }

  /** Losing a prefix can only make the posted batch an orphan, and does so exactly when it stood first. */
  lemma LoseOrphan(s: State, w: Which, d: nat)
    requires IdInv(s) && d <= |LaneOf(s, w).items|
    ensures var t := Lose(s, w, d);
            var l := LaneOf(s, w);
      && Orphan(t, w) == (if InFlight(s, w) && (!Present(l, s.sender.it) || d > 0) then s.sender.it.docs else [])
      && (Orphan(t, w) != Orphan(s, w) ==> Orphan(s, w) == [] && d > 0 && l.items[0].docs == Orphan(t, w))
  {
    LoseFrame(s, w, d);
    hide IdsOk, Present, FirstOrGone, Lose;
    if InFlight(s, w) {
      LosePresence(LaneOf(s, w), d, s.sender.it);
    }
  }

  lemma LosePresence(l: Lane, d: nat, it: Item)
    requires FirstOrGone(l, it) && d <= |l.items|
    ensures Present(l.(items := l.items[d..]), it) <==> Present(l, it) && d == 0
    ensures Present(l, it) && d > 0 ==> l.items[0] == it
  {
    if d == 0 {
      assert l.items[0..] == l.items;
    } else {
      assert forall i :: 0 <= i < |l.items[d..]| ==> l.items[d..][i] == l.items[i + d];
    }
  }

  lemma OtherLane(s: State, t: State, w: Which)
    requires t.sender == s.sender && LaneOf(t, OtherOf(w)) == LaneOf(s, OtherOf(w))
    ensures Orphan(t, OtherOf(w)) == Orphan(s, OtherOf(w))
    ensures InOrder(t, OtherOf(w)) == InOrder(s, OtherOf(w))
  {}

  lemma LoseBalanced(s: State, w: Which, d: nat)
    requires IdInv(s) && Balanced(s) && d <= |LaneOf(s, w).items|
    ensures Balanced(Lose(s, w, d))
  {
    var l, t := LaneOf(s, w), Lose(s, w, d);
    LoseOrphan(s, w, d);
    OtherLane(s, t, w);
    LoseHit(s, t, w);
    LaneLoses(l, d);
    hide Orphans, Orphan, Queues, LaneDocs, DocsOf, Sums, Hand;
    var x := multiset(DocsOf(l.items[..d]));
    NoDocs(LaneDocs(l));
    QueuesTrade(s, t, w, x, multiset{});
    NoDocs(Queues(s));
    SameHand(s, t);
    QueueToRemoved(s.encoded, s.overlap, Hand(s), Queues(s), s.removed, Queues(t), x);
  }

  lemma SameHand(s: State, t: State)
    requires t.inHand == s.inHand && t.batcher == s.batcher
    ensures Hand(t) == Hand(s)
  {}

  lemma SameQueues(s: State, t: State)
    requires t.spool == s.spool && t.mem == s.mem
    ensures Queues(t) == Queues(s)
  {}

  lemma LoseHit(s: State, t: State, w: Which)
    requires s.overlap + Orphans(s) <= s.hit && t.overlap == s.overlap
    requires t.hit == s.hit + multiset(Orphan(t, w)) - multiset(Orphan(s, w))
    requires Orphan(t, w) != Orphan(s, w) ==> Orphan(s, w) == []
    requires Orphan(t, OtherOf(w)) == Orphan(s, OtherOf(w))
    ensures t.overlap + Orphans(t) <= t.hit
  {
    hide Orphan;
    var a, b, c := multiset(Orphan(s, w)), multiset(Orphan(t, w)), multiset(Orphan(s, OtherOf(w)));
    assert Orphans(s) == a + c && Orphans(t) == b + c;
    assert s.hit + a - a == s.hit;
  }

  lemma LoseInOrder(s: State, w: Which, d: nat)
    requires IdInv(s) && InOrder(s, w) && d <= |LaneOf(s, w).items|
    ensures InOrder(Lose(s, w, d), w)
  {
    var l, t := LaneOf(s, w), Lose(s, w, d);
    LoseOrphan(s, w, d);
    DocsCut(l.items, d);
    var rest := DocsOf(l.items[d..]);
    hide Orphan, LineOf;
    if Orphan(t, w) == Orphan(s, w) {
      LineDrops(l.delivered, Orphan(s, w), DocsOf(l.items[..d]), rest, l.put);
    } else {
      FirstDocs(l.items, d);
      LineOrphans(l.delivered, Orphan(t, w), DocsOf(l.items[1..d]), rest, l.put);
    }
  }

  lemma FirstDocs(items: seq<Item>, d: nat)
    requires 0 < d <= |items|
    ensures DocsOf(items[..d]) == items[0].docs + DocsOf(items[1..d])
  {
    assert items[..d] == [items[0]] + items[1..d];
    DocsOfTwoParts([items[0]], items[1..d]);
    DocsOfOne(items[0]);
  }

  lemma LoseKeeps(s: State, w: Which, d: nat)
    requires Inv(s) && d <= |LaneOf(s, w).items|
    ensures Inv(Lose(s, w, d))
  {
    hide IdInv, Balanced, InOrder;
    LoseKeepsIds(s, w, d);
    LoseBalanced(s, w, d);
    LoseInOrder(s, w, d);
    OtherLane(s, Lose(s, w, d), w);
  }

  // ---- a batch is stored ----------------------------------------------------------------------------

  /** A new identity cannot be the posted batch's. */
  lemma AppendOrphan(s: State, w: Which, id: string, docs: seq<Doc>)
    requires IdInv(s) && Fresh(id, LaneOf(s, w).used)
    ensures Orphan(Append(s, w, id, docs), w) == Orphan(s, w)
  {
    hide IdsOk, DocsOf, Descends;
    var l, t := LaneOf(s, w), Append(s, w, id, docs);
    if InFlight(s, w) {
      var it := s.sender.it;
      assert Present(LaneOf(t, w), it) <==> Present(l, it) by {
        if Present(l, it) {
          var i :| 0 <= i < |l.items| && l.items[i].id == it.id;
          assert LaneOf(t, w).items[i].id == it.id;
        }
      }
    }
  }

  lemma AppendDocs(l: Lane, id: string, docs: seq<Doc>)
    ensures DocsOf(l.items + [Item(id, docs)]) == DocsOf(l.items) + docs
  {
    DocsOfTwoParts(l.items, [Item(id, docs)]);
    DocsOfOne(Item(id, docs));
  }

  lemma AppendInOrder(s: State, w: Which, id: string, docs: seq<Doc>)
    requires IdInv(s) && InOrder(s, w) && Fresh(id, LaneOf(s, w).used)
    ensures InOrder(Append(s, w, id, docs), w)
  {
    AppendOrphan(s, w, id, docs);
    hide Orphan, Fresh, LineOf, DocsOf;
    var l := LaneOf(s, w);
    AppendDocs(l, id, docs);
    LineGrows(l.delivered, Orphan(s, w), DocsOf(l.items), l.put, docs);
  }

  lemma AppendBalanced(s: State, w: Which, id: string, docs: seq<Doc>, t: State)
    requires IdInv(s) && Balanced(s) && Fresh(id, LaneOf(s, w).used)
    requires t == Append(s, w, id, docs).(inHand := t.inHand, batcher := t.batcher)
    requires Hand(s) == Hand(t) + multiset(docs)
    ensures Balanced(t)
  {
    var l, u := LaneOf(s, w), Append(s, w, id, docs);
    AppendOrphan(s, w, id, docs);
    OtherLane(s, u, w);
    SameFlight(u, t);
    LaneGains(l, id, docs, l.put + docs, l.used + {id});
    hide Orphan, Fresh, DocsOf, Hand, LaneDocs, Queues, Sums;
    var x := multiset(docs);
    NoDocs(LaneDocs(LaneOf(t, w)));
    QueuesTrade(s, t, w, multiset{}, x);
    NoDocs(Queues(t));
    HandToQueue(s.encoded, s.overlap, Hand(s), Queues(s), s.removed, Hand(t), x);
  }

  /** The batcher's documents change hands. */
  lemma AppendKeeps(s: State, w: Which, id: string, docs: seq<Doc>, t: State)
    requires Inv(s) && Fresh(id, LaneOf(s, w).used)
    requires t == Append(s, w, id, docs).(inHand := t.inHand, batcher := t.batcher)
    requires Hand(s) == Hand(t) + multiset(docs)
    ensures Inv(t)
  {
    var u := Append(s, w, id, docs);
    hide IdInv, Balanced, InOrder, Fresh, Hand;
    AppendBalanced(s, w, id, docs, t);
    AppendInOrder(s, w, id, docs);
    AppendKeepsIds(s, w, id, docs);
    OtherLane(s, u, w);
    SameFlight(u, t);
    SameIds(u, t);
  }

  lemma SameIds(s: State, t: State)
    requires IdInv(s) && t.spool == s.spool && t.mem == s.mem && t.sender == s.sender
    ensures IdInv(t)
  {}

  /** Nothing about queues and sender changes. */
  lemma SameFlight(s: State, t: State)
    requires t.spool == s.spool && t.mem == s.mem && t.sender == s.sender
    ensures Orphan(t, SpoolLane) == Orphan(s, SpoolLane) && Orphan(t, MemLane) == Orphan(s, MemLane)
    ensures InOrder(t, SpoolLane) == InOrder(s, SpoolLane) && InOrder(t, MemLane) == InOrder(s, MemLane)
  {}

  // ---- the sender lands ---------------------------------------------------------------------------

  lemma LandInOrder(s: State, t: State, w: Which)
    requires InOrder(s, w) && LaneOf(t, w) == LaneOf(s, w) && (Orphan(t, w) == Orphan(s, w) || Orphan(t, w) == [])
    ensures InOrder(t, w)
  {
    hide Orphan, LineOf, DocsOf;
    var l := LaneOf(s, w);
    LineForgets(l.delivered, Orphan(s, w), DocsOf(l.items), l.put);
  }

  /** The queues are as they were and the post goes on or is over; then an orphan is forgotten. */
  lemma LandKeeps(s: State, t: State)
    requires Inv(s) && t == s.(sender := t.sender, kick := t.kick, retry := t.retry) && IdInv(t)
    requires Orphan(t, SpoolLane) == Orphan(s, SpoolLane) || Orphan(t, SpoolLane) == []
    requires Orphan(t, MemLane) == Orphan(s, MemLane) || Orphan(t, MemLane) == []
    ensures Inv(t)
  {
    hide IdInv, InOrder, Orphan, Queues, Hand, Sums;
    LandInOrder(s, t, SpoolLane);
    LandInOrder(s, t, MemLane);
    SameHand(s, t);
    SameQueues(s, t);
    assert Orphans(t) <= Orphans(s);
  }

  /** The documents of the posted batch are at the front of its queue, or only with the sender. */
  lemma TakenOff(s: State, w: Which)
    requires IdInv(s) && InFlight(s, w)
    ensures var it, l := s.sender.it, LaneOf(s, w);
            var rest := DocsOf(Without(l.items, it.id));
      && (Present(l, it) ==> DocsOf(l.items) == it.docs + rest && Orphan(s, w) == [])
      && (!Present(l, it) ==> DocsOf(l.items) == rest && Orphan(s, w) == it.docs)
  {
    hide Without, IdsOk;
    var it, l := s.sender.it, LaneOf(s, w);
    assert FirstOrGone(l, it);
    WithoutPosted(l, it);
    if Present(l, it) {
      FirstDocs(l.items, |l.items|);
      assert l.items[..|l.items|] == l.items && l.items[1..|l.items|] == l.items[1..];
    }
  }

  /** The bound on what is counted twice, when the sender lands having counted x again. */
  lemma LandedHit(s: State, t: State, w: Which, x: multiset<Doc>)
    requires s.overlap + Orphans(s) <= s.hit && t.hit == s.hit && t.overlap == s.overlap + x
    requires x == multiset(Orphan(s, w)) && Orphan(t, w) == [] && Orphan(t, OtherOf(w)) == [] && Orphan(s, OtherOf(w)) == []
    ensures t.overlap + Orphans(t) <= t.hit
  {
    hide Orphan;
    assert Orphans(s) == x + multiset(Orphan(s, OtherOf(w)));
    assert Orphans(t) == multiset{};
  }

  /** Landing changes one queue and the counts, nothing the batcher holds. */
  ghost predicate Lands(s: State, t: State, w: Which, l: Lane, removed: multiset<Doc>, overlap: multiset<Doc>) {
    && InFlight(s, w) && !Flying(t.sender)
    && LaneOf(t, w) == l && LaneOf(t, OtherOf(w)) == LaneOf(s, OtherOf(w))
    && t.inHand == s.inHand && t.batcher == s.batcher && t.encoded == s.encoded && t.hit == s.hit
    && t.removed == removed && t.overlap == overlap
  }

  lemma TakeOffLands(s: State, t: State)
    requires Flying(s.sender)
    requires t == GiveUp(s, s.sender.w, s.sender.it)
    ensures var w, it := s.sender.w, s.sender.it;
            var l := LaneOf(s, w);
            Lands(s, t, w, l.(items := Without(l.items, it.id)), s.removed + multiset(it.docs), s.overlap + Again(l, it))
  {
    hide Without, Present;
  }

  lemma AcceptLands(s: State, t: State)
    requires s.sender.Answered? && t == Deliver(s, s.sender.w, s.sender.it)
    ensures var w, it := s.sender.w, s.sender.it;
            var l := LaneOf(s, w);
            Lands(s, t, w, l.(items := Without(l.items, it.id), delivered := l.delivered + it.docs, sent := l.sent + {it.id}),
                  s.removed, s.overlap + Again(l, it))
  {
    hide Without, Present;
  }

  lemma HalveLands(s: State, t: State)
    requires s.sender.Answered? && Present(LaneOf(s, s.sender.w), s.sender.it) && |s.sender.it.docs| >= 2
    requires t == SplitUp(s, s.sender.w, s.sender.it, true)
    ensures var w, it := s.sender.w, s.sender.it;
            var l := LaneOf(s, w);
            Lands(s, t, w, l.(items := Halved(l.items, it), used := l.used + {it.id + "a", it.id + "b"}), s.removed, s.overlap)
  {
    hide Halved, Present;
  }

  /** A landing that keeps one queue's sum, up to what moves to the removed and what is counted again. */
  lemma LandsBalanced(s: State, t: State, w: Which, l: Lane, moved: multiset<Doc>, again: multiset<Doc>, removed: multiset<Doc>)
    requires Balanced(s) && Lands(s, t, w, l, removed, s.overlap + again)
    requires again == multiset(Orphan(s, w))
    requires (LaneDocs(l) + moved == LaneDocs(LaneOf(s, w)) + again && removed == s.removed)
          || (LaneDocs(l) + moved == LaneDocs(LaneOf(s, w)) && removed == s.removed + moved + again)
    requires removed == s.removed ==> moved == multiset{}
    ensures Balanced(t)
  {
    LandedOrphans(s, t, w);
    LandedHit(s, t, w, again);
    SameHand(s, t);
    hide Orphans, Orphan, LaneDocs, Queues, Hand, Sums, LaneOf, InFlight;
    var q := Queues(s);
    CountedAgain(s.encoded, s.overlap, Hand(s), q, s.removed, again);
    NoDocs(Queues(t));
    NoDocs(q);
    NoDocs(LaneDocs(LaneOf(s, w)));
    if removed == s.removed {
      QueuesTrade(s, t, w, moved, again);
    } else {
      QueuesTrade(s, t, w, moved, multiset{});
      QueueToRemoved(s.encoded, s.overlap + again, Hand(s), q, s.removed + again, Queues(t), moved);
      assert s.removed + again + moved == s.removed + moved + again;
    }
  }

  lemma LandedOrphans(s: State, t: State, w: Which)
    requires InFlight(s, w) && !Flying(t.sender)
    ensures Orphan(t, w) == [] && Orphan(t, OtherOf(w)) == [] && Orphan(s, OtherOf(w)) == []
  {}

  lemma LandsOther(s: State, t: State, w: Which, l: Lane, removed: multiset<Doc>, overlap: multiset<Doc>)
    requires Lands(s, t, w, l, removed, overlap) && InOrder(s, OtherOf(w))
    ensures InOrder(t, OtherOf(w)) && Orphan(t, w) == []
  {
    LandedOrphans(s, t, w);
    hide DocsOf, LineOf;
  }

  lemma BothLanes(s: State, w: Which)
    ensures InOrder(s, w) && InOrder(s, OtherOf(w)) <==> InOrder(s, SpoolLane) && InOrder(s, MemLane)
  {
    hide InOrder;
  }

  lemma AcceptKeeps(s: State, t: State)
    requires Inv(s) && s.sender.Answered? && t == Deliver(s, s.sender.w, s.sender.it)
    ensures Inv(t)
  {
    var w, it := s.sender.w, s.sender.it;
    var l, rest := LaneOf(s, w), Without(LaneOf(s, w).items, it.id);
    var l' := l.(items := rest, delivered := l.delivered + it.docs, sent := l.sent + {it.id});
    AcceptKeepsIds(s);
    AcceptLands(s, t);
    TakenOff(s, w);
    LaneWithout(l, rest, it.docs, Present(l, it), l.sent + {it.id});
    BothLanes(s, w);
    BothLanes(t, w);
    hide IdInv, Balanced, Orphan, DocsOf, Without, Present, LineOf, Flying, Lands, Deliver, LaneDocs;
    NoDocs(LaneDocs(l));
    NoDocs(LaneDocs(l'));
    LandsOther(s, t, w, l', s.removed, s.overlap + Again(l, it));
    LandsBalanced(s, t, w, l', multiset{}, Again(l, it), s.removed);
    LineDelivers(l.delivered, Orphan(s, w), it.docs, DocsOf(rest), DocsOf(l.items), l.put);
    LandsLane(s, t, w, l', s.removed, s.overlap + Again(l, it));
  }

  lemma LandsLane(s: State, t: State, w: Which, l: Lane, removed: multiset<Doc>, overlap: multiset<Doc>)
    requires Lands(s, t, w, l, removed, overlap)
    ensures LaneOf(t, w) == l
  {}

  /** A reported removal of the posted batch balances, whether the batch was there or not. */
  lemma RemoveBalanced(s: State, t: State, w: Which, it: Item, l: Lane)
    requires Balanced(s) && InFlight(s, w) && it == s.sender.it
    requires Lands(s, t, w, l, s.removed + multiset(it.docs), s.overlap + Again(LaneOf(s, w), it))
    requires Present(LaneOf(s, w), it) ==> LaneDocs(l) + multiset(it.docs) == LaneDocs(LaneOf(s, w)) && Orphan(s, w) == []
    requires !Present(LaneOf(s, w), it) ==> LaneDocs(l) == LaneDocs(LaneOf(s, w)) && Orphan(s, w) == it.docs
    ensures Balanced(t)
  {
    var there := Present(LaneOf(s, w), it);
    var again, x := Again(LaneOf(s, w), it), multiset(it.docs);
    var moved := if there then x else multiset{};
    hide Balanced, Orphan, Lands, LaneDocs, Present, LaneOf, InFlight;
    NoDocs(LaneDocs(l));
    assert s.removed + x == s.removed + moved + again;
    RemovedMore(s.removed, x);
    LandsBalanced(s, t, w, l, moved, again, s.removed + x);
  }

  lemma RemoveKeeps(s: State, t: State)
    requires Inv(s) && Flying(s.sender)
    requires t == GiveUp(s, s.sender.w, s.sender.it)
    ensures Inv(t)
  {
    var w, it := s.sender.w, s.sender.it;
    var l, rest := LaneOf(s, w), Without(LaneOf(s, w).items, it.id);
    var l' := l.(items := rest);
    TakeOffKeepsIds(s, t);
    TakeOffLands(s, t);
    TakenOff(s, w);
    LaneWithout(l, rest, it.docs, Present(l, it), l.sent);
    BothLanes(s, w);
    BothLanes(t, w);
    hide IdInv, Balanced, Orphan, DocsOf, Without, LineOf, Flying, Lands, GiveUp, LaneDocs, Present, Again;
    LandsOther(s, t, w, l', s.removed + multiset(it.docs), s.overlap + Again(l, it));
    RemoveBalanced(s, t, w, it, l');
    LineDelivers(l.delivered, Orphan(s, w), it.docs, DocsOf(rest), DocsOf(l.items), l.put);
    LandsLane(s, t, w, l', s.removed + multiset(it.docs), s.overlap + Again(l, it));
  }

  lemma RemovedMore(r: multiset<Doc>, x: multiset<Doc>)
    ensures r + x == r ==> x == multiset{}
  {
    if r + x == r {
      assert |r + x| == |r| + |x|;
    }
  }

  lemma HalveKeeps(s: State, t: State)
    requires Inv(s) && s.sender.Answered? && Present(LaneOf(s, s.sender.w), s.sender.it) && |s.sender.it.docs| >= 2
    requires t == SplitUp(s, s.sender.w, s.sender.it, true)
    ensures Inv(t)
  {
    var w, it := s.sender.w, s.sender.it;
    var l := LaneOf(s, w);
    var l' := l.(items := Halved(l.items, it), used := l.used + {it.id + "a", it.id + "b"});
    PresentDocs(s, w);
    TooLargeKeepsIds(s, true);
    HalveLands(s, t);
    BothLanes(s, w);
    BothLanes(t, w);
    assert LaneDocs(l') == LaneDocs(l);
    hide IdInv, Balanced, Orphan, DocsOf, Halved, Present, LineOf, Flying, Lands, SplitUp, LaneDocs;
    NoDocs(LaneDocs(l));
    NoDocs(s.overlap);
    LandsOther(s, t, w, l', s.removed, s.overlap);
    LandsBalanced(s, t, w, l', multiset{}, multiset{}, s.removed);
    LandsLane(s, t, w, l', s.removed, s.overlap);
  }

  lemma PresentDocs(s: State, w: Which)
    requires IdInv(s) && InFlight(s, w) && Present(LaneOf(s, w), s.sender.it) && |s.sender.it.docs| >= 2
    ensures DocsOf(Halved(LaneOf(s, w).items, s.sender.it)) == DocsOf(LaneOf(s, w).items)
    ensures Orphan(s, w) == []
  {
    hide DocsOf, Halved, IdsOk;
    assert FirstOrGone(LaneOf(s, w), s.sender.it);
    HalvedKeepsDocs(LaneOf(s, w).items, s.sender.it);
  }

  // ---- every step -----------------------------------------------------------------------------------

  /** Only the batcher's side changes, and what it adds to its hands it has encoded. */
  lemma HandKeeps(s: State, t: State, x: multiset<Doc>)
    requires Inv(s) && t.spool == s.spool && t.mem == s.mem && t.sender == s.sender
    requires t.removed == s.removed && t.hit == s.hit && t.overlap == s.overlap
    requires Hand(t) == Hand(s) + x && t.encoded == s.encoded + x
    ensures Inv(t)
  {
    SameFlight(s, t);
    SameQueues(s, t);
    SameIds(s, t);
    hide IdInv, InOrder, Orphan, Queues, Hand;
    assert s.encoded + x + s.overlap == Hand(s) + x + Queues(s) + s.removed by {
      assert s.encoded + x + s.overlap == s.encoded + s.overlap + x;
      assert Hand(s) + x + Queues(s) + s.removed == Hand(s) + Queues(s) + s.removed + x;
    }
  }

  lemma EncodeKeeps(s: State, doc: Doc)
    requires Inv(s) && s.batcher.Collecting?
    ensures Inv(Next(s, Encode(doc)))
  {
    var t := Next(s, Encode(doc));
    hide Inv;
    HandEncoded(s, t, doc);
    hide Hand;
    HandKeeps(s, t, multiset{doc});
  }

  lemma HandEncoded(s: State, t: State, doc: Doc)
    requires s.batcher.Collecting? && t.batcher.Collecting? && t.inHand == s.inHand + [doc]
    ensures Hand(t) == Hand(s) + multiset{doc}
  {}

  lemma StoreKeeps(s: State, w: Which, id: string, lost: nat, docs: seq<Doc>, t: State)
    requires Inv(s) && lost <= |LaneOf(s, w).items| && Fresh(id, LaneOf(s, w).used)
    requires t == Append(Lose(s, w, lost), w, id, docs).(inHand := t.inHand, batcher := t.batcher)
    requires Hand(s) == Hand(t) + multiset(docs)
    ensures Inv(t)
  {
    hide Inv, Fresh, Append, Hand;
    var u := Lose(s, w, lost);
    LoseKeeps(s, w, lost);
    LoseFrame(s, w, lost);
    SameHand(s, u);
    AppendKeeps(u, w, id, docs, t);
  }

  lemma SpoolStoresKeeps(s: State, id: string, lost: nat)
    requires Inv(s) && Enabled(s, SpoolStores(id, lost))
    ensures Inv(Next(s, SpoolStores(id, lost)))
  {
    hide Inv, Lose, Append, Fresh;
    StoreKeeps(s, SpoolLane, id, lost, s.inHand, Next(s, SpoolStores(id, lost)));
  }

  lemma MemStoresKeeps(s: State, id: string, lost: nat)
    requires Inv(s) && Enabled(s, MemStores(id, lost))
    ensures Inv(Next(s, MemStores(id, lost)))
  {
    var t := Next(s, MemStores(id, lost));
    assert t.inHand == s.inHand by { hide Inv, Fresh, DocsOf, Orphan; }
    hide Inv, Lose, Append, Fresh;
    StoreKeeps(s, MemLane, id, lost, s.batcher.docs, t);
  }

  lemma SpoolRefusesKeeps(s: State, lost: nat)
    requires Inv(s) && Enabled(s, SpoolRefuses(lost))
    ensures Inv(Next(s, SpoolRefuses(lost)))
  {
    var t, u := Next(s, SpoolRefuses(lost)), Lose(s, SpoolLane, lost);
    LoseKeeps(s, SpoolLane, lost);
    LoseFrame(s, SpoolLane, lost);
    hide Inv, Lose, Hand;
    HandRefused(u, t);
    NoDocs(u.encoded);
    HandKeeps(u, t, multiset{});
  }

  lemma HandRefused(s: State, t: State)
    requires s.batcher.Collecting? && t.inHand == [] && t.batcher == Refused(s.inHand)
    ensures Hand(t) == Hand(s) + multiset{}
  {}

  lemma WakeKeeps(s: State, step: Step)
    requires Inv(s) && Enabled(s, step) && (step.Wake? || step.StartWake?)
    ensures Inv(Next(s, step))
  {
    hide Inv;
    NoDocs(Hand(s));
    NoDocs(s.encoded);
    HandKeeps(s, Next(s, step), multiset{});
  }

  lemma FirstIsPresent(s: State, w: Which)
    requires InFlight(s, w) && LaneOf(s, w).items != [] && s.sender.it == LaneOf(s, w).items[0]
    ensures Orphan(s, w) == [] && Orphan(s, OtherOf(w)) == []
  {
    assert LaneOf(s, w).items[0].id == s.sender.it.id;
  }

  lemma Grounded(s: State)
    requires !Flying(s.sender)
    ensures Orphan(s, SpoolLane) == [] && Orphan(s, MemLane) == []
  {}

  lemma CheckKeeps(s: State, step: Step)
    requires Inv(s) && Enabled(s, step) && (step.CheckSpool? || step.CheckMem?)
    ensures Inv(Next(s, step))
  {
    var t := Next(s, step);
    StepKeepsIds(s, step);
    if Flying(t.sender) {
      FirstIsPresent(t, t.sender.w);
    } else {
      Grounded(t);
    }
    if step.CheckSpool? {
      LoseKeeps(s, SpoolLane, step.lost);
      hide Inv, IdInv, Orphan, Lose;
      LandKeeps(Lose(s, SpoolLane, step.lost), t);
    } else {
      hide Inv, IdInv, Orphan;
      LandKeeps(s, t);
    }
  }

  lemma SameOrphans(s: State, t: State)
    requires t.spool == s.spool && t.mem == s.mem && Flying(s.sender)
    requires !Flying(t.sender) || (t.sender.w == s.sender.w && t.sender.it == s.sender.it)
    ensures Orphan(t, SpoolLane) == Orphan(s, SpoolLane) || Orphan(t, SpoolLane) == []
    ensures Orphan(t, MemLane) == Orphan(s, MemLane) || Orphan(t, MemLane) == []
  {}

  lemma SenderKeeps(s: State, step: Step)
    requires Inv(s) && Enabled(s, step) && (step.TakeKick? || step.TimerFires? || step.Answer?)
    ensures Inv(Next(s, step))
  {
    hide IdInv, Balanced, InOrder, Orphan, Lose, Append, Fresh, Acted, GiveUp;
    var t := Next(s, step);
    StepKeepsIds(s, step);
    if step.Answer? {
      StaysKeeps(s, t);
    } else {
      Grounded(t);
      hide Inv;
      LandKeeps(s, t);
    }
  }

  lemma TooLargeKeeps(s: State, ok: bool)
    requires Inv(s) && s.sender.Answered? && s.sender.reply.TooLarge? && Enabled(s, Act(ok))
    ensures Inv(Next(s, Act(ok)))
  {
    hide Balanced, InOrder, IdInv, SplitUp, Present, LaneOf;
    if |s.sender.it.docs| >= 2 && Present(LaneOf(s, s.sender.w), s.sender.it) && ok {
      HalveKeeps(s, Next(s, Act(ok)));
    } else {
      StepKeepsIds(s, Act(ok));
      TooLargeStays(s, ok);
      StaysKeeps(s, Next(s, Act(ok)));
    }
  }

  /** The queues are as they were, and the same post goes on or is over. */
  lemma StaysKeeps(s: State, t: State)
    requires Inv(s) && IdInv(t) && Flying(s.sender)
    requires t == s.(sender := t.sender, kick := t.kick, retry := t.retry)
    requires !Flying(t.sender) || (t.sender.w == s.sender.w && t.sender.it == s.sender.it)
    ensures Inv(t)
  {
    SameOrphans(s, t);
    hide Inv, IdInv, Orphan;
    LandKeeps(s, t);
  }

  lemma TooLargeStays(s: State, ok: bool)
    requires s.sender.Answered? && s.sender.reply.TooLarge? && Enabled(s, Act(ok))
    requires !(|s.sender.it.docs| >= 2 && Present(LaneOf(s, s.sender.w), s.sender.it) && ok)
    ensures var t := Next(s, Act(ok));
      && t == s.(sender := t.sender)
      && (t.sender.Checking? || t.sender == Discarding(s.sender.w, s.sender.it))
  {
    hide Halved, Present;
  }

  lemma ActKeeps(s: State, ok: bool)
    requires Inv(s) && Enabled(s, Act(ok))
    ensures Inv(Next(s, Act(ok)))
  {
    hide Inv, Deliver, GiveUp, SplitUp;
    match s.sender.reply
    case Accepted => AcceptKeeps(s, Deliver(s, s.sender.w, s.sender.it));
    case Rejected => RemoveKeeps(s, GiveUp(s, s.sender.w, s.sender.it));
    case TooLarge => TooLargeKeeps(s, ok);
  }

  /** Every step of every process keeps the identities, the account and the order. */
  lemma StepKeeps(s: State, step: Step)
    requires Inv(s) && Enabled(s, step)
    ensures Inv(Next(s, step))
  {
    match step
    case Encode(doc) => EncodeKeeps(s, doc);
    case SpoolStores(id, lost) => SpoolStoresKeeps(s, id, lost);
    case SpoolRefuses(lost) => SpoolRefusesKeeps(s, lost);
    case MemStores(id, lost) => MemStoresKeeps(s, id, lost);
    case Wake => WakeKeeps(s, step);
    case StartWake => WakeKeeps(s, step);
    case TakeKick => SenderKeeps(s, step);
    case TimerFires => SenderKeeps(s, step);
    case CheckSpool(_) => CheckKeeps(s, step);
    case CheckMem => CheckKeeps(s, step);
    case Answer(_) => SenderKeeps(s, step);
    case Act(ok) => ActKeeps(s, ok);
    case Discard =>
      hide Inv, GiveUp;
      RemoveKeeps(s, Next(s, step));
  }

  // ---- whole runs -------------------------------------------------------------------------------------

  lemma InitialIds(s: State)
    requires Initial(s)
    ensures IdInv(s)
  {
    hide Reaches, DocsOf;
    assert IdsOk(s.spool) by {
      forall i | 0 <= i < |s.spool.items| ensures s.spool.items[i].id in s.spool.used {
        assert s.spool.items[i] in s.spool.items;
      }
    }
  }

  lemma InitialLine(docs: seq<Doc>)
    ensures LineOf([], [], docs, docs)
  {
    SubseqSelf(docs);
    assert [] + ([] + docs) == docs;
  }

  lemma InitialHolds(s: State)
    requires Initial(s)
    ensures Inv(s)
  {
    InitialIds(s);
    Grounded(s);
    InitialLine(DocsOf(s.spool.items));
    InitialLine([]);
    assert DocsOf(s.mem.items) == [];
    hide IdInv, LineOf, Orphan, DocsOf, Descends, Unrelated;
  }

  lemma {:induction false} RunKeeps(ss: seq<State>, steps: seq<Step>, i: nat)
    requires IsRun(ss, steps) && i <= |steps|
    ensures Inv(ss[i])
  {
    hide Inv, Enabled, Next, Initial;
    if i == 0 {
      InitialHolds(ss[0]);
    } else {
      RunKeeps(ss, steps, i - 1);
      StepKeeps(ss[i - 1], steps[i - 1]);
    }
  }

  /** The wake-up invariant needs nothing of the names found at the start. */
  lemma {:induction false} RunStaysAwake(ss: seq<State>, steps: seq<Step>, i: nat)
    requires Follows(ss, steps) && Start(ss[0]) && i <= |steps|
    ensures Awake(ss[i])
  {
    hide Awake, Enabled, Next, Start;
    if i == 0 {
      StartsAwake(ss[0]);
    } else {
      RunStaysAwake(ss, steps, i - 1);
      StepStaysAwake(ss[i - 1], steps[i - 1]);
    }
  }

  lemma StartsAwake(s: State)
    requires Start(s)
    ensures Awake(s)
  {
    hide DocsOf, IdsOf;
  }

  /** No lost wake-up: at any moment of any run, whatever a queue holds is covered. A kick is in the slot, the retry timer
      is armed, a wake is owed by the batcher or by Run, or the sender is in drain with its check of that queue ahead. */
  lemma NoLostWakeUp(ss: seq<State>, steps: seq<Step>, i: nat)
    requires Follows(ss, steps) && Start(ss[0]) && i <= |steps|
    ensures var s := ss[i];
      && (s.spool.items != [] ==> s.kick || s.retry || s.batcher.Owes? || s.starting || !(s.sender.Waiting? || s.sender.SpoolChecked?))
      && (s.mem.items != [] ==> s.kick || s.retry || s.batcher.Owes? || s.starting || !s.sender.Waiting?)
  {
    RunStaysAwake(ss, steps, i);
    hide Start, Next, Enabled;
  }

  /** From s the sender comes to look at its queues by one step, or by two. */
  predicate Leads(s: State, first: Step, second: Step) {
    && Enabled(s, first) && (first.Wake? || first.StartWake? || first.TakeKick? || first.TimerFires?)
    && var t := Next(s, first);
       t.sender.Checking? || (second.TakeKick? && Enabled(t, second) && Next(t, second).sender.Checking?)
  }

  /** So a sender that waits while something is queued is at most two steps, both free to happen, from looking at it. */
  lemma WaitingIsWoken(ss: seq<State>, steps: seq<Step>, i: nat)
    requires Follows(ss, steps) && Start(ss[0]) && i <= |steps| && ss[i].sender.Waiting?
    requires ss[i].spool.items != [] || ss[i].mem.items != []
    ensures exists first, second :: Leads(ss[i], first, second)
  {
    RunStaysAwake(ss, steps, i);
    hide Start, Next, Enabled, Awake, Leads;
    WakesUp(ss[i]);
  }

  lemma WakesUp(s: State)
    requires Awake(s) && s.sender.Waiting? && (s.spool.items != [] || s.mem.items != [])
    ensures exists first, second :: Leads(s, first, second)
  {
    hide Lose, Append, Acted, GiveUp, Fresh;
    var first := if s.retry then TimerFires else if s.kick then TakeKick else if s.starting then StartWake else Wake;
    assert Leads(s, first, TakeKick);
  }

  // ---- what was removed, and by what ------------------------------------------------------------------

  /** Every removed document was taken by a cap of its queue or given up for an answer. */
  ghost predicate Tallied(s: State) {
    s.removed == multiset(s.tally.spoolCaps) + multiset(s.tally.memCaps) + multiset(s.tally.answers)
  }

  lemma TallyCap(y: Tally, w: Which, docs: seq<Doc>, removed: multiset<Doc>)
    requires removed == multiset(y.spoolCaps) + multiset(y.memCaps) + multiset(y.answers)
    ensures var z := Capped(y, w, docs);
            removed + multiset(docs) == multiset(z.spoolCaps) + multiset(z.memCaps) + multiset(z.answers)
  {
    var a, b, c, x := multiset(y.spoolCaps), multiset(y.memCaps), multiset(y.answers), multiset(docs);
    assert a + b + c + x == (a + x) + b + c;
    assert a + b + c + x == a + (b + x) + c;
  }

  lemma LoseTallies(s: State, w: Which, d: nat)
    requires Tallied(s) && d <= |LaneOf(s, w).items|
    ensures Tallied(Lose(s, w, d))
  {
    hide Orphan, DocsOf, Capped;
    TallyCap(s.tally, w, DocsOf(LaneOf(s, w).items[..d]), s.removed);
  }

  lemma GiveUpTallies(s: State, w: Which, it: Item)
    requires Tallied(s)
    ensures Tallied(GiveUp(s, w, it))
  {
    hide Without, Again;
    var a, b, c, x := multiset(s.tally.spoolCaps), multiset(s.tally.memCaps), multiset(s.tally.answers), multiset(it.docs);
    assert a + b + c + x == a + b + (c + x);
  }

  lemma SameTally(s: State, t: State)
    requires Tallied(s) && t.removed == s.removed && t.tally == s.tally
    ensures Tallied(t)
  {}

  lemma ActTallies(s: State, ok: bool)
    requires Tallied(s) && Enabled(s, Act(ok))
    ensures Tallied(Next(s, Act(ok)))
  {
    hide Tallied, GiveUp, Again, Without, Halved, Present;
    match s.sender.reply
    case Accepted => SameTally(s, Next(s, Act(ok)));
    case Rejected => GiveUpTallies(s, s.sender.w, s.sender.it);
    case TooLarge => SameTally(s, Next(s, Act(ok)));
  }

  lemma StepTallies(s: State, step: Step)
    requires Tallied(s) && Enabled(s, step)
    ensures Tallied(Next(s, step))
  {
    hide Tallied, Lose, GiveUp, Acted, Fresh;
    match step
    case SpoolStores(id, lost) =>
      LoseTallies(s, SpoolLane, lost);
      SameTally(Lose(s, SpoolLane, lost), Next(s, step));
    case SpoolRefuses(lost) =>
      LoseTallies(s, SpoolLane, lost);
      SameTally(Lose(s, SpoolLane, lost), Next(s, step));
    case MemStores(id, lost) =>
      LoseTallies(s, MemLane, lost);
      SameTally(Lose(s, MemLane, lost), Next(s, step));
    case CheckSpool(lost) =>
      LoseTallies(s, SpoolLane, lost);
      SameTally(Lose(s, SpoolLane, lost), Next(s, step));
    case Act(ok) => ActTallies(s, ok);
    case Discard => GiveUpTallies(s, s.sender.w, s.sender.it);
    case _ => SameTally(s, Next(s, step));
  }

  lemma {:induction false} RunTallies(ss: seq<State>, steps: seq<Step>, i: nat)
    requires Follows(ss, steps) && Start(ss[0]) && i <= |steps|
    ensures Tallied(ss[i])
  {
    hide Enabled, Next, DocsOf, IdsOf;
    if i > 0 {
      RunTallies(ss, steps, i - 1);
      hide Tallied;
      StepTallies(ss[i - 1], steps[i - 1]);
    }
  }

  /** Conservation: at any moment what was encoded, or found at the start, is in hand, queued, delivered, taken by a cap or
      given up for an answer; the count is exact unless a cap removed a batch while its post was out, and off by no more than
      that. */
  lemma Conservation(ss: seq<State>, steps: seq<Step>, i: nat)
    requires IsRun(ss, steps) && i <= |steps|
    ensures var s := ss[i];
      && s.encoded + s.overlap
         == multiset(s.inHand) + multiset(RefusedDocs(s))
            + (multiset(DocsOf(s.spool.items)) + multiset(s.spool.delivered)
               + (multiset(DocsOf(s.mem.items)) + multiset(s.mem.delivered)))
            + (multiset(s.tally.spoolCaps) + multiset(s.tally.memCaps) + multiset(s.tally.answers))
      && s.overlap <= s.hit
      && (s.hit == multiset{} ==> s.overlap == multiset{})
  {
    RunKeeps(ss, steps, i);
    RunTallies(ss, steps, i);
    hide IdInv, InOrder, Orphan, DocsOf, Initial, Enabled, Next;
  }

  /** Each queue delivers a subsequence of what was put into it, in order, halves and cap drops included. */
  lemma DeliveredInOrder(ss: seq<State>, steps: seq<Step>, i: nat, w: Which)
    requires IsRun(ss, steps) && i <= |steps|
    ensures Subseq(LaneOf(ss[i], w).delivered, LaneOf(ss[i], w).put)
  {
    RunKeeps(ss, steps, i);
    hide IdInv, Balanced, Orphan, DocsOf, Subseq;
    var l, o := LaneOf(ss[i], w), Orphan(ss[i], w);
    var tail := o + DocsOf(l.items);
    assert l.delivered + tail == l.delivered + (tail + []);
    SubseqWithout(l.delivered, tail, [], l.put);
    assert l.delivered + [] == l.delivered;
  }

  /** In flight: in every interleaving, with any batches put and dropped meanwhile, the batch being posted stands first in
      its queue, as it was read, or is gone from it; and no queue ever holds two batches of one name. */
  lemma InFlightIdentity(ss: seq<State>, steps: seq<Step>, i: nat)
    requires IsRun(ss, steps) && i <= |steps|
    ensures var s := ss[i];
      && Distinct(s.spool.items) && Distinct(s.mem.items)
      && (Flying(s.sender) ==>
            forall m :: 0 <= m < |LaneOf(s, s.sender.w).items| && LaneOf(s, s.sender.w).items[m].id == s.sender.it.id ==>
              m == 0 && LaneOf(s, s.sender.w).items[0] == s.sender.it)
  {
    RunKeeps(ss, steps, i);
    hide Balanced, InOrder, Initial, Next, Enabled, Reaches;
  }

  lemma ActSentGrows(s: State, ok: bool, w: Which)
    requires Enabled(s, Act(ok))
    ensures LaneOf(s, w).sent <= LaneOf(Next(s, Act(ok)), w).sent
  {
    hide Deliver, GiveUp, SplitUp;
    var v, it := s.sender.w, s.sender.it;
    match s.sender.reply
    case Accepted => DeliverSentGrows(s, v, it, w);
    case Rejected => GiveUpSentSame(s, v, it, w);
    case TooLarge => SplitUpSentSame(s, v, it, ok, w);
  }

  lemma DeliverSentGrows(s: State, v: Which, it: Item, w: Which)
    ensures LaneOf(s, w).sent <= LaneOf(Deliver(s, v, it), w).sent
    ensures it.id in LaneOf(Deliver(s, v, it), v).sent
  {
    hide Without, Again;
  }

  lemma GiveUpSentSame(s: State, v: Which, it: Item, w: Which)
    ensures LaneOf(s, w).sent == LaneOf(GiveUp(s, v, it), w).sent
  {
    hide Without, Again;
  }

  lemma SplitUpSentSame(s: State, v: Which, it: Item, ok: bool, w: Which)
    ensures LaneOf(s, w).sent == LaneOf(SplitUp(s, v, it, ok), w).sent
  {
    hide Halved, Present;
  }

  lemma SentOnlyGrows(s: State, step: Step, w: Which)
    requires Enabled(s, step)
    ensures LaneOf(s, w).sent <= LaneOf(Next(s, step), w).sent
  {
    hide DocsOf, Without, Halved, Present, Fresh, Orphan, Acted, Again;
    if step.Act? {
      ActSentGrows(s, step.ok, w);
    }
  }

  lemma {:induction false} SentStays(ss: seq<State>, steps: seq<Step>, i: nat, j: nat, w: Which)
    requires IsRun(ss, steps) && i <= j <= |steps|
    ensures LaneOf(ss[i], w).sent <= LaneOf(ss[j], w).sent
    decreases j
  {
    hide Initial, Enabled, Next;
    if i < j {
      SentStays(ss, steps, i, j - 1, w);
      SentOnlyGrows(ss[j - 1], steps[j - 1], w);
    }
  }

  lemma AcceptIsSent(s: State, ok: bool)
    requires Enabled(s, Act(ok)) && s.sender.reply.Accepted?
    ensures s.sender.it.id in LaneOf(Next(s, Act(ok)), s.sender.w).sent
  {
    hide DocsOf, Without, Present;
  }

  /** A batch answered with a 2xx is never posted again in that run, nor found in the queue. */
  lemma NeverPostedAgain(ss: seq<State>, steps: seq<Step>, i: nat, j: nat, ok: bool)
    requires IsRun(ss, steps) && i < j <= |steps| && steps[i] == Act(ok)
    requires ss[i].sender.Answered? && ss[i].sender.reply.Accepted?
    ensures var w, id := ss[i].sender.w, ss[i].sender.it.id;
      && (Flying(ss[j].sender) && ss[j].sender.w == w ==> ss[j].sender.it.id != id)
      && (forall m :: 0 <= m < |LaneOf(ss[j], w).items| ==> LaneOf(ss[j], w).items[m].id != id)
  {
    assert Enabled(ss[i], steps[i]) && ss[i + 1] == Next(ss[i], steps[i]);
    AcceptIsSent(ss[i], ok);
    SentStays(ss, steps, i + 1, j, ss[i].sender.w);
    RunKeeps(ss, steps, j);
    hide Balanced, InOrder, Enabled, Next, Initial, Reaches;
  }
}
