/** One pass of the sender over its queues: next and drain of internal/exporters/loom/shipper.go,
    with nothing being put meanwhile. */
module LoomDrain {
  import opened Options
  import opened LoomNames
  import opened LoomQueues
  import opened LoomSpoolLaws
  import opened LoomSpoolOps
  import S = LoomSpool
  import M = LoomMem

  /** What a post comes back with: no answer at all, or a status and the pause a 429 asks for. */
  datatype Answer = NoAnswer | Status(code: int, retryAfter: nat)

  /** What one round of drain meets outside: the clock, which files can be read, the answer, and whether the
      file operations that may follow succeed. */
  datatype Round = Round(now: S.Time, readable: string -> bool, answer: Answer, deleted: bool, okA: bool, okB: bool)

  /** The spool and the memory queue. */
  datatype Queues = Queues(sp: S.State, m: M.State)

  /** The batch to post next, and which queue it is first in. */
  datatype Found = Found(inSpool: bool, name: string, docs: seq<Doc>, n: nat)

  /** What became of documents, and in which round: delivered; rejected with 400 or 415; refused as too large; or lost,
      a whole batch of the spool before it could be posted. */
  datatype Fate =
    | Delivered(docs: seq<Doc>, round: nat)
    | Rejected(docs: seq<Doc>, round: nat)
    | Refused(docs: seq<Doc>, round: nat)
    | Lost(docs: seq<Doc>, round: nat, name: string, born: S.Time)

  predicate Accepts(a: Answer) {
    a.Status? && 200 <= a.code < 300
  }

  predicate TooLarge(a: Answer) {
    a.Status? && a.code == 413
  }

  predicate Limits(a: Answer) {
    a.Status? && a.code == 429
  }

  predicate Rejects(a: Answer) {
    a.Status? && (a.code == 400 || a.code == 415)
  }

  /** An answer after which drain goes on. */
  predicate Settles(a: Answer) {
    Accepts(a) || TooLarge(a) || Rejects(a)
  }

  // ---- one round ---------------------------------------------------------------------------------

  /** next: the spool's oldest, or memory's when the spool has none. */
  function Offered(l: S.Limits, q: Queues, r: Round): (o: (Queues, Option<Found>)) {
    var (sp, b) := S.AfterOldest(q.sp, l, r.now, r.readable);
    (q.(sp := sp),
     if b.Some? then Some(Found(true, b.value.name, b.value.docs, b.value.n))
     else if q.m.items == [] then None
     else Some(Found(false, q.m.items[0].name, q.m.items[0].docs, q.m.items[0].n)))
  }

  function TakenOff(q: Queues, f: Found, deleted: bool): Queues {
    if f.inSpool then q.(sp := S.AfterRemove(q.sp, f.name, deleted).0) else q.(m := M.AfterRemove(q.m, f.name))
  }

  function SplitOf(q: Queues, f: Found, r: Round): (Queues, bool) {
    if f.inSpool then
      var (sp, result) := S.AfterSplit(q.sp, f.name, f.docs, r.okA, r.okB);
      (q.(sp := sp), result == S.Split)
    else
      var (m, split) := M.AfterSplit(q.m, f.name, f.docs);
      (q.(m := m), split)
  }

  function AfterPost(q: Queues, f: Found, r: Round): Queues {
    if Accepts(r.answer) || Rejects(r.answer) then TakenOff(q, f, r.deleted)
    else if TooLarge(r.answer) then
      var (q', split) := SplitOf(q, f, r);
      if split then q' else TakenOff(q', f, r.deleted)
    else q
  }

  function AfterRound(l: S.Limits, q: Queues, r: Round): Queues {
    var (q', f) := Offered(l, q, r);
    if f.None? then q' else AfterPost(q', f.value, r)
  }

  /** There was a batch to post, and its answer lets drain go on. */
  predicate Going(l: S.Limits, q: Queues, r: Round) {
    Offered(l, q, r).1.Some? && Settles(r.answer)
  }

  // ---- what became of documents ---------------------------------------------------------------------

  function DocsIn(sp: S.State, name: string): seq<Doc> {
    if name in sp.disk && sp.disk[name].Whole? then sp.disk[name].docs else []
  }

  function LostFates(sp: S.State, files: seq<S.Entry>, k: nat): (r: seq<Fate>)
    ensures |r| == |files|
    ensures forall i :: 0 <= i < |r| ==> r[i] == Lost(DocsIn(sp, files[i].name), k, files[i].name, files[i].born)
  {
    seq(|files|, i requires 0 <= i < |files| => Lost(DocsIn(sp, files[i].name), k, files[i].name, files[i].born))
  }

  /** How many batches the spool gives up before the post of a round. */
  function GoneIn(l: S.Limits, q: Queues, r: Round): (d: nat)
    ensures d <= |q.sp.files|
  {
    var left := |Offered(l, q, r).0.sp.files|;
    if left <= |q.sp.files| then |q.sp.files| - left else 0
  }

  function PostFates(q: Queues, f: Found, r: Round, k: nat): (x: seq<Fate>) {
    if Accepts(r.answer) then [Delivered(f.docs, k)]
    else if Rejects(r.answer) then [Rejected(f.docs, k)]
    else if TooLarge(r.answer) && !SplitOf(q, f, r).1 then [Refused(f.docs, k)]
    else []
  }

  function RoundFates(l: S.Limits, q: Queues, r: Round, k: nat): (x: seq<Fate>) {
    var (q', f) := Offered(l, q, r);
    LostFates(q.sp, q.sp.files[..GoneIn(l, q, r)], k) + if f.None? then [] else PostFates(q', f.value, r, k)
  }

  /** The fates of the first n rounds of a pass. */
  function LogOf(l: S.Limits, qs: seq<Queues>, world: nat -> Round, n: nat): (log: seq<Fate>)
    requires n <= |qs|
  {
    if n == 0 then [] else LogOf(l, qs, world, n - 1) + RoundFates(l, qs[n - 1], world(n - 1), n - 1)
  }

  /** The documents of a log, in order. */
  function LogDocs(log: seq<Fate>): (d: seq<Doc>) {
    if log == [] then [] else LogDocs(log[..|log| - 1]) + log[|log| - 1].docs
  }

  function ShippedIn(log: seq<Fate>): (n: nat) {
    if log == [] then 0
    else ShippedIn(log[..|log| - 1]) + if log[|log| - 1].Delivered? then |log[|log| - 1].docs| else 0
  }

  /** Past the age cap, or unreadable in that round. */
  predicate GivenUp(l: S.Limits, e: S.Entry, r: Round) {
    TooOld(l, e, r.now) || !r.readable(e.name)
  }

  /** The fate is the one the round calls for: the answer it got; and for a batch that was lost, that it stood in the
      spool with those documents, and that it and every batch before it was too old or could not be read. */
  ghost predicate Justified(f: Fate, l: S.Limits, q: Queues, r: Round) {
    match f
    case Delivered(_, _) => r.answer.Status? && 200 <= r.answer.code <= 299
    case Rejected(_, _) => r.answer.Status? && (r.answer.code == 400 || r.answer.code == 415)
    case Refused(docs, _) => r.answer.Status? && r.answer.code == 413 && (|docs| < 2 || !r.okA || !r.okB)
    case Lost(docs, _, name, born) => exists i :: LostAt(q.sp, l, r, i, name, born, docs)
  }

  ghost predicate LostAt(sp: S.State, l: S.Limits, r: Round, i: int, name: string, born: S.Time, docs: seq<Doc>) {
    && 0 <= i < |sp.files| && sp.files[i].name == name && sp.files[i].born == born
    && name in sp.disk && sp.disk[name] == S.Whole(docs)
    && forall j :: 0 <= j <= i ==> GivenUp(l, sp.files[j], r)
  }

  ghost predicate AllJustified(log: seq<Fate>, l: S.Limits, qs: seq<Queues>, world: nat -> Round) {
    forall i :: 0 <= i < |log| ==> log[i].round < |qs| && Justified(log[i], l, qs[log[i].round], world(log[i].round))
  }

  // ---- what the queues hold --------------------------------------------------------------------

  /** The index and the names of the spool are right, and memory counts its documents right. */
  ghost predicate Ready(q: Queues, t: nat) {
    Indexed(q.sp) && Named(q.sp, t) && M.Counted(q.m.items)
  }

  ghost function SpoolItems(q: Queues): seq<Item> {
    if Indexed(q.sp) then Items(q.sp) else []
  }

  function MemItems(q: Queues): seq<Item> {
    M.Items(q.m.items)
  }

  /** Every queued document, the spool's first. */
  ghost function Held(q: Queues): seq<Doc> {
    DocsOf(SpoolItems(q)) + DocsOf(MemItems(q))
  }

  /** How many posts they may still cost. */
  ghost function Cost(q: Queues): nat {
    PostsOf(SpoolItems(q)) + PostsOf(MemItems(q))
  }

  /** The batch is first: of the spool, or of memory while the spool is empty. */
  ghost predicate IsFirst(f: Found, q: Queues) {
    && f.n == |f.docs|
    && if f.inSpool then
         && q.sp.files != [] && q.sp.files[0].name == f.name
         && SpoolItems(q) != [] && SpoolItems(q)[0] == Item(Stem(f.name), f.docs)
       else SpoolItems(q) == [] && q.m.items != [] && MemItems(q) != [] && MemItems(q)[0] == Item(f.name, f.docs)
  }

  lemma LogTwoParts(x: seq<Fate>, y: seq<Fate>)
    ensures LogDocs(x + y) == LogDocs(x) + LogDocs(y)
    ensures ShippedIn(x + y) == ShippedIn(x) + ShippedIn(y)
    decreases |y|
  {
    if y == [] {
      assert x + y == x;
    } else {
      var front, last := y[..|y| - 1], y[|y| - 1];
      assert (x + y)[..|x + y| - 1] == x + front;
      LogTwoParts(x, front);
      assert LogDocs(x) + LogDocs(front) + last.docs == LogDocs(x) + (LogDocs(front) + last.docs);
    }
  }

  lemma LogOne(f: Fate)
    ensures LogDocs([f]) == f.docs && ShippedIn([f]) == if f.Delivered? then |f.docs| else 0
  {
    assert [f][..0] == [];
  }

  lemma FrontDocs(it: Item, rest: seq<Item>)
    ensures DocsOf([it] + rest) == it.docs + DocsOf(rest)
    ensures PostsOf([it] + rest) == Posts(|it.docs|) + PostsOf(rest)
  {
    DocsOfTwoParts([it], rest);
    DocsOfOne(it);
    assert ([it] + rest)[1..] == rest;
  }

  lemma FirstDocs(q: seq<Item>)
    requires q != []
    ensures DocsOf(q) == q[0].docs + DocsOf(q[1..])
    ensures PostsOf(q) == Posts(|q[0].docs|) + PostsOf(q[1..])
  {
    hide DocsOf, PostsOf;
    assert q == [q[0]] + q[1..];
    FrontDocs(q[0], q[1..]);
  }

  lemma CutDocs(q: seq<Item>, d: nat)
    requires d <= |q|
    ensures DocsOf(q) == DocsOf(q[..d]) + DocsOf(q[d..])
  {
    hide DocsOf;
    assert q[..d] + q[d..] == q;
    DocsOfTwoParts(q[..d], q[d..]);
  }

  /** Halving the first batch costs its post, and its halves may cost one less than it might have. */
  lemma HalveFirst(q: seq<Item>, it: Item)
    requires q != [] && q[0] == it && |it.docs| >= 2
    ensures DocsOf(Halves(it) + q[1..]) == DocsOf(q)
    ensures PostsOf(Halves(it) + q[1..]) == PostsOf(q) - 1
  {
    hide DocsOf, PostsOf, Body;
    var a, b, rest := Halves(it)[0], Halves(it)[1], q[1..];
    HalvesAddOneByte(it.docs);
    assert |a.docs| + |b.docs| == |it.docs|;
    FirstDocs(q);
    assert Halves(it) + rest == [a] + ([b] + rest);
    FrontDocs(a, [b] + rest);
    FrontDocs(b, rest);
    assert a.docs + (b.docs + DocsOf(rest)) == (a.docs + b.docs) + DocsOf(rest);
  }

  lemma FirstIsSole(sp: S.State, t: nat, name: string, docs: seq<Doc>)
    requires Indexed(sp) && Named(sp, t) && sp.files != [] && sp.files[0].name == name
    requires Items(sp)[0] == Item(Stem(name), docs)
    ensures SoleStem(sp.files, name) && HoldsBody(sp, name, docs) && S.Find(sp.files, name) == 0
  {
    hide Stem, NamedBefore, Body;
    NamedIsDistinct(sp.files);
    S.FindIs(sp.files, name, 0);
    assert Backed(sp.disk, sp.files[0]);
  }

  lemma SpoolRemovesFirst(sp: S.State, t: nat, name: string, docs: seq<Doc>, deleted: bool)
    requires Indexed(sp) && Named(sp, t) && sp.files != [] && sp.files[0].name == name
    requires Items(sp)[0] == Item(Stem(name), docs)
    ensures var sp' := S.AfterRemove(sp, name, deleted).0;
            Indexed(sp') && Named(sp', t) && Items(sp') == Items(sp)[1..]
  {
    hide Indexed, Named, Items, Stem, Without, S.AfterRemove;
    ItemsLength(sp);
    FirstIsSole(sp, t, name, docs);
    RemoveKeeps(sp, name, deleted, t);
    WithoutAt(Items(sp), Stem(name), 0);
    assert Items(sp)[..0] + Items(sp)[1..] == Items(sp)[1..];
  }

  lemma SpoolSplitsFirst(sp: S.State, t: nat, name: string, docs: seq<Doc>, okA: bool, okB: bool)
    requires Indexed(sp) && Named(sp, t) && sp.files != [] && sp.files[0].name == name
    requires Items(sp)[0] == Item(Stem(name), docs)
    ensures var (sp', r) := S.AfterSplit(sp, name, docs, okA, okB);
      && Indexed(sp') && Named(sp', t)
      && (r == S.Split <==> |docs| >= 2 && okA && okB)
      && (r == S.Split ==> Items(sp') == Halves(Items(sp)[0]) + Items(sp)[1..])
      && (r != S.Split ==> Items(sp') == Items(sp) && sp'.files == sp.files)
  {
    FirstIsSole(sp, t, name, docs);
    assert S.AfterSplit(sp, name, docs, okA, okB).1 == S.Split <==> |docs| >= 2 && okA && okB by {
      hide Indexed, Named, Items, Stem, HalfName, Body, SoleStem, HoldsBody;
    }
    hide Indexed, Named, Items, Stem, Halved, S.AfterSplit, SoleStem, AgeOrdered;
    ItemsLength(sp);
    SplitKeeps(sp, name, docs, okA, okB, t);
    HalvedAt(Items(sp), Item(Stem(name), docs), 0);
    assert Items(sp)[..0] + Halves(Items(sp)[0]) + Items(sp)[1..] == Halves(Items(sp)[0]) + Items(sp)[1..];
  }

  lemma MemRemovesFirst(m: M.State, name: string)
    requires m.items != [] && m.items[0].name == name
    ensures M.AfterRemove(m, name).items == m.items[1..]
    ensures M.Items(m.items[1..]) == M.Items(m.items)[1..]
  {
    M.FindIs(m.items, name, 0);
  }

  lemma MemSplitsFirst(m: M.State, name: string, docs: seq<Doc>)
    requires m.items != [] && m.items[0].name == name && m.items[0].docs == docs
    ensures var (m', split) := M.AfterSplit(m, name, docs);
      && (split <==> |docs| >= 2)
      && (!split ==> m' == m)
      && (split ==> M.Items(m'.items) == Halves(M.Items(m.items)[0]) + M.Items(m.items)[1..]
                    && forall i :: 0 <= i < |m'.items| ==> m'.items[i].n == |m'.items[i].docs| || (i >= 2 && m'.items[i] == m.items[i - 1]))
  {
    hide Body;
    M.FindIs(m.items, name, 0);
  }

  // ---- the laws of a round ------------------------------------------------------------------------

  /** What is lost is a prefix of the spool, each batch of it too old or unreadable. */
  lemma OfferKeeps(l: S.Limits, q: Queues, r: Round, t: nat)
    requires Ready(q, t)
    ensures var (q', f) := Offered(l, q, r);
            var d := GoneIn(l, q, r);
      && Ready(q', t) && q'.m == q.m
      && d <= |SpoolItems(q)| && SpoolItems(q') == SpoolItems(q)[d..]
      && (forall i :: 0 <= i < d ==> GivenUp(l, q.sp.files[i], r))
      && (f.None? ==> SpoolItems(q') == [] && q'.m.items == [])
      && (f.Some? ==> IsFirst(f.value, q'))
  {
    SpoolOffers(l, q, r, t);
    hide Indexed, Named, Items, Stem, S.AfterOldest, M.Items, GivenUp, GoneIn;
    MemFirst(q.m.items);
  }

  lemma SpoolOffers(l: S.Limits, q: Queues, r: Round, t: nat)
    requires Ready(q, t)
    ensures var (sp', b) := S.AfterOldest(q.sp, l, r.now, r.readable);
            var d := GoneIn(l, q, r);
      && Indexed(sp') && Named(sp', t)
      && d <= |Items(q.sp)| && Items(sp') == Items(q.sp)[d..]
      && (forall i :: 0 <= i < d ==> GivenUp(l, q.sp.files[i], r))
      && (b.None? ==> Items(sp') == [])
      && (b.Some? ==> b.value.n == |b.value.docs| && sp'.files != [] && sp'.files[0].name == b.value.name
                      && Items(sp') != [] && Items(sp')[0] == Item(Stem(b.value.name), b.value.docs))
  {
    hide Indexed, Named, Items, Stem, S.AfterOldest, M.Items, GivenUp, GivesUp, GoneIn;
    OldestKeeps(q.sp, l, r.now, r.readable, t);
    var sp' := S.AfterOldest(q.sp, l, r.now, r.readable).0;
    ItemsLength(q.sp);
    ItemsLength(sp');
    var a: nat, b: nat :| GivesUp(q.sp, sp', l, r.now, r.readable, a, b) && Loses(Items(q.sp), Items(sp'), a + b);
    GoneIs(l, q, r, a, b);
  }

  lemma GoneIs(l: S.Limits, q: Queues, r: Round, a: nat, b: nat)
    requires GivesUp(q.sp, Offered(l, q, r).0.sp, l, r.now, r.readable, a, b)
    ensures GoneIn(l, q, r) == a + b
    ensures forall i :: 0 <= i < a + b ==> GivenUp(l, q.sp.files[i], r)
  {
    hide DropsOf, S.AfterOldest, TooOld;
  }

  lemma MemFirst(items: seq<M.MemItem>)
    ensures items != [] ==> M.Items(items) != [] && M.Items(items)[0] == Item(items[0].name, items[0].docs)
  {}

  lemma TakeOffKeeps(q: Queues, f: Found, deleted: bool, t: nat)
    requires Ready(q, t) && IsFirst(f, q)
    ensures var q' := TakenOff(q, f, deleted);
      && Ready(q', t)
      && SpoolItems(q') == (if f.inSpool then SpoolItems(q)[1..] else SpoolItems(q))
      && MemItems(q') == (if f.inSpool then MemItems(q) else MemItems(q)[1..])
  {
    hide Indexed, Named, Items, Stem, S.AfterRemove, M.AfterRemove, M.Items;
    if f.inSpool {
      SpoolRemovesFirst(q.sp, t, f.name, f.docs, deleted);
    } else {
      MemFirst(q.m.items);
      MemRemovesFirst(q.m, f.name);
    }
  }

  lemma SplitKeepsReady(q: Queues, f: Found, r: Round, t: nat)
    requires Ready(q, t) && IsFirst(f, q)
    ensures var (q', split) := SplitOf(q, f, r);
      && Ready(q', t)
      && (split <==> |f.docs| >= 2 && (f.inSpool ==> r.okA && r.okB))
      && (split ==> SpoolItems(q') == (if f.inSpool then Halves(SpoolItems(q)[0]) + SpoolItems(q)[1..] else SpoolItems(q))
                    && MemItems(q') == (if f.inSpool then MemItems(q) else Halves(MemItems(q)[0]) + MemItems(q)[1..]))
      && (!split ==> IsFirst(f, q') && SpoolItems(q') == SpoolItems(q) && MemItems(q') == MemItems(q))
  {
    hide Indexed, Named, Items, Stem, S.AfterSplit, M.AfterSplit, M.Items;
    if f.inSpool {
      SpoolSplitsFirst(q.sp, t, f.name, f.docs, r.okA, r.okB);
    } else {
      MemFirst(q.m.items);
      MemSplitsFirst(q.m, f.name, f.docs);
    }
  }

  /** The first batch leaves its queue. */
  lemma TakeAccounts(q: Queues, f: Found, q': Queues)
    requires IsFirst(f, q)
    requires SpoolItems(q') == (if f.inSpool then SpoolItems(q)[1..] else SpoolItems(q))
    requires MemItems(q') == (if f.inSpool then MemItems(q) else MemItems(q)[1..])
    ensures f.docs + Held(q') == Held(q) && Cost(q') + 1 <= Cost(q)
  {
    hide DocsOf, PostsOf, Stem, SpoolItems, MemItems;
    if f.inSpool {
      FirstDocs(SpoolItems(q));
    } else {
      FirstDocs(MemItems(q));
      NoItems();
      assert f.docs + ([] + DocsOf(MemItems(q'))) == [] + (f.docs + DocsOf(MemItems(q')));
    }
  }

  lemma NoItems()
    ensures DocsOf([]) == [] && PostsOf([]) == 0
  {}

  /** The first batch gives way to its halves. */
  lemma SplitAccounts(q: Queues, f: Found, q': Queues)
    requires IsFirst(f, q) && |f.docs| >= 2
    requires SpoolItems(q') == (if f.inSpool then Halves(SpoolItems(q)[0]) + SpoolItems(q)[1..] else SpoolItems(q))
    requires MemItems(q') == (if f.inSpool then MemItems(q) else Halves(MemItems(q)[0]) + MemItems(q)[1..])
    ensures Held(q') == Held(q) && Cost(q') + 1 == Cost(q)
  {
    hide DocsOf, PostsOf, Stem, SpoolItems, MemItems;
    if f.inSpool {
      HalveFirst(SpoolItems(q), SpoolItems(q)[0]);
    } else {
      HalveFirst(MemItems(q), MemItems(q)[0]);
    }
  }

  /** A post and what drain does with its answer: the queues stay right, the documents are where they were or in the fate
      the answer calls for, and an answer that settles the batch costs one of the posts it might have cost. */
  lemma PostKeeps(q: Queues, f: Found, r: Round, k: nat, t: nat)
    requires Ready(q, t) && IsFirst(f, q)
    ensures var q', x := AfterPost(q, f, r), PostFates(q, f, r, k);
      && Ready(q', t) && LogDocs(x) + Held(q') == Held(q)
      && (if Settles(r.answer) then Cost(q') + 1 <= Cost(q) else q' == q)
  {
    var x := PostFates(q, f, r, k);
    PostDocs(q, f, r, k);
    hide Ready, IsFirst, TakenOff, SplitOf, Held, Cost, LogDocs, SpoolItems, MemItems, PostFates;
    if TooLarge(r.answer) {
      SplitKeepsReady(q, f, r, t);
      var (q', split) := SplitOf(q, f, r);
      if split {
        SplitAccounts(q, f, q');
      } else {
        TakeOffKeeps(q', f, r.deleted, t);
        SameHeld(q, q');
        TakeAccounts(q', f, TakenOff(q', f, r.deleted));
      }
    } else if Settles(r.answer) {
      TakeOffKeeps(q, f, r.deleted, t);
      TakeAccounts(q, f, TakenOff(q, f, r.deleted));
    }
  }

  lemma PostDocs(q: Queues, f: Found, r: Round, k: nat)
    ensures var x := PostFates(q, f, r, k);
            var kept := !Settles(r.answer) || (TooLarge(r.answer) && SplitOf(q, f, r).1);
      && (kept ==> forall d: seq<Doc> :: LogDocs(x) + d == d)
      && (!kept ==> LogDocs(x) == f.docs)
      && ShippedIn(x) == if Accepts(r.answer) then |f.docs| else 0
  {
    hide SplitOf;
    var x := PostFates(q, f, r, k);
    if x != [] {
      LogOne(x[0]);
      assert x == [x[0]];
    }
  }

  /** The answer justifies the fate it leads to. */
  lemma PostJustified(l: S.Limits, p: Queues, q: Queues, f: Found, r: Round, k: nat, t: nat)
    requires Ready(q, t) && IsFirst(f, q)
    ensures var x := PostFates(q, f, r, k);
            forall i :: 0 <= i < |x| ==> x[i].round == k && !x[i].Lost? && Justified(x[i], l, p, r)
  {
    hide Ready, IsFirst, SplitOf, SpoolItems, MemItems;
    SplitKeepsReady(q, f, r, t);
  }

  lemma Numbered(q: Queues, f: Found)
    requires IsFirst(f, q)
    ensures f.n == |f.docs|
  {
    hide Stem;
  }

  lemma NoFates(d: seq<Doc>)
    ensures LogDocs([]) + d == d && ShippedIn([]) == 0
  {}

  lemma SameHeld(q: Queues, q': Queues)
    requires SpoolItems(q') == SpoolItems(q) && MemItems(q') == MemItems(q)
    ensures Held(q') == Held(q) && Cost(q') == Cost(q)
  {
    hide SpoolItems, MemItems;
  }

  /** The fates of lost batches hold exactly their documents, in order. */
  lemma {:induction false} LostDocs(q: Queues, d: nat, k: nat)
    requires Indexed(q.sp) && d <= |q.sp.files|
    ensures LogDocs(LostFates(q.sp, q.sp.files[..d], k)) == DocsOf(Items(q.sp)[..d])
    ensures ShippedIn(LostFates(q.sp, q.sp.files[..d], k)) == 0
    decreases d
  {
    hide Stem, Body, S.AfterOldest;
    var x := LostFates(q.sp, q.sp.files[..d], k);
    if d > 0 {
      LostDocs(q, d - 1, k);
      var front := q.sp.files[..d - 1];
      assert Backed(q.sp.disk, q.sp.files[d - 1]);
      assert x[..d - 1] == LostFates(q.sp, front, k);
      assert Items(q.sp)[..d][..d - 1] == Items(q.sp)[..d - 1];
    }
  }

  lemma LostJustified(l: S.Limits, q: Queues, r: Round, d: nat, k: nat, i: nat)
    requires Indexed(q.sp) && i < d <= |q.sp.files| && forall j :: 0 <= j < d ==> GivenUp(l, q.sp.files[j], r)
    ensures var f := LostFates(q.sp, q.sp.files[..d], k)[i]; f.round == k && Justified(f, l, q, r)
  {
    hide Body, GivenUp;
    var e := q.sp.files[i];
    assert Backed(q.sp.disk, e);
    assert LostAt(q.sp, l, r, i, e.name, e.born, DocsIn(q.sp, e.name));
  }

  lemma LoseAccounts(q: Queues, q': Queues, d: nat)
    requires d <= |SpoolItems(q)| && SpoolItems(q') == SpoolItems(q)[d..] && q'.m == q.m
    ensures DocsOf(SpoolItems(q)[..d]) + Held(q') == Held(q) && Cost(q') <= Cost(q)
  {
    hide DocsOf, PostsOf, SpoolItems;
    CutDocs(SpoolItems(q), d);
    PostsOfTail(SpoolItems(q), d);
    var a, b, c := DocsOf(SpoolItems(q)[..d]), DocsOf(SpoolItems(q)[d..]), DocsOf(MemItems(q));
    assert a + (b + c) == (a + b) + c;
  }

  /** One round. */
  lemma RoundKeeps(l: S.Limits, q: Queues, r: Round, k: nat, t: nat)
    requires Ready(q, t)
    ensures var q', x := AfterRound(l, q, r), RoundFates(l, q, r, k);
      && Ready(q', t) && LogDocs(x) + Held(q') == Held(q) && Cost(q') <= Cost(q)
      && (Offered(l, q, r).1.Some? ==> Cost(q) >= 1)
      && (Going(l, q, r) ==> Cost(q') + 1 <= Cost(q))
      && (Offered(l, q, r).1.None? ==> SpoolItems(q') == [] && q'.m.items == [])
  {
    hide Ready, IsFirst, Held, Cost, LogDocs, ShippedIn, SpoolItems, Offered, AfterPost, PostFates, LostFates, DocsOf, GivenUp;
    var (q1, f) := Offered(l, q, r);
    var d := GoneIn(l, q, r);
    var lost := LostFates(q.sp, q.sp.files[..d], k);
    OfferKeeps(l, q, r, t);
    ReadyItems(q, t);
    LostDocs(q, d, k);
    LoseAccounts(q, q1, d);
    if f.Some? {
      var x := PostFates(q1, f.value, r, k);
      PostKeeps(q1, f.value, r, k, t);
      FirstCosts(q1, f.value);
      LogTwoParts(lost, x);
      var q' := AfterPost(q1, f.value, r);
      assert LogDocs(lost) + LogDocs(x) + Held(q') == LogDocs(lost) + (LogDocs(x) + Held(q'));
    } else {
      assert lost + [] == lost;
    }
  }

  lemma ReadyItems(q: Queues, t: nat)
    requires Ready(q, t)
    ensures Indexed(q.sp) && SpoolItems(q) == Items(q.sp) && |q.sp.files| == |SpoolItems(q)|
  {
    hide Named, Stem, Backed;
  }

  lemma FirstCosts(q: Queues, f: Found)
    requires IsFirst(f, q)
    ensures Cost(q) >= 1
  {
    hide Stem, Items;
  }

  /** Every fate of a round is the one the round calls for. */
  lemma RoundJustified(l: S.Limits, q: Queues, r: Round, k: nat, t: nat)
    requires Ready(q, t)
    ensures var x := RoundFates(l, q, r, k);
            forall i :: 0 <= i < |x| ==> x[i].round == k && Justified(x[i], l, q, r)
  {
    hide Ready, IsFirst, SpoolItems, Offered, PostFates, GivenUp, Justified, GoneIn;
    var (q1, f) := Offered(l, q, r);
    var d := GoneIn(l, q, r);
    var x := RoundFates(l, q, r, k);
    OfferKeeps(l, q, r, t);
    ReadyItems(q, t);
    if f.Some? {
      PostJustified(l, q, q1, f.value, r, k, t);
    }
    forall i | 0 <= i < |x| ensures x[i].round == k && Justified(x[i], l, q, r) {
      if i < d {
        LostJustified(l, q, r, d, k, i);
        assert x[i] == LostFates(q.sp, q.sp.files[..d], k)[i];
      } else {
        assert x[i] == PostFates(q1, f.value, r, k)[i - d];
      }
    }
  }

  ghost predicate AllReadable(r: Round) {
    forall name :: r.readable(name)
  }

  ghost predicate NoneLost(log: seq<Fate>) {
    forall i :: 0 <= i < |log| ==> !log[i].Lost?
  }

  lemma NeverGivenUp(l: S.Limits, files: seq<S.Entry>, r: Round)
    requires l.maxAge <= 0 && AllReadable(r)
    ensures forall i :: 0 <= i < |files| ==> !GivenUp(l, files[i], r)
  {}

  /** Without an age cap and with every file readable, a round loses nothing. */
  lemma RoundLosesNothing(l: S.Limits, q: Queues, r: Round, k: nat, t: nat)
    requires Ready(q, t) && l.maxAge <= 0 && AllReadable(r)
    ensures NoneLost(RoundFates(l, q, r, k))
  {
    hide Ready, Offered, SplitOf, SpoolItems, IsFirst, GivenUp, AllReadable, GoneIn;
    OfferKeeps(l, q, r, t);
    NeverGivenUp(l, q.sp.files, r);
    if q.sp.files != [] {
      assert !GivenUp(l, q.sp.files[0], r);
    }
    assert GoneIn(l, q, r) == 0;
  }

  lemma RoundShips(l: S.Limits, q: Queues, r: Round, k: nat, t: nat)
    requires Ready(q, t)
    ensures var f := Offered(l, q, r).1;
            ShippedIn(RoundFates(l, q, r, k)) == if f.Some? && Accepts(r.answer) then f.value.n else 0
  {
    hide Ready, IsFirst, LogDocs, ShippedIn, SpoolItems, Offered, PostFates, LostFates, GivenUp, GoneIn;
    var (q1, f) := Offered(l, q, r);
    var d := GoneIn(l, q, r);
    OfferKeeps(l, q, r, t);
    ReadyItems(q, t);
    LostDocs(q, d, k);
    NoFates([]);
    LogTwoParts(LostFates(q.sp, q.sp.files[..d], k), if f.None? then [] else PostFates(q1, f.value, r, k));
    if f.Some? {
      PostDocs(q1, f.value, r, k);
      Numbered(q1, f.value);
    }
  }

  // ---- a whole pass ---------------------------------------------------------------------------------

  /** The queues before and after each round; all rounds but the last go on. */
  ghost predicate IsPass(l: S.Limits, qs: seq<Queues>, world: nat -> Round) {
    && |qs| >= 1
    && (forall k :: 0 <= k < |qs| - 1 ==> qs[k + 1] == AfterRound(l, qs[k], world(k)))
    && (forall k :: 0 <= k < |qs| - 2 ==> Going(l, qs[k], world(k)))
  }

  /** In a pass the queues stay right, and every document there was at the start is in the log or still queued, in the order
      it was queued in. */
  lemma {:induction false} PassKeeps(l: S.Limits, qs: seq<Queues>, world: nat -> Round, n: nat, t: nat)
    requires IsPass(l, qs, world) && n < |qs| && Ready(qs[0], t)
    ensures Ready(qs[n], t) && LogDocs(LogOf(l, qs, world, n)) + Held(qs[n]) == Held(qs[0])
    ensures Cost(qs[n]) + (if n == |qs| - 1 && n > 0 then n - 1 else n) <= Cost(qs[0])
    decreases n
  {
    hide Ready, Held, Cost, LogDocs, RoundFates, AfterRound, Going;
    if n == 0 {
      NoFates(Held(qs[0]));
    } else {
      PassKeeps(l, qs, world, n - 1, t);
      var q, q' := qs[n - 1], qs[n];
      RoundKeeps(l, q, world(n - 1), n - 1, t);
      var log, x := LogOf(l, qs, world, n - 1), RoundFates(l, q, world(n - 1), n - 1);
      LogTwoParts(log, x);
      assert LogDocs(log) + LogDocs(x) + Held(q') == LogDocs(log) + (LogDocs(x) + Held(q'));
    }
  }

  lemma PassReady(l: S.Limits, qs: seq<Queues>, world: nat -> Round, n: nat, t: nat)
    requires IsPass(l, qs, world) && n < |qs| && Ready(qs[0], t)
    ensures Ready(qs[n], t)
  {
    hide Ready, LogOf, Held, Cost, LogDocs, IsPass;
    PassKeeps(l, qs, world, n, t);
  }

  /** Every fate in the log of a pass is the one its round calls for. */
  lemma {:induction false} PassJustified(l: S.Limits, qs: seq<Queues>, world: nat -> Round, n: nat, t: nat)
    requires IsPass(l, qs, world) && n < |qs| && Ready(qs[0], t)
    ensures AllJustified(LogOf(l, qs, world, n), l, qs, world)
    decreases n
  {
    hide Ready, RoundFates, IsPass, AllJustified, Justified;
    if n > 0 {
      PassJustified(l, qs, world, n - 1, t);
      PassReady(l, qs, world, n - 1, t);
      RoundJustified(l, qs[n - 1], world(n - 1), n - 1, t);
      JustifiedMore(LogOf(l, qs, world, n - 1), RoundFates(l, qs[n - 1], world(n - 1), n - 1), l, qs, world, n - 1);
    } else {
      NothingToJustify(l, qs, world);
    }
  }

  lemma NothingToJustify(l: S.Limits, qs: seq<Queues>, world: nat -> Round)
    ensures AllJustified([], l, qs, world)
  {}

  lemma JustifiedMore(log: seq<Fate>, x: seq<Fate>, l: S.Limits, qs: seq<Queues>, world: nat -> Round, k: nat)
    requires AllJustified(log, l, qs, world) && k < |qs|
    requires forall i :: 0 <= i < |x| ==> x[i].round == k && Justified(x[i], l, qs[k], world(k))
    ensures AllJustified(log + x, l, qs, world)
  {
    hide Justified;
    forall i | 0 <= i < |log + x|
      ensures (log + x)[i].round < |qs| && Justified((log + x)[i], l, qs[(log + x)[i].round], world((log + x)[i].round))
    {
      assert (log + x)[i] == if i < |log| then log[i] else x[i - |log|];
    }
  }

  /** Without an age cap and with every file readable, nothing is lost: with answers that settle, every document is
      delivered, rejected or refused. */
  lemma {:induction false} PassLosesNothing(l: S.Limits, qs: seq<Queues>, world: nat -> Round, n: nat, t: nat)
    requires IsPass(l, qs, world) && n < |qs| && Ready(qs[0], t)
    requires l.maxAge <= 0 && forall k :: 0 <= k < n ==> AllReadable(world(k))
    ensures NoneLost(LogOf(l, qs, world, n))
    decreases n
  {
    hide Ready, RoundFates, IsPass, AllReadable;
    if n > 0 {
      PassLosesNothing(l, qs, world, n - 1, t);
      PassReady(l, qs, world, n - 1, t);
      RoundLosesNothing(l, qs[n - 1], world(n - 1), n - 1, t);
    }
  }

  // ---- the objects ------------------------------------------------------------------------------------

  ghost function View(spool: S.Spool?, mem: M.MemQueue): Queues
    reads spool, mem
  {
    Queues(if spool == null then S.State([], 0, 0, map[], []) else spool.View(), mem.View())
  }

  function LimitsOf(spool: S.Spool?): S.Limits {
    if spool == null then S.Limits(0, 0, 0) else spool.l
  }

  method Next(spool: S.Spool?, mem: M.MemQueue, round: Round) returns (r: Option<Found>)
    modifies spool
    ensures (View(spool, mem), r) == Offered(LimitsOf(spool), old(View(spool, mem)), round)
    ensures r.Some? && r.value.inSpool ==> spool != null
  {
    if spool != null {
      hide S.AfterOldest;
      var o := spool.Oldest(round.now, round.readable);
      if o.Some? {
        return Some(Found(true, o.value.name, o.value.docs, o.value.n));
      }
    }
    var m := mem.First();
    match m {
      case Empty => return None;
      case Oldest(name, docs, n) => return Some(Found(false, name, docs, n));
    }
  }

  /** Takes the posted batch off its queue. */
  method TakeOff(spool: S.Spool?, mem: M.MemQueue, f: Found, deleted: bool)
    requires f.inSpool ==> spool != null
    modifies spool, mem
    ensures View(spool, mem) == TakenOff(old(View(spool, mem)), f, deleted)
  {
    hide S.AfterRemove, M.AfterRemove;
    if f.inSpool {
      var _ := spool.Remove(f.name, deleted);
    } else {
      mem.Remove(f.name);
    }
  }

  /** Halves the posted batch in its place, or leaves it when it is a single document or cannot be written. */
  method SplitFirst(spool: S.Spool?, mem: M.MemQueue, f: Found, round: Round) returns (split: bool)
    requires f.inSpool ==> spool != null
    modifies spool, mem
    ensures (View(spool, mem), split) == SplitOf(old(View(spool, mem)), f, round)
  {
    hide S.AfterSplit, M.AfterSplit;
    if f.inSpool {
      var r := spool.SplitBatch(f.name, f.docs, round.okA, round.okB);
      return r == S.Split;
    } else {
      split := mem.SplitBatch(f.name, f.docs);
    }
  }

  /** What a post does to the queues, by the number of the status: the batch goes on 200 to 299, 400 and 415; 413 halves it, or
      it goes if it cannot be halved; on any other number and without an answer nothing changes. */
  predicate ByStatus(q: Queues, f: Found, r: Round, q': Queues) {
    match r.answer
    case NoAnswer => q' == q
    case Status(code, _) =>
      && (200 <= code <= 299 || code == 400 || code == 415 ==> q' == TakenOff(q, f, r.deleted))
      && (code == 413 ==> q' == if SplitOf(q, f, r).1 then SplitOf(q, f, r).0 else TakenOff(SplitOf(q, f, r).0, f, r.deleted))
      && (code < 200 || (300 <= code && code !in {400, 413, 415}) ==> q' == q)
  }

  /** What drain does with the answer to a post; false when it gives up for now. */
  method Act(spool: S.Spool?, mem: M.MemQueue, f: Found, round: Round) returns (go: bool, wait: nat)
    requires f.inSpool ==> spool != null
    modifies spool, mem
    ensures View(spool, mem) == AfterPost(old(View(spool, mem)), f, round)
    ensures ByStatus(old(View(spool, mem)), f, round, View(spool, mem))
    ensures go <==> round.answer.Status? && (200 <= round.answer.code <= 299 || round.answer.code in {400, 413, 415})
    ensures wait == if round.answer.Status? && round.answer.code == 429 then round.answer.retryAfter else 0
  {
    hide TakenOff, SplitOf;
    if Accepts(round.answer) {
      TakeOff(spool, mem, f, round.deleted);
    } else if TooLarge(round.answer) {
      var split := SplitFirst(spool, mem, f, round);
      if !split {
        TakeOff(spool, mem, f, round.deleted);
      }
    } else if Limits(round.answer) {
      return false, round.answer.retryAfter;
    } else if Rejects(round.answer) {
      TakeOff(spool, mem, f, round.deleted);
    } else {
      return false, 0;
    }
    return true, 0;
  }

  /** A pass that ran to its end: the last round found nothing to post, or its post failed. */
  ghost predicate Ends(l: S.Limits, qs: seq<Queues>, world: nat -> Round, ok: bool) {
    && |qs| >= 2 && IsPass(l, qs, world)
    && (if ok then Offered(l, qs[|qs| - 2], world(|qs| - 2)).1.None? else !Settles(world(|qs| - 2).answer))
  }

  /** Every document of the start is in the log or still queued, in the order it was queued in; every fate is justified. */
  ghost predicate Accounted(l: S.Limits, qs: seq<Queues>, world: nat -> Round, log: seq<Fate>)
    requires |qs| >= 1
  {
    LogDocs(log) + Held(qs[|qs| - 1]) == Held(qs[0]) && AllJustified(log, l, qs, world)
  }

  /** Posts what is queued, oldest first, until nothing is left or a post fails. Whatever is answered, it ends, within
      2n - 1 posts for a batch of n documents. `qs` are the queues before each round and at the end: every round does what
      next and its answer call for, and every document is accounted for. */
  method Drain(spool: S.Spool?, mem: M.MemQueue, world: nat -> Round, ghost t: nat)
    returns (ok: bool, wait: nat, posts: nat, shipped: nat, ghost qs: seq<Queues>)
    requires Ready(View(spool, mem), t)
    modifies spool, mem
    ensures Ends(LimitsOf(spool), qs, world, ok)
    ensures qs[0] == old(View(spool, mem)) && qs[|qs| - 1] == View(spool, mem) && Ready(View(spool, mem), t)
    ensures Accounted(LimitsOf(spool), qs, world, LogOf(LimitsOf(spool), qs, world, |qs| - 1))
    ensures posts == (if ok then |qs| - 2 else |qs| - 1) && posts <= Cost(qs[0])
    ensures ok <==> forall k :: 0 <= k < posts ==>
      world(k).answer.Status? && (200 <= world(k).answer.code <= 299 || world(k).answer.code in {400, 413, 415})
    ensures ok ==> Held(View(spool, mem)) == []
    ensures wait == if !ok && world(posts - 1).answer.Status? && world(posts - 1).answer.code == 429
                    then world(posts - 1).answer.retryAfter else 0
    ensures shipped == ShippedIn(LogOf(LimitsOf(spool), qs, world, |qs| - 1))
  {
    hide Ready, Cost, Held, Ends, AllGoing, Accounted, LogOf, ShippedIn, Offered, AfterPost, SpoolItems, RoundFates, LogDocs;
    ghost var l := LimitsOf(spool);
    ghost var start := View(spool, mem);
    qs, posts, shipped := [start], 0, 0;
    StartPass(l, start, world);
    while true
      invariant |qs| == posts + 1 && qs[0] == start && qs[posts] == View(spool, mem)
      invariant AllGoing(l, qs, world) && forall k :: 0 <= k < posts ==> Settles(world(k).answer)
      invariant Ready(View(spool, mem), t)
      invariant Cost(View(spool, mem)) + posts <= Cost(start)
      invariant shipped == ShippedIn(LogOf(l, qs, world, posts))
      decreases Cost(start) - posts
    {
      ghost var q, past := View(spool, mem), qs;
      var round := world(posts);
      RoundKeeps(l, q, round, posts, t);
      var next := Next(spool, mem, round);
      if next.None? {
        qs := qs + [View(spool, mem)];
        OneRoundMore(l, past, world, View(spool, mem), t);
        PassDone(l, past, qs, world, true, t);
        NothingHeld(View(spool, mem));
        return true, 0, posts, shipped, qs;
      }
      var f := next.value;
      var go: bool;
      go, wait := Act(spool, mem, f, round);
      qs := qs + [View(spool, mem)];
      OneRoundMore(l, past, world, View(spool, mem), t);
      posts := posts + 1;
      if Accepts(round.answer) {
        shipped := shipped + f.n;
      }
      if !go {
        PassDone(l, past, qs, world, false, t);
        return false, wait, posts, shipped, qs;
      }
      WentOn(l, past, qs, world);
    }
  }

  /** A pass so far, every round of which went on. */
  ghost predicate AllGoing(l: S.Limits, qs: seq<Queues>, world: nat -> Round) {
    && |qs| >= 1
    && (forall k :: 0 <= k < |qs| - 1 ==> qs[k + 1] == AfterRound(l, qs[k], world(k)))
    && (forall k :: 0 <= k < |qs| - 1 ==> Offered(l, qs[k], world(k)).1.Some?)
    && (forall k :: 0 <= k < |qs| - 1 ==> Settles(world(k).answer))
  }

  lemma StartPass(l: S.Limits, q: Queues, world: nat -> Round)
    ensures AllGoing(l, [q], world) && ShippedIn(LogOf(l, [q], world, 0)) == 0
  {}

  lemma WentOn(l: S.Limits, qs: seq<Queues>, more: seq<Queues>, world: nat -> Round)
    requires AllGoing(l, qs, world) && |more| == |qs| + 1 && more[..|qs|] == qs
    requires more[|qs|] == AfterRound(l, qs[|qs| - 1], world(|qs| - 1)) && Going(l, qs[|qs| - 1], world(|qs| - 1))
    ensures AllGoing(l, more, world)
  {
    hide AfterRound, Offered, Settles;
    forall k | 0 <= k < |more| - 1
      ensures more[k + 1] == AfterRound(l, more[k], world(k)) && Offered(l, more[k], world(k)).1.Some? && Settles(world(k).answer)
    {
      assert more[k] == qs[k];
      if k < |qs| - 1 {
        assert more[k + 1] == qs[k + 1];
      }
    }
  }

  /** What one more round ships. */
  lemma OneRoundMore(l: S.Limits, qs: seq<Queues>, world: nat -> Round, q': Queues, t: nat)
    requires |qs| >= 1 && Ready(qs[|qs| - 1], t)
    ensures var n := |qs| - 1;
            var f := Offered(l, qs[n], world(n)).1;
      ShippedIn(LogOf(l, qs + [q'], world, n + 1))
      == ShippedIn(LogOf(l, qs, world, n)) + if f.Some? && Accepts(world(n).answer) then f.value.n else 0
  {
    hide Ready, Offered, RoundFates, ShippedIn, LogDocs;
    var n := |qs| - 1;
    RoundShips(l, qs[n], world(n), n, t);
    SamePast(l, qs, q', world, n);
    LogTwoParts(LogOf(l, qs, world, n), RoundFates(l, qs[n], world(n), n));
  }

  lemma {:induction false} SamePast(l: S.Limits, qs: seq<Queues>, q': Queues, world: nat -> Round, n: nat)
    requires n <= |qs|
    ensures LogOf(l, qs + [q'], world, n) == LogOf(l, qs, world, n)
    decreases n
  {
    hide RoundFates;
    if n > 0 {
      SamePast(l, qs, q', world, n - 1);
    }
  }

  lemma PassDone(l: S.Limits, past: seq<Queues>, qs: seq<Queues>, world: nat -> Round, ok: bool, t: nat)
    requires AllGoing(l, past, world) && |qs| == |past| + 1 && qs[..|past|] == past && Ready(qs[0], t)
    requires qs[|qs| - 1] == AfterRound(l, qs[|qs| - 2], world(|qs| - 2))
    requires if ok then Offered(l, qs[|qs| - 2], world(|qs| - 2)).1.None? else !Settles(world(|qs| - 2).answer)
    ensures Ends(l, qs, world, ok) && Ready(qs[|qs| - 1], t)
    ensures Accounted(l, qs, world, LogOf(l, qs, world, |qs| - 1))
  {
    hide Ready, Cost, Held, AllJustified, LogOf, LogDocs, Offered, AfterRound, Settles;
    forall k | 0 <= k < |qs| - 1 ensures qs[k + 1] == AfterRound(l, qs[k], world(k)) {
      if k < |qs| - 2 {
        assert past[k + 1] == AfterRound(l, past[k], world(k));
      }
    }
    forall k | 0 <= k < |qs| - 2 ensures Going(l, qs[k], world(k)) {
      assert Offered(l, past[k], world(k)).1.Some?;
    }
    PassKeeps(l, qs, world, |qs| - 1, t);
    PassJustified(l, qs, world, |qs| - 1, t);
  }

  lemma NothingHeld(q: Queues)
    requires SpoolItems(q) == [] && q.m.items == []
    ensures Held(q) == []
  {
    hide SpoolItems;
  }

  lemma EndsEmpty(l: S.Limits, qs: seq<Queues>, world: nat -> Round, t: nat)
    requires Ends(l, qs, world, true) && Ready(qs[0], t)
    ensures Held(qs[|qs| - 1]) == []
  {
    hide Ready, Held, Cost, LogDocs, Offered, SpoolItems, AfterRound, RoundFates, Going;
    var n := |qs| - 1;
    PassReady(l, qs, world, n - 1, t);
    RoundKeeps(l, qs[n - 1], world(n - 1), n - 1, t);
    NothingHeld(qs[n]);
  }

  /** A pass that ends well, with no age cap and every file readable, has delivered, rejected or refused every document
      there was, in order. */
  lemma EveryDocumentSettled(l: S.Limits, qs: seq<Queues>, world: nat -> Round, t: nat)
    requires Ends(l, qs, world, true) && Ready(qs[0], t)
    requires l.maxAge <= 0 && forall k :: 0 <= k < |qs| - 1 ==> AllReadable(world(k))
    ensures var log := LogOf(l, qs, world, |qs| - 1); NoneLost(log) && LogDocs(log) == Held(qs[0])
  {
    hide Ready, Held, Cost, LogOf, LogDocs, IsPass, NoneLost, AllReadable, Offered;
    var n := |qs| - 1;
    PassLosesNothing(l, qs, world, n, t);
    PassKeeps(l, qs, world, n, t);
    EndsEmpty(l, qs, world, t);
    assert LogDocs(LogOf(l, qs, world, n)) + [] == LogDocs(LogOf(l, qs, world, n));
  }
}
