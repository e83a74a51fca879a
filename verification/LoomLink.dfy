/** The steps of the shipper's protocol are what the spool and the memory queue really do: each operation
    of either object is an enabled step, and leaves the queue the protocol says. */
module LoomLink {
  import opened Options
  import opened Decimals
  import opened LoomNames
  import opened LoomQueues
  import opened LoomDelivery
  import opened LoomDeliveryLaws
  import opened LoomSpoolLaws
  import opened LoomSpoolOps
  import opened LoomReports
  import Spool = LoomSpool
  import Mem = LoomMem

  // ---- new identities -----------------------------------------------------------------------------

  lemma DivergesUnrelated(x: string, y: string)
    requires Diverges(x, y)
    ensures x != y && !Descends(x, y) && !Descends(y, x)
  {
    var k: nat :| DivergesAt(x, y, k);
    assert x[k] != y[k];
  }

  /** A stem the spool has given out, or made by halving, before clock reading t and that number. */
  ghost predicate KnownStem(u: string, t: nat, number: nat) {
    exists k :: InRange(k) && u == StemOf(k) && Earlier(k, t, number)
  }

  ghost predicate KnownStems(used: set<string>, t: nat, number: nat) {
    forall u :: u in used ==> KnownStem(u, t, number)
  }

  lemma NewStemIsFresh(used: set<string>, t: nat, k: Key)
    requires KnownStems(used, t, k.number) && InRange(k) && t <= k.nanos
    ensures Fresh(StemOf(k), used)
  {
    hide StemOf, Descends, Diverges;
    forall u | u in used ensures u != StemOf(k) && !Descends(StemOf(k), u) && !Descends(u, StemOf(k)) {
      var older :| InRange(older) && u == StemOf(older) && Earlier(older, t, k.number);
      LaterStemDiverges(older, k);
      DivergesUnrelated(u, StemOf(k));
    }
  }

  lemma StillKnown(used: set<string>, t: nat, number: nat, t': nat, number': nat)
    requires KnownStems(used, t, number) && t <= t' && number <= number'
    ensures KnownStems(used, t', number')
  {
    hide StemOf;
    forall u | u in used ensures KnownStem(u, t', number') {
      var k :| InRange(k) && u == StemOf(k) && Earlier(k, t, number);
      assert Earlier(k, t', number');
    }
  }

  lemma HalfIsKnown(u: string, half: char, t: nat, number: nat)
    requires KnownStem(u, t, number) && (half == 'a' || half == 'b')
    ensures KnownStem(u + [half], t, number)
  {
    hide StemOf;
    var k :| InRange(k) && u == StemOf(k) && Earlier(k, t, number);
    LongerPath(k, half);
    var h := k.(path := k.path + [half]);
    assert InRange(h) && u + [half] == StemOf(h) && Earlier(h, t, number);
  }

  // ---- the spool ------------------------------------------------------------------------------------

  /** The spool holds the queue of the protocol, and knows every identity that queue ever had. */
  ghost predicate SpoolMirrors(sp: Spool.State, t: nat, l: Lane) {
    && Indexed(sp) && Named(sp, t) && Items(sp) == l.items
    && KnownStems(l.used, t, sp.puts + 1)
  }

  /** The spool is the protocol's, and its reports count exactly the documents its caps have taken. */
  ghost predicate SpoolShown(sp: Spool.State, t: nat, s: State) {
    SpoolMirrors(sp, t, s.spool) && DropSum(sp.drops) == |s.tally.spoolCaps|
  }

  lemma PutCounts(sp: Spool.State, lim: Spool.Limits, docs: seq<Doc>, env: Spool.PutEnv, t: nat)
    requires Indexed(sp) && Named(sp, t) && t <= env.nameAt < INT64_LIMIT && sp.puts + 1 < SEQ_LIMIT
    ensures var (sp', r) := Spool.AfterPut(sp, lim, docs, env);
            sp.puts <= sp'.puts && (r == Spool.Stored ==> sp'.puts == sp.puts + 1)
  {
    hide Indexed, Named, Items, Body, StemOf, Spool.Expired, Spool.RoomFor, Spool.Enforced, DropsPrefix;
    var (sp', r) := Spool.AfterPut(sp, lim, docs, env);
    var room, d := BeforeAppend(sp, lim, docs, env, t);
    if r == Spool.Stored {
      var appended := Spool.Appended(room.(puts := room.puts + 1), docs, env);
      var b := EnforceShortest(appended, lim.max);
      SamePutsAfter(appended, sp', b, Spool.Size);
    }
  }

  /** What the two outcomes of a Put are on the protocol's queue. */
  lemma StepLanes(s: State, id: string, lost: nat)
    requires s.batcher.Collecting? && s.inHand != [] && lost <= |s.spool.items|
    ensures Enabled(s, SpoolRefuses(lost)) && Next(s, SpoolRefuses(lost)).spool == s.spool.(items := s.spool.items[lost..])
    ensures Next(s, SpoolRefuses(lost)).tally == Capped(s.tally, SpoolLane, DocsOf(s.spool.items[..lost]))
    ensures Fresh(id, s.spool.used) ==>
              && Enabled(s, SpoolStores(id, lost))
              && Next(s, SpoolStores(id, lost)).spool.items == s.spool.items[lost..] + [Item(id, s.inHand)]
              && Next(s, SpoolStores(id, lost)).spool.used == s.spool.used + {id}
              && Next(s, SpoolStores(id, lost)).tally == Capped(s.tally, SpoolLane, DocsOf(s.spool.items[..lost]))
  {
    hide Fresh, Orphan, DocsOf;
  }

  /** Put is one step of the batcher: the batch is stored last behind what caps left, or refused after losses only; the
      losses are reported, a for their age, b for room on the disk and c for the size cap. */
  lemma PutIsStep(s: State, sp: Spool.State, lim: Spool.Limits, env: Spool.PutEnv, t: nat)
    returns (step: Step, a: nat, b: nat, c: nat)
    requires SpoolShown(sp, t, s) && s.batcher.Collecting? && s.inHand != []
    requires t <= env.nameAt < INT64_LIMIT && sp.puts + 1 < SEQ_LIMIT
    ensures Enabled(s, step)
    ensures var (sp', r) := Spool.AfterPut(sp, lim, s.inHand, env);
      && SpoolShown(sp', env.nameAt, Next(s, step))
      && PutReports(sp, sp', a, b, c)
      && (if r == Spool.Stored then step.SpoolStores? && step.lost == a + b + c else step == SpoolRefuses(a + b + c))
      && (forall d: nat :: LeadingOld(sp.files, lim, env.expireAt, d) ==>
            (step.SpoolStores? <==> !NoRoom(sp.files, lim, s.inHand, env, d) && env.writeOk))
  {
    hide Indexed, Named, Items, Spool.AfterPut, StemOf, KnownStems, Fresh, Enabled, Next, PutReports, DropSum, DocsOf,
         StoresLast, LosesPrefix, TooOld, SizeSum, IndexAfterPut, LeadingOld, NoRoom;
    var (sp', r) := Spool.AfterPut(sp, lim, s.inHand, env);
    var k := Key(env.nameAt, sp.puts + 1, "");
    PutKeeps(sp, lim, s.inHand, env, t);
    PutCounts(sp, lim, s.inHand, env, t);
    a, b, c := PutGivesUp(sp, lim, s.inHand, env, t);
    var lost := a + b + c;
    forall d: nat | LeadingOld(sp.files, lim, env.expireAt, d)
      ensures d <= |sp.files| && (r == Spool.Stored <==> !NoRoom(sp.files, lim, s.inHand, env, d) && env.writeOk)
    {
      PutResult(sp, lim, s.inHand, env, d);
      OldFits(sp.files, lim, env.expireAt, d);
    }
    if r == Spool.Stored {
      step := SpoolStores(StemOf(k), lost);
      NewStemIsFresh(s.spool.used, t, k);
      StemAdded(s.spool.used, t, k);
      StoredShown(s, sp', env.nameAt, StemOf(k), lost);
    } else {
      step := SpoolRefuses(lost);
      StillKnown(s.spool.used, t, sp.puts + 1, env.nameAt, sp'.puts + 1);
      RefusedShown(s, sp', env.nameAt, lost);
    }
  }

  lemma OldFits(files: seq<Spool.Entry>, l: Spool.Limits, now: Spool.Time, d: nat)
    requires LeadingOld(files, l, now, d)
    ensures d <= |files|
  {
    hide TooOld;
  }

  lemma StoredShown(s: State, sp: Spool.State, t: nat, id: string, lost: nat)
    requires s.batcher.Collecting? && s.inHand != [] && lost <= |s.spool.items| && Fresh(id, s.spool.used)
    requires Indexed(sp) && Named(sp, t) && AllBacked(sp) && Items(sp) == s.spool.items[lost..] + [Item(id, s.inHand)]
    requires KnownStems(s.spool.used + {id}, t, sp.puts + 1)
    requires DropSum(sp.drops) == |s.tally.spoolCaps| + |DocsOf(s.spool.items[..lost])|
    ensures Enabled(s, SpoolStores(id, lost)) && SpoolShown(sp, t, Next(s, SpoolStores(id, lost)))
  {
    hide Indexed, Named, Items, AllBacked, KnownStems, Fresh, Enabled, Next, DropSum, DocsOf;
    StepLanes(s, id, lost);
  }

  lemma RefusedShown(s: State, sp: Spool.State, t: nat, lost: nat)
    requires s.batcher.Collecting? && s.inHand != [] && lost <= |s.spool.items|
    requires Indexed(sp) && Named(sp, t) && AllBacked(sp) && Items(sp) == s.spool.items[lost..]
    requires KnownStems(s.spool.used, t, sp.puts + 1)
    requires DropSum(sp.drops) == |s.tally.spoolCaps| + |DocsOf(s.spool.items[..lost])|
    ensures Enabled(s, SpoolRefuses(lost)) && SpoolShown(sp, t, Next(s, SpoolRefuses(lost)))
  {
    hide Indexed, Named, Items, AllBacked, KnownStems, Fresh, Enabled, Next, DropSum, DocsOf;
    StepLanes(s, "", lost);
  }

  lemma StemAdded(used: set<string>, t: nat, k: Key)
    requires KnownStems(used, t, k.number) && InRange(k) && t <= k.nanos
    ensures KnownStems(used + {StemOf(k)}, k.nanos, k.number + 1)
  {
    hide StemOf;
    StillKnown(used, t, k.number, k.nanos, k.number + 1);
    assert Earlier(k, k.nanos, k.number + 1);
    assert KnownStem(StemOf(k), k.nanos, k.number + 1);
  }

  lemma OldestCounts(sp: Spool.State, lim: Spool.Limits, now: Spool.Time, readable: string -> bool)
    ensures Spool.AfterOldest(sp, lim, now, readable).0.puts == sp.puts
  {
    hide DropsPrefix, Spool.ExpireTo, Spool.SkipCorrupt;
    var young := Spool.Expired(sp, lim, now);
    if lim.maxAge > 0 {
      var a := ExpireShortest(sp, now - lim.maxAge);
      SamePutsAfter(sp, young, a, Spool.Age);
    }
    var b := SkipsPrefix(young, readable);
    SamePutsAfter(young, Spool.SkipCorrupt(young, readable), b, Spool.Corrupt);
  }

  lemma CheckLanes(s: State, lost: nat)
    requires s.sender.Checking? && lost <= |s.spool.items|
    ensures Enabled(s, CheckSpool(lost)) && Next(s, CheckSpool(lost)).spool == s.spool.(items := s.spool.items[lost..])
    ensures Next(s, CheckSpool(lost)).tally == Capped(s.tally, SpoolLane, DocsOf(s.spool.items[..lost]))
    ensures Next(s, CheckSpool(lost)).sender
            == if lost == |s.spool.items| then SpoolChecked else Posting(SpoolLane, s.spool.items[lost])
  {
    hide Orphan, DocsOf;
  }

  /** Oldest is the sender's check of the spool: what it returns is posted, and nothing is posted when it is empty; its
      losses are reported, a as too old and b as corrupt. */
  lemma OldestIsStep(s: State, sp: Spool.State, lim: Spool.Limits, now: Spool.Time, readable: string -> bool, t: nat)
    returns (step: Step, a: nat, b: nat)
    requires SpoolShown(sp, t, s) && s.sender.Checking?
    ensures Enabled(s, step) && step == CheckSpool(a + b)
    ensures var (sp', r) := Spool.AfterOldest(sp, lim, now, readable);
      && SpoolShown(sp', t, Next(s, step))
      && GivesUp(sp, sp', lim, now, readable, a, b)
      && (r.Some? ==> r.value.name == PostedName(Item(Stem(r.value.name), r.value.docs)) && r.value.n == |r.value.docs|)
      && Next(s, step).sender == if r.None? then SpoolChecked else Posting(SpoolLane, Item(Stem(r.value.name), r.value.docs))
  {
    hide Indexed, Named, Items, Spool.AfterOldest, Stem, NameOf, KnownStems, DocsOf, GivesUp, DropSum, Enabled, Next;
    var (sp', r) := Spool.AfterOldest(sp, lim, now, readable);
    OldestKeeps(sp, lim, now, readable, t);
    OldestCounts(sp, lim, now, readable);
    ItemsLength(sp);
    ItemsLength(sp');
    a, b :| GivesUp(sp, sp', lim, now, readable, a, b) && Loses(Items(sp), Items(sp'), a + b);
    OldestReports(sp, sp', lim, now, readable, a, b);
    step := CheckSpool(a + b);
    CheckLanes(s, a + b);
    if r.Some? {
      FirstName(sp', t);
    }
  }

  /** The first file's name is made of its stem and its count. */
  lemma FirstName(sp: Spool.State, t: nat)
    requires Indexed(sp) && Named(sp, t) && sp.files != []
    ensures AllBacked(sp) && sp.files[0].name == PostedName(Item(Stem(sp.files[0].name), Items(sp)[0].docs))
  {
    hide StemOf, NameOf, Stem, Body, Earlier;
    var e := sp.files[0];
    assert Backed(sp.disk, e) && NamedBefore(e, t, sp.puts + 1);
    var k :| KeyedBy(e, k) && Earlier(k, t, sp.puts + 1);
    StemOfName(StemOf(k), e.n);
  }

  /** The name the sender has for the batch it posts. */
  function PostedName(it: Item): string {
    NameOf(it.id, |it.docs|)
  }

  /** No other file can be meant by that name, and the file of that name has the posted documents. */
  lemma PostedNameIsSole(sp: Spool.State, t: nat, l: Lane, it: Item)
    requires SpoolMirrors(sp, t, l) && FirstOrGone(l, it)
    ensures Stem(PostedName(it)) == it.id && SoleStem(sp.files, PostedName(it))
    ensures AllBacked(sp) && HoldsBody(sp, PostedName(it), it.docs)
  {
    hide StemOf, NameOf, Stem, Body, Earlier;
    StemOfName(it.id, |it.docs|);
    forall i | 0 <= i < |sp.files| && Stem(sp.files[i].name) == it.id
      ensures sp.files[i].name == PostedName(it) && sp.disk[sp.files[i].name] == Spool.Whole(it.docs)
    {
      var e := sp.files[i];
      assert l.items[i].id == it.id;
      assert l.items[i] == it && Backed(sp.disk, e) && NamedBefore(e, t, sp.puts + 1);
      var k :| KeyedBy(e, k) && Earlier(k, t, sp.puts + 1);
      StemOfName(StemOf(k), e.n);
    }
  }

  /** Remove after a 2xx, after a rejection, or after a split that did nothing. */
  lemma RemoveIsStep(s: State, sp: Spool.State, deleted: bool, t: nat)
    requires SpoolMirrors(sp, t, s.spool) && IdInv(s) && InFlight(s, SpoolLane)
    ensures var sp' := Spool.AfterRemove(sp, PostedName(s.sender.it), deleted).0;
      && sp'.drops == sp.drops
      && SpoolMirrors(sp', t, Deliver(s, SpoolLane, s.sender.it).spool)
      && SpoolMirrors(sp', t, GiveUp(s, SpoolLane, s.sender.it).spool)
  {
    FlightIds(s);
    PostedNameIsSole(sp, t, s.spool, s.sender.it);
    hide Indexed, Named, Items, Stem, KnownStems, Without, Again, IdInv, NameOf;
    RemoveKeeps(sp, PostedName(s.sender.it), deleted, t);
  }

  lemma SplitUpLane(s: State, w: Which, it: Item, ok: bool)
    ensures var l, s' := LaneOf(s, w), SplitUp(s, w, it, ok);
            var split := |it.docs| >= 2 && (!Present(l, it) || ok);
      && s'.sender == (if split then Checking else Discarding(w, it))
      && LaneOf(s', w).items == (if split then Halved(l.items, it) else l.items)
      && (LaneOf(s', w).used == l.used || LaneOf(s', w).used == l.used + {it.id + "a", it.id + "b"})
  {
    hide Halved;
    if !Present(LaneOf(s, w), it) {
      HalvedAt(LaneOf(s, w).items, it, |LaneOf(s, w).items|);
    }
    hide Present;
  }

  /** Split after a 413, with the writes of its halves succeeding or not. */
  lemma SplitIsStep(s: State, sp: Spool.State, okA: bool, okB: bool, t: nat)
    requires SpoolMirrors(sp, t, s.spool) && IdInv(s) && s.sender.Answered? && s.sender.w.SpoolLane?
    ensures var it, s' := s.sender.it, SplitUp(s, SpoolLane, s.sender.it, okA && okB);
            var (sp', r) := Spool.AfterSplit(sp, PostedName(it), it.docs, okA, okB);
      && SpoolMirrors(sp', t, s'.spool) && sp'.drops == sp.drops
      && s'.sender == if r == Spool.Split then Checking else Discarding(SpoolLane, it)
  {
    hide Indexed, Named, Items, KnownStems, Halved, IdInv, IdsOk, PostedName, Spool.AfterSplit, AllBacked, SplitUp, Present;
    FlightIds(s);
    SpoolSplits(sp, t, s.spool, s.sender.it, okA, okB);
    SplitStems(s.spool.used, s.sender.it.id, t, sp.puts + 1);
    SplitUpLane(s, SpoolLane, s.sender.it, okA && okB);
  }

  lemma SpoolSplits(sp: Spool.State, t: nat, l: Lane, it: Item, okA: bool, okB: bool)
    requires SpoolMirrors(sp, t, l) && FirstOrGone(l, it)
    ensures var (sp', r) := Spool.AfterSplit(sp, PostedName(it), it.docs, okA, okB);
            var split := |it.docs| >= 2 && (!Present(l, it) || (okA && okB));
      && Indexed(sp') && Named(sp', t) && sp'.puts == sp.puts && sp'.drops == sp.drops && (r == Spool.Split <==> split)
      && Items(sp') == if split then Halved(l.items, it) else l.items
  {
    hide Indexed, Named, Items, Stem, KnownStems, Halved, FirstOrGone, PostedName, Spool.AfterSplit, Spool.Find, SoleStem,
         AgeOrdered, AllBacked, HoldsBody, Present;
    PostedNameIsSole(sp, t, l, it);
    ItemsLength(sp);
    SplitKeeps(sp, PostedName(it), it.docs, okA, okB, t);
    SplitFinds(sp, l, it, okA, okB);
  }

  /** When the spool splits: it can be halved, and it is gone already or both halves can be written. */
  lemma SplitFinds(sp: Spool.State, l: Lane, it: Item, okA: bool, okB: bool)
    requires Indexed(sp) && AllBacked(sp) && Stem(PostedName(it)) == it.id && SoleStem(sp.files, PostedName(it))
    requires Items(sp) == l.items
    ensures var (sp', r) := Spool.AfterSplit(sp, PostedName(it), it.docs, okA, okB);
      && sp'.puts == sp.puts && sp'.drops == sp.drops
      && (r == Spool.Split <==> |it.docs| >= 2 && (!Present(l, it) || (okA && okB)))
  {
    hide Stem, NameOf, Backed, Body, HalfName;
    FoundInItems(sp, PostedName(it));
  }

  lemma SplitStems(used: set<string>, id: string, t: nat, number: nat)
    requires KnownStems(used, t, number) && id in used
    ensures KnownStems(used + {id + "a", id + "b"}, t, number)
  {
    hide KnownStem;
    HalfIsKnown(id, 'a', t, number);
    HalfIsKnown(id, 'b', t, number);
  }

  // ---- the memory queue ---------------------------------------------------------------------------

  /** A name the memory queue has given out, or made by halving. */
  ghost predicate KnownNumber(u: string, puts: nat) {
    exists k: nat, path :: k <= puts && IsPath(path) && u == Decimal(k) + path
  }

  ghost predicate KnownNumbers(used: set<string>, puts: nat) {
    forall u :: u in used ==> KnownNumber(u, puts)
  }

  lemma DigitsEnd(x: string, p: string, k: nat)
    requires IsPath(p) && k <= |x + p| && forall i :: 0 <= i < k ==> IsDigit((x + p)[i])
    ensures k <= |x|
  {
    assert p != "" ==> (x + p)[|x|] == p[0] && !IsDigit((x + p)[|x|]);
  }

  /** Letters are no digits, so the number of a name can be read off it. */
  lemma NumberReads(k: nat, p: string, n: nat, q: string)
    requires IsPath(p) && IsPath(q) && Decimal(k) + p == Decimal(n) + q
    ensures k == n
  {
    var x, y := Decimal(k), Decimal(n);
    DigitsEnd(x, p, |y|);
    DigitsEnd(y, q, |x|);
    assert x == (x + p)[..|x|] && y == (y + q)[..|y|];
    DecimalValue(k);
    DecimalValue(n);
  }

  lemma NewNumberIsFresh(used: set<string>, puts: nat)
    requires KnownNumbers(used, puts)
    ensures Fresh(Decimal(puts + 1), used)
  {
    hide Decimal;
    var id := Decimal(puts + 1);
    forall u | u in used ensures u != id && !Descends(id, u) && !Descends(u, id) {
      var k: nat, path :| k <= puts && IsPath(path) && u == Decimal(k) + path;
      if u == id {
        assert u == id + "";
        NumberReads(k, path, puts + 1, "");
      } else if Descends(id, u) {
        assert u == id + u[|id|..];
        NumberReads(k, path, puts + 1, u[|id|..]);
      } else if Descends(u, id) {
        assert id == Decimal(k) + (path + id[|u|..]);
        assert id == id + "";
        NumberReads(k, path + id[|u|..], puts + 1, "");
      }
    }
  }

  ghost predicate MemMirrors(m: Mem.State, l: Lane) {
    && m.total == Mem.Bytes(m.items) && Mem.Items(m.items) == l.items && KnownNumbers(l.used, m.puts)
    && Mem.Counted(m.items)
  }

  /** The memory queue is the protocol's, and its reports count exactly the documents its cap has taken. */
  ghost predicate MemShown(m: Mem.State, s: State) {
    MemMirrors(m, s.mem) && m.dropped == |s.tally.memCaps|
  }

  lemma NumbersGrow(used: set<string>, puts: nat)
    requires KnownNumbers(used, puts)
    ensures KnownNumbers(used + {Decimal(puts + 1)}, puts + 1)
  {
    hide Decimal;
    forall u | u in used ensures KnownNumber(u, puts + 1) {
      var k: nat, path :| k <= puts && IsPath(path) && u == Decimal(k) + path;
      assert k <= puts + 1;
    }
    assert Decimal(puts + 1) == Decimal(puts + 1) + "" && IsPath("");
    assert KnownNumber(Decimal(puts + 1), puts + 1);
  }

  lemma HalfIsNumbered(u: string, half: char, puts: nat)
    requires KnownNumber(u, puts) && (half == 'a' || half == 'b')
    ensures KnownNumber(u + [half], puts)
  {
    hide Decimal;
    var k: nat, path :| k <= puts && IsPath(path) && u == Decimal(k) + path;
    assert u + [half] == Decimal(k) + (path + [half]) && IsPath(path + [half]);
  }

  lemma MemLanes(s: State, id: string, lost: nat)
    requires s.batcher.Refused? && lost <= |s.mem.items| && Fresh(id, s.mem.used)
    ensures Enabled(s, MemStores(id, lost))
    ensures Next(s, MemStores(id, lost)).mem.items == s.mem.items[lost..] + [Item(id, s.batcher.docs)]
    ensures Next(s, MemStores(id, lost)).mem.used == s.mem.used + {id}
    ensures Next(s, MemStores(id, lost)).tally == Capped(s.tally, MemLane, DocsOf(s.mem.items[..lost]))
  {
    hide Fresh, Orphan, DocsOf;
  }

  /** The memory queue's Put is one step of the batcher, and its losses are reported. */
  lemma MemPutIsStep(s: State, m: Mem.State, max: int) returns (step: Step)
    requires MemShown(m, s) && s.batcher.Refused?
    ensures Enabled(s, step) && step.MemStores?
    ensures MemShown(Mem.AfterPut(m, max, s.batcher.docs), Next(s, step))
    ensures Mem.AfterPut(m, max, s.batcher.docs).dropped == m.dropped + |DocsOf(s.mem.items[..step.lost])|
  {
    hide Mem.Bytes, Mem.AfterPut, Mem.Items, Mem.Counted, Decimal, Fresh, KnownNumbers, DocsOf, Enabled, Next;
    var id, docs := Decimal(m.puts + 1), s.batcher.docs;
    var d := Mem.PutRefines(m, max, docs);
    step := MemStores(id, d);
    NewNumberIsFresh(s.mem.used, m.puts);
    NumbersGrow(s.mem.used, m.puts);
    var q := Mem.Items(m.items);
    SameItemCount(m.items);
    assert (q + [Item(id, docs)])[d..] == q[d..] + [Item(id, docs)];
    MemLanes(s, id, d);
  }

  lemma SameItemCount(items: seq<Mem.MemItem>)
    ensures |Mem.Items(items)| == |items|
  {}

  lemma MemRemoveIsStep(s: State, m: Mem.State)
    requires MemMirrors(m, s.mem) && InFlight(s, MemLane)
    ensures var m' := Mem.AfterRemove(m, s.sender.it.id);
      && MemMirrors(m', Deliver(s, MemLane, s.sender.it).mem)
      && MemMirrors(m', GiveUp(s, MemLane, s.sender.it).mem)
      && m'.dropped == m.dropped
  {
    hide Mem.Bytes, KnownNumbers, Without, Again;
    Mem.RemoveRefines(m, s.sender.it.id);
  }

  lemma MemSplitIsStep(s: State, m: Mem.State)
    requires MemMirrors(m, s.mem) && IdInv(s) && s.sender.Answered? && s.sender.w.MemLane?
    ensures var it, s' := s.sender.it, SplitUp(s, MemLane, s.sender.it, true);
            var (m', split) := Mem.AfterSplit(m, it.id, it.docs);
      && MemMirrors(m', s'.mem) && m'.dropped == m.dropped
      && s'.sender == if split then Checking else Discarding(MemLane, it)
  {
    var it := s.sender.it;
    hide Mem.Bytes, Mem.Find, KnownNumbers, Halved, IdInv, IdsOk, SplitUp, Present;
    FlightIds(s);
    assert forall i :: 0 <= i < |m.items| && m.items[i].name == it.id ==> s.mem.items[i].id == it.id;
    SplitStaysCounted(m, it.id, it.docs);
    hide Mem.AfterSplit;
    Mem.SplitRefines(m, it.id, it.docs);
    SplitNumbers(s.mem.used, it.id, m.puts);
    SplitUpLane(s, MemLane, it, true);
  }

  lemma SplitStaysCounted(m: Mem.State, name: string, docs: seq<Doc>)
    requires Mem.Counted(m.items)
    ensures var m' := Mem.AfterSplit(m, name, docs).0; Mem.Counted(m'.items) && m'.puts == m.puts && m'.dropped == m.dropped
  {
    hide Body;
  }

  lemma SplitNumbers(used: set<string>, id: string, puts: nat)
    requires KnownNumbers(used, puts) && id in used
    ensures KnownNumbers(used + {id + "a", id + "b"}, puts)
  {
    hide KnownNumber;
    HalfIsNumbered(id, 'a', puts);
    HalfIsNumbered(id, 'b', puts);
  }

  // ---- the start ------------------------------------------------------------------------------------

  /** A shipper as Run starts it on a spool with these batches. */
  function StartOn(items: seq<Item>): State {
    State([], Collecting, true, Lane(items, DocsOf(items), [], IdsOf(items), {}), Lane([], [], [], {}, {}),
          false, false, Waiting, multiset(DocsOf(items)), multiset{}, multiset{}, multiset{}, Tally([], [], []))
  }

  lemma OpenedStems(sp: Spool.State, t: nat, x: string)
    requires Indexed(sp) && Named(sp, t) && x in IdsOf(Items(sp))
    ensures KnownStem(x, t, sp.puts + 1) && exists i :: 0 <= i < |sp.files| && x == Stem(sp.files[i].name)
  {
    hide Stem, StemOf, NameOf, Backed, Earlier;
    var it :| it in Items(sp) && it.id == x;
    var i :| 0 <= i < |Items(sp)| && Items(sp)[i] == it;
    assert NamedBefore(sp.files[i], t, sp.puts + 1);
    var k :| KeyedBy(sp.files[i], k) && Earlier(k, t, sp.puts + 1);
    StemOfName(StemOf(k), sp.files[i].n);
  }

  lemma OpenedUnrelated(sp: Spool.State, t: nat, x: string, n: nat, y: string)
    requires Indexed(sp) && Named(sp, t) && x in IdsOf(Items(sp)) && y in IdsOf(Items(sp))
    ensures !Reaches(x, n, y)
  {
    hide Stem, Backed, Descends, Reaches, KnownStem, NamedBefore, IdsOf, Indexed, Diverges;
    OpenedStems(sp, t, x);
    OpenedStems(sp, t, y);
    var i :| 0 <= i < |sp.files| && x == Stem(sp.files[i].name);
    var j :| 0 <= j < |sp.files| && y == Stem(sp.files[j].name);
    if Reaches(x, n, y) {
      ReachesDescends(x, n, y);
      if i < j {
        DivergesUnrelated(x, y);
      } else if j < i {
        DivergesUnrelated(y, x);
      } else {
        NoSelfDescent(x);
      }
    }
  }

  /** A spool that is in order, as a restart finds it, and an empty memory queue are where the protocol's runs start. */
  lemma OpenedStarts(sp: Spool.State, t: nat)
    requires Indexed(sp) && Named(sp, t)
    ensures var s := StartOn(Items(sp));
            Initial(s) && SpoolMirrors(sp, t, s.spool) && MemMirrors(Mem.State([], 0, 0, 0), s.mem)
  {
    hide Stem, Backed, Reaches, KnownStem, NamedBefore, DocsOf;
    NamedIsDistinct(sp.files);
    forall i, y | 0 <= i < |Items(sp)| && y in IdsOf(Items(sp)) ensures !Reaches(Items(sp)[i].id, |Items(sp)[i].docs|, y) {
      assert Items(sp)[i] in Items(sp);
      OpenedUnrelated(sp, t, Items(sp)[i].id, |Items(sp)[i].docs|, y);
    }
    hide IdsOf;
    forall x | x in IdsOf(Items(sp)) ensures KnownStem(x, t, sp.puts + 1) {
      OpenedStems(sp, t, x);
    }
    assert Mem.Items([]) == [];
  }
}
