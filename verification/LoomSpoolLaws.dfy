/** What the spool's operations keep: the index matches the files, names sort as the queue
    stands, caps give up the shortest sufficient prefix, and each operation is one on the
    plain queue of batches. */
module LoomSpoolLaws {
  import opened Options
  import opened LoomNames
  import opened LoomQueues
  import opened LoomSpool

  function SizeSum(files: seq<Entry>): (n: nat) {
    if files == [] then 0 else files[0].size + SizeSum(files[1..])
  }

  function NamesOf(files: seq<Entry>): set<string> {
    set e | e in files :: e.name
  }

  function DropsOf(files: seq<Entry>, reason: Reason): (d: seq<Drop>) {
    if files == [] then [] else [Drop(reason, files[0].n)] + DropsOf(files[1..], reason)
  }

  lemma {:induction false} SizeSumTwoParts(x: seq<Entry>, y: seq<Entry>)
    ensures SizeSum(x + y) == SizeSum(x) + SizeSum(y)
    decreases |x|
  {
    if x == [] {
      assert x + y == y;
    } else {
      SizeSumTwoParts(x[1..], y);
      assert (x + y)[1..] == x[1..] + y;
    }
  }

  // ---- caps give up a prefix --------------------------------------------------------------------

  /** t is s with its d oldest batches removed, deleted and reported for one reason. */
  ghost predicate DropsPrefix(s: State, t: State, d: nat, reason: Reason) {
    && d <= |s.files|
    && t.files == s.files[d..]
    && t.puts == s.puts
    && t.total == s.total - SizeSum(s.files[..d])
    && t.disk == s.disk - NamesOf(s.files[..d])
    && t.drops == s.drops + DropsOf(s.files[..d], reason)
  }

  lemma SamePutsAfter(s: State, t: State, d: nat, reason: Reason)
    requires DropsPrefix(s, t, d, reason)
    ensures t.puts == s.puts
  {}

  lemma DropsNothing(s: State, reason: Reason)
    ensures DropsPrefix(s, s, 0, reason)
  {
    assert s.files[0..] == s.files;
    assert s.drops + [] == s.drops;
  }

  lemma DropsOneMore(s: State, t: State, d: nat, reason: Reason)
    requires s.files != [] && DropsPrefix(DropFront(s, reason), t, d, reason)
    ensures DropsPrefix(s, t, d + 1, reason)
    ensures s.files[..d + 1][1..] == s.files[1..][..d]
  {
    var e, head, rest := s.files[0], s.files[..d + 1], s.files[1..][..d];
    assert head == [e] + rest;
    assert head[1..] == rest;
    assert NamesOf(head) == {e.name} + NamesOf(rest);
    assert (s.disk - {e.name}) - NamesOf(rest) == s.disk - NamesOf(head);
    assert s.drops + [Drop(reason, e.n)] + DropsOf(rest, reason) == s.drops + DropsOf(head, reason);
    assert s.files[1..][d..] == s.files[d + 1..];
  }

  /** The age cap: every batch given up was too old, and the first kept one is not. */
  lemma {:induction false} ExpireShortest(s: State, cutoff: Time) returns (d: nat)
    ensures DropsPrefix(s, ExpireTo(s, cutoff), d, Age)
    ensures forall i :: 0 <= i < d ==> s.files[i].born < cutoff
    ensures d < |s.files| ==> s.files[d].born >= cutoff
    decreases |s.files|
  {
    hide DropsPrefix;
    if s.files != [] && s.files[0].born < cutoff {
      var t := DropFront(s, Age);
      var d' := ExpireShortest(t, cutoff);
      DropsOneMore(s, ExpireTo(s, cutoff), d', Age);
      PrefixFits(t, ExpireTo(s, cutoff), d', Age);
      d := d' + 1;
      forall i | 0 <= i < d ensures s.files[i].born < cutoff {
        if i > 0 {
          assert s.files[i] == t.files[i - 1];
        }
      }
    } else {
      DropsNothing(s, Age);
      d := 0;
    }
  }

  lemma PrefixFits(s: State, t: State, d: nat, reason: Reason)
    requires DropsPrefix(s, t, d, reason)
    ensures d <= |s.files| && t.files == s.files[d..]
  {}

  /** The free-space bound: with one batch fewer given up there was not enough room. */
  lemma {:induction false} RoomShortest(s: State, free: nat, need: nat) returns (d: nat)
    ensures DropsPrefix(s, RoomFor(s, free, need).0, d, Disk)
    ensures d <= |s.files| && RoomFor(s, free, need).1 == free + SizeSum(s.files[..d])
    ensures forall i :: 0 <= i < d ==> free + SizeSum(s.files[..i]) < need
    ensures d < |s.files| ==> free + SizeSum(s.files[..d]) >= need
    decreases |s.files|
  {
    hide DropsPrefix;
    if free < need && s.files != [] {
      var t := DropFront(s, Disk);
      var d' := RoomShortest(t, free + s.files[0].size, need);
      DropsOneMore(s, RoomFor(s, free, need).0, d', Disk);
      d := d' + 1;
      forall i | 0 <= i <= d && i <= |s.files|
        ensures i > 0 ==> SizeSum(s.files[..i]) == s.files[0].size + SizeSum(t.files[..i - 1])
      {
        if i > 0 {
          assert s.files[..i][1..] == t.files[..i - 1];
        }
      }
    } else {
      DropsNothing(s, Disk);
      d := 0;
    }
  }

  /** The size cap: with one batch fewer given up the spool was still over it; the newest is never given up. */
  lemma {:induction false} EnforceShortest(s: State, max: int) returns (d: nat)
    ensures DropsPrefix(s, Enforced(s, max), d, Size)
    ensures d <= |s.files| && (s.files != [] ==> d < |s.files|)
    ensures forall i :: 0 <= i < d ==> s.total - SizeSum(s.files[..i]) > max
    ensures Enforced(s, max).total <= max || |Enforced(s, max).files| <= 1
    decreases |s.files|
  {
    hide DropsPrefix;
    if s.total > max && |s.files| > 1 {
      var t := DropFront(s, Size);
      var d' := EnforceShortest(t, max);
      DropsOneMore(s, Enforced(s, max), d', Size);
      d := d' + 1;
      forall i | 0 <= i < d ensures s.total - SizeSum(s.files[..i]) > max {
        if i > 0 {
          assert s.files[..i][1..] == t.files[..i - 1];
        }
      }
    } else {
      DropsNothing(s, Size);
      d := 0;
    }
  }

  lemma {:induction false} SkipsPrefix(s: State, readable: string -> bool) returns (d: nat)
    ensures DropsPrefix(s, SkipCorrupt(s, readable), d, Corrupt)
    decreases |s.files|
  {
    hide DropsPrefix, Good;
    if s.files != [] && !Good(s, s.files[0].name, readable) {
      var d' := SkipsPrefix(DropFront(s, Corrupt), readable);
      DropsOneMore(s, SkipCorrupt(s, readable), d', Corrupt);
      d := d' + 1;
    } else {
      DropsNothing(s, Corrupt);
      d := 0;
    }
  }

  // ---- the index and the files ------------------------------------------------------------------

  /** The file is there, whole, and as big and as long as the entry says. */
  predicate Backed(disk: map<string, Content>, e: Entry) {
    && e.name in disk && disk[e.name].Whole?
    && |disk[e.name].docs| == e.n && |Body(disk[e.name].docs)| == e.size
  }

  ghost predicate DistinctNames(files: seq<Entry>) {
    forall i, j :: 0 <= i < j < |files| ==> files[i].name != files[j].name
  }

  ghost predicate AllBacked(s: State) {
    forall i :: 0 <= i < |s.files| ==> Backed(s.disk, s.files[i])
  }

  ghost predicate Indexed(s: State) {
    DistinctNames(s.files) && AllBacked(s) && s.total == SizeSum(s.files)
  }

  /** The queue of batches the index and the files stand for. */
  function Items(s: State): (q: seq<Item>)
    requires AllBacked(s)
    ensures |q| == |s.files|
    ensures forall i :: 0 <= i < |q| ==> q[i] == Item(Stem(s.files[i].name), s.disk[s.files[i].name].docs)
  {
    seq(|s.files|, i requires 0 <= i < |s.files| => Item(Stem(s.files[i].name), s.disk[s.files[i].name].docs))
  }

  lemma KeptFile(s: State, t: State, d: nat, reason: Reason, i: nat)
    requires Indexed(s) && DropsPrefix(s, t, d, reason) && i < |t.files|
    ensures t.files[i] == s.files[d + i]
    ensures Backed(t.disk, t.files[i]) && t.disk[t.files[i].name] == s.disk[t.files[i].name]
  {
    hide Backed, SizeSum, DropsOf;
    assert t.files[i] == s.files[d + i];
    assert s.files[d + i].name !in NamesOf(s.files[..d]);
    assert Backed(s.disk, s.files[d + i]);
    BackedIsThere(s.disk, s.files[d + i]);
    SameFile(s.disk, t.disk, s.files[d + i]);
  }

  lemma BackedIsThere(disk: map<string, Content>, e: Entry)
    requires Backed(disk, e)
    ensures e.name in disk
  {}

  lemma DistinctTail(files: seq<Entry>, d: nat)
    requires d <= |files| && DistinctNames(files)
    ensures DistinctNames(files[d..])
    ensures SizeSum(files[d..]) == SizeSum(files) - SizeSum(files[..d])
  {
    SizeSumTwoParts(files[..d], files[d..]);
    assert files[..d] + files[d..] == files;
  }

  /** Giving up a prefix keeps the index right, and takes that prefix off the queue. */
  lemma DropRefines(s: State, t: State, d: nat, reason: Reason)
    requires Indexed(s) && DropsPrefix(s, t, d, reason)
    ensures Indexed(t) && Items(t) == Items(s)[d..]
  {
    hide Backed, DropsOf, SizeSum, Stem;
    DistinctTail(s.files, d);
    forall i | 0 <= i < |t.files| ensures Backed(t.disk, t.files[i]) {
      KeptFile(s, t, d, reason, i);
    }
    forall i | 0 <= i < |t.files| ensures Items(t)[i] == Items(s)[d..][i] {
      KeptFile(s, t, d, reason, i);
    }
  }

  /** Oldest skips the unreadable batches at the front, all of them and no other. */
  lemma {:induction false} SkipsUnreadable(s: State, readable: string -> bool) returns (d: nat)
    requires Indexed(s)
    ensures DropsPrefix(s, SkipCorrupt(s, readable), d, Corrupt) && d <= |s.files|
    ensures forall i :: 0 <= i < d ==> !readable(s.files[i].name)
    ensures d < |s.files| ==> readable(s.files[d].name)
    decreases |s.files|
  {
    hide DropsPrefix, Indexed, Good;
    if s.files != [] {
      GoodIsReadable(s, readable);
    }
    if s.files != [] && !readable(s.files[0].name) {
      var t := DropFront(s, Corrupt);
      DropsNothing(t, Corrupt);
      DropsOneMore(s, t, 0, Corrupt);
      DropRefines(s, t, 1, Corrupt);
      var d' := SkipsUnreadable(t, readable);
      DropsOneMore(s, SkipCorrupt(s, readable), d', Corrupt);
      d := d' + 1;
      forall i | 0 < i <= d' ensures !readable(s.files[i].name) {
        assert s.files[i] == t.files[i - 1];
      }
    } else {
      DropsNothing(s, Corrupt);
      d := 0;
    }
  }

  lemma GoodIsReadable(s: State, readable: string -> bool)
    requires Indexed(s) && s.files != []
    ensures Good(s, s.files[0].name, readable) <==> readable(s.files[0].name)
  {
    assert Backed(s.disk, s.files[0]);
  }

  lemma SameFile(disk: map<string, Content>, disk': map<string, Content>, e: Entry)
    requires Backed(disk, e) && e.name in disk' && disk'[e.name] == disk[e.name]
    ensures Backed(disk', e)
  {}

  // ---- names --------------------------------------------------------------------------------------

  ghost predicate KeyedBy(e: Entry, k: Key) {
    InRange(k) && e.name == NameOf(StemOf(k), e.n)
  }

  /** The name was given by this or an earlier run, before clock reading t and the next number. */
  ghost predicate NamedBefore(e: Entry, t: nat, number: nat) {
    exists k :: KeyedBy(e, k) && Earlier(k, t, number)
  }

  ghost predicate Ordered(files: seq<Entry>) {
    forall i, j :: 0 <= i < j < |files| ==> Diverges(Stem(files[i].name), Stem(files[j].name))
  }

  /** Stems stand in sorting order and all come before what Put will name next, the clock reading t or later. */
  ghost predicate Named(s: State, t: nat) {
    Ordered(s.files) && forall i :: 0 <= i < |s.files| ==> NamedBefore(s.files[i], t, s.puts + 1)
  }

  lemma NamedIsDistinct(files: seq<Entry>)
    requires Ordered(files)
    ensures DistinctNames(files)
    ensures forall i, j :: 0 <= i < j < |files| ==> Stem(files[i].name) != Stem(files[j].name)
  {
    forall i, j | 0 <= i < j < |files|
      ensures files[i].name != files[j].name && Stem(files[i].name) != Stem(files[j].name)
    {
      DivergesIsLess(Stem(files[i].name), Stem(files[j].name));
    }
  }

  lemma DropNamed(s: State, s': State, d: nat, reason: Reason, t: nat)
    requires Named(s, t) && DropsPrefix(s, s', d, reason)
    ensures Named(s', t)
  {
    hide NamedBefore, Diverges;
    forall i | 0 <= i < |s'.files| ensures s'.files[i] == s.files[d + i] {}
  }

  lemma LaterNamed(s: State, s': State, t: nat, t': nat)
    requires Named(s, t) && s'.files == s.files && s'.puts >= s.puts && t <= t'
    ensures Named(s', t')
  {
    hide KeyedBy, Diverges;
    forall i | 0 <= i < |s.files| ensures NamedBefore(s.files[i], t', s'.puts + 1) {
      assert NamedBefore(s.files[i], t, s.puts + 1);
      var k :| KeyedBy(s.files[i], k) && Earlier(k, t, s.puts + 1);
      assert Earlier(k, t', s'.puts + 1);
    }
  }

  /** The stem Put gives sorts behind every stem in the queue. */
  lemma NewStemIsLast(s: State, t: nat, l: Key, i: nat)
    requires Named(s, t) && i < |s.files| && InRange(l) && t <= l.nanos && l.number == s.puts + 1
    ensures Diverges(Stem(s.files[i].name), StemOf(l))
  {
    hide Pad, Diverges;
    assert NamedBefore(s.files[i], t, s.puts + 1);
    var k :| KeyedBy(s.files[i], k) && Earlier(k, t, s.puts + 1);
    StemOfName(StemOf(k), s.files[i].n);
    LaterStemDiverges(k, l);
  }

  lemma AppendNamed(s: State, e: Entry, k: Key, t: nat)
    requires Named(s, t) && InRange(k) && k.number == s.puts + 1 && t <= k.nanos && k.path == ""
    requires e.name == NameOf(StemOf(k), e.n)
    ensures Ordered(s.files + [e])
    ensures forall i :: 0 <= i <= |s.files| ==> NamedBefore((s.files + [e])[i], k.nanos, s.puts + 2)
  {
    hide StemOf, NameOf, Diverges, Stem, KeyedBy;
    StemOfName(StemOf(k), e.n);
    LaterNamed(s, s.(puts := s.puts + 1), t, k.nanos);
    NewNamed(e, k, s.puts + 2);
    forall i, j | 0 <= i < j < |s.files + [e]|
      ensures Diverges(Stem((s.files + [e])[i].name), Stem((s.files + [e])[j].name))
    {
      if j == |s.files| {
        NewStemIsLast(s, t, k, i);
      }
    }
  }

  lemma AppendBacked(s: State, e: Entry, docs: seq<Doc>)
    requires Indexed(s) && DistinctNames(s.files + [e]) && e.n == |docs| && e.size == |Body(docs)|
    ensures var s' := s.(files := s.files + [e], total := s.total + e.size, disk := s.disk[e.name := Whole(docs)]);
            Indexed(s') && Items(s') == Items(s) + [Item(Stem(e.name), docs)]
  {
    hide Stem, Body;
    var s' := s.(files := s.files + [e], total := s.total + e.size, disk := s.disk[e.name := Whole(docs)]);
    forall i | 0 <= i < |s.files| ensures s.files[i].name != e.name && Backed(s.disk, s.files[i]) {
      assert s'.files[i].name != s'.files[|s.files|].name;
    }
    SizeSumTwoParts(s.files, [e]);
    assert SizeSum([e]) == e.size + SizeSum([e][1..]);
    assert Items(s') == Items(s) + [Item(Stem(e.name), docs)];
  }

  lemma AppendKeeps(s: State, counted: State, docs: seq<Doc>, env: PutEnv, t: nat)
    requires Indexed(s) && Named(s, t) && counted == s.(puts := s.puts + 1)
    requires t <= env.nameAt < INT64_LIMIT && s.puts + 1 < SEQ_LIMIT
    ensures var s' := Appended(counted, docs, env);
            Indexed(s') && Named(s', env.nameAt)
            && Items(s') == Items(s) + [Item(StemOf(Key(env.nameAt, s.puts + 1, "")), docs)]
  {
    hide StemOf, NameOf, Diverges, Stem, NamedBefore, Body, Backed;
    var k := Key(env.nameAt, s.puts + 1, "");
    var e := Entry(NameOf(StemOf(k), |docs|), |Body(docs)|, |docs|, env.bornAt);
    StemOfName(StemOf(k), |docs|);
    AppendNamed(s, e, k, t);
    NamedIsDistinct(s.files + [e]);
    AppendBacked(counted, e, docs);
    CountedSame(s, counted);
  }

  lemma NewNamed(e: Entry, k: Key, number: nat)
    requires InRange(k) && e.name == NameOf(StemOf(k), e.n) && k.number < number
    ensures NamedBefore(e, k.nanos, number)
  {
    assert KeyedBy(e, k) && Earlier(k, k.nanos, number);
  }

  /** Put on the plain queue: the oldest may go for age or room, the new batch is appended last, and the
      oldest may go again for the size cap, but never the new one. */
  ghost predicate PutsLast(q: seq<Item>, r: seq<Item>, it: Item, a: nat, b: nat) {
    a <= |q| && b <= |q| - a && r == (q[a..] + [it])[b..]
  }

  ghost predicate StoresLast(q: seq<Item>, r: seq<Item>, it: Item) {
    exists a: nat, b: nat :: PutsLast(q, r, it, a, b)
  }

  /** r is what is left of q after its d oldest batches. */
  ghost predicate Loses(q: seq<Item>, r: seq<Item>, d: nat) {
    d <= |q| && r == q[d..]
  }

  ghost predicate LosesPrefix(q: seq<Item>, r: seq<Item>) {
    exists d: nat :: Loses(q, r, d)
  }

  lemma LosesTwice(q: seq<Item>, r: seq<Item>, u: seq<Item>, a: nat, b: nat)
    requires Loses(q, r, a) && Loses(r, u, b)
    ensures Loses(q, u, a + b)
  {}

  lemma DropKeeps(s: State, s': State, d: nat, reason: Reason, t: nat)
    requires Indexed(s) && Named(s, t) && DropsPrefix(s, s', d, reason)
    ensures Indexed(s') && Named(s', t) && s'.puts == s.puts && Loses(Items(s), Items(s'), d)
  {
    hide Indexed, Named;
    DropRefines(s, s', d, reason);
    DropNamed(s, s', d, reason, t);
    ItemsLength(s);
  }

  /** The age cap, as every Put and every Oldest begins with it. */
  lemma ExpireKeeps(s: State, l: Limits, now: Time, t: nat) returns (d: nat)
    requires Indexed(s) && Named(s, t)
    ensures var s' := Expired(s, l, now);
            Indexed(s') && Named(s', t) && s'.puts == s.puts && Loses(Items(s), Items(s'), d)
  {
    hide Indexed, Named, Items, DropsPrefix;
    d := 0;
    if l.maxAge > 0 {
      d := ExpireShortest(s, now - l.maxAge);
    } else {
      DropsNothing(s, Age);
    }
    DropKeeps(s, Expired(s, l, now), d, Age, t);
  }

  lemma BeforeAppend(s: State, l: Limits, docs: seq<Doc>, env: PutEnv, t: nat) returns (room: State, d: nat)
    requires Indexed(s) && Named(s, t)
    ensures var young := Expired(s, l, env.expireAt);
            room == if env.free.None? then young else RoomFor(young, env.free.value, |Body(docs)| + l.minFree).0
    ensures Indexed(room) && Named(room, t) && room.puts == s.puts && Loses(Items(s), Items(room), d)
  {
    hide Indexed, Named, Items, Body, Loses, DropsPrefix, Expired, RoomFor;
    var young := Expired(s, l, env.expireAt);
    var a := ExpireKeeps(s, l, env.expireAt, t);
    room, d := young, a;
    if env.free.Some? {
      var need := |Body(docs)| + l.minFree;
      var b := RoomShortest(young, env.free.value, need);
      room := RoomFor(young, env.free.value, need).0;
      DropKeeps(young, room, b, Disk, t);
      ItemsLength(s);
      ItemsLength(young);
      ItemsLength(room);
      LosesTwice(Items(s), Items(young), Items(room), a, b);
      d := a + b;
    }
  }

  lemma ItemsLength(s: State)
    requires Indexed(s)
    ensures AllBacked(s) && |Items(s)| == |s.files|
  {}

  /** The part of a Put that stores: the batch goes last, and then the size cap takes the b oldest. */
  lemma StoringKeeps(room: State, docs: seq<Doc>, env: PutEnv, max: int, t: nat) returns (b: nat)
    requires Indexed(room) && Named(room, t) && t <= env.nameAt < INT64_LIMIT && room.puts + 1 < SEQ_LIMIT
    ensures var s' := Enforced(Appended(room.(puts := room.puts + 1), docs, env), max);
            var all := Items(room) + [Item(StemOf(Key(env.nameAt, room.puts + 1, "")), docs)];
      && Indexed(s') && Named(s', env.nameAt) && b < |all| && Items(s') == all[b..]
      && s'.total == SizeSum(s'.files) && (s'.total <= max || |s'.files| == 1)
  {
    hide Indexed, Named, Items, Body, StemOf, Appended, Enforced, DropsPrefix;
    var counted := room.(puts := room.puts + 1);
    AppendKeeps(room, counted, docs, env, t);
    var appended := Appended(counted, docs, env);
    var s' := Enforced(appended, max);
    b := EnforceShortest(appended, max);
    DropKeeps(appended, s', b, Size, env.nameAt);
    ItemsLength(appended);
    ItemsLength(s');
    IndexedTotal(s');
  }

  /** Put keeps the index right and the names in order, whatever it returns. When it stores the batch, the batch
      is the last of the queue, and the bytes are within the cap unless it is the only one; otherwise the queue
      has only lost a prefix. */
  lemma PutKeeps(s: State, l: Limits, docs: seq<Doc>, env: PutEnv, t: nat)
    requires Indexed(s) && Named(s, t) && t <= env.nameAt < INT64_LIMIT && s.puts + 1 < SEQ_LIMIT
    ensures var (s', r) := AfterPut(s, l, docs, env);
      && Indexed(s') && Named(s', env.nameAt)
      && (r == Stored ==>
            && s'.total == SizeSum(s'.files) && (s'.total <= l.max || |s'.files| == 1)
            && StoresLast(Items(s), Items(s'), Item(StemOf(Key(env.nameAt, s.puts + 1, "")), docs)))
      && (r != Stored ==> LosesPrefix(Items(s), Items(s')))
  {
    hide Indexed, Named, Items, Body, StemOf, Expired, RoomFor, Appended, Enforced, DropsPrefix;
    var (s', r) := AfterPut(s, l, docs, env);
    var room, d := BeforeAppend(s, l, docs, env, t);
    ItemsLength(s);
    if r == LowDisk {
      LaterNamed(room, s', t, env.nameAt);
    } else {
      var counted := room.(puts := room.puts + 1);
      CountedSame(room, counted);
      LaterNamed(room, counted, t, env.nameAt);
      if r == Stored {
        var b := StoringKeeps(room, docs, env, l.max, t);
        ItemsLength(s');
        assert PutsLast(Items(s), Items(s'), Item(StemOf(Key(env.nameAt, s.puts + 1, "")), docs), d, b);
      }
    }
  }

  lemma CountedSame(s: State, t: State)
    requires Indexed(s) && t == s.(puts := t.puts)
    ensures Indexed(t) && Items(t) == Items(s)
  {}

  lemma IndexedTotal(s: State)
    requires Indexed(s)
    ensures s.total == SizeSum(s.files)
  {}
}
