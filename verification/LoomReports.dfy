/** What the spool reports: every document a cap takes is in exactly one report, with the reason of that cap. */
module LoomReports {
  import opened Options
  import opened LoomNames
  import opened LoomQueues
  import opened LoomSpool
  import opened LoomSpoolLaws
  import opened LoomSpoolOps

  /** The documents reported. */
  function DropSum(drops: seq<Drop>): (n: nat) {
    if drops == [] then 0 else DropSum(drops[..|drops| - 1]) + drops[|drops| - 1].n
  }

  lemma {:induction false} DropSumTwoParts(x: seq<Drop>, y: seq<Drop>)
    ensures DropSum(x + y) == DropSum(x) + DropSum(y)
    decreases |y|
  {
    if y == [] {
      assert x + y == x;
    } else {
      DropSumTwoParts(x, y[..|y| - 1]);
      assert (x + y)[..|x + y| - 1] == x + y[..|y| - 1];
    }
  }

  lemma {:induction false} DropsOfSnoc(files: seq<Entry>, e: Entry, reason: Reason)
    ensures DropsOf(files + [e], reason) == DropsOf(files, reason) + [Drop(reason, e.n)]
    decreases |files|
  {
    if files == [] {
      assert (files + [e])[1..] == [];
    } else {
      DropsOfSnoc(files[1..], e, reason);
      assert (files + [e])[1..] == files[1..] + [e];
    }
  }

  lemma OneDrop(drops: seq<Drop>, d: Drop)
    ensures DropSum(drops + [d]) == DropSum(drops) + d.n
  {
    assert (drops + [d])[..|drops|] == drops;
  }

  /** A stretch of the index reported for one reason counts exactly the documents of its batches. */
  lemma {:induction false} StretchCounts(s: State, x: nat, y: nat, reason: Reason)
    requires Indexed(s) && x <= y <= |s.files|
    ensures AllBacked(s) && DropSum(DropsOf(s.files[x..y], reason)) == |DocsOf(Items(s)[x..y])|
    decreases y
  {
    hide Indexed, Items, DropSum, DocsOf, DropsOf;
    ItemsLength(s);
    if x == y {
      NoReports(reason);
      assert s.files[x..y] == [] && Items(s)[x..y] == [];
    } else {
      var e, it := s.files[y - 1], Items(s)[y - 1];
      StretchCounts(s, x, y - 1, reason);
      SliceSnoc(s.files, x, y);
      SliceSnoc(Items(s), x, y);
      DropsOfSnoc(s.files[x..y - 1], e, reason);
      OneDrop(DropsOf(s.files[x..y - 1], reason), Drop(reason, e.n));
      DocsOfSnoc(Items(s)[x..y - 1], it);
      EntryCount(s, y - 1);
    }
  }

  lemma SliceSnoc<T>(q: seq<T>, x: nat, y: nat)
    requires x < y <= |q|
    ensures q[x..y] == q[x..y - 1] + [q[y - 1]]
  {}

  lemma NoReports(reason: Reason)
    ensures DropsOf([], reason) == [] && DropSum([]) == 0 && DocsOf([]) == []
  {}

  lemma EntryCount(s: State, i: nat)
    requires Indexed(s) && i < |s.files|
    ensures AllBacked(s) && |Items(s)[i].docs| == s.files[i].n
  {
    hide Stem, Body;
    assert Backed(s.disk, s.files[i]);
  }

  // ---- when a Put stores ----------------------------------------------------------------------------

  /** The first d batches, and not the one behind them, are past the age cap. */
  ghost predicate LeadingOld(files: seq<Entry>, l: Limits, now: Time, d: nat) {
    && d <= |files| && (forall i :: 0 <= i < d ==> TooOld(l, files[i], now))
    && (d < |files| ==> !TooOld(l, files[d], now))
  }

  /** Even with everything given up that the age cap left, the disk would not have room for the body and the reserve. */
  ghost predicate NoRoom(files: seq<Entry>, l: Limits, docs: seq<Doc>, env: PutEnv, d: nat)
    requires d <= |files|
  {
    env.free.Some? && env.free.value + SizeSum(files[d..]) < |Body(docs)| + l.minFree
  }

  lemma OneLeadingOld(files: seq<Entry>, l: Limits, now: Time, d: nat, e: nat)
    requires LeadingOld(files, l, now, d) && LeadingOld(files, l, now, e)
    ensures d == e
  {
    hide TooOld;
  }

  /** Put's result in sizes: low disk exactly when there is no room, and then nothing is left queued; otherwise stored or a
      write error as the write goes. */
  lemma PutResult(s: State, l: Limits, docs: seq<Doc>, env: PutEnv, d: nat)
    requires LeadingOld(s.files, l, env.expireAt, d)
    ensures var (s', r) := AfterPut(s, l, docs, env);
      && (r == LowDisk <==> NoRoom(s.files, l, docs, env, d))
      && (r == Stored <==> !NoRoom(s.files, l, docs, env, d) && env.writeOk)
      && (r == WriteError <==> !NoRoom(s.files, l, docs, env, d) && !env.writeOk)
      && (r == LowDisk ==> s'.files == [] && s'.puts == s.puts)
      && (r != LowDisk ==> s'.puts == s.puts + 1)
  {
    hide Body, DropsPrefix, Expired, RoomFor, Enforced, Appended, TooOld;
    var young, need := Expired(s, l, env.expireAt), |Body(docs)| + l.minFree;
    var a := ExpireGivesUp(s, l, env.expireAt);
    OneLeadingOld(s.files, l, env.expireAt, d, a);
    PrefixFits(s, young, a, Age);
    SamePutsAfter(s, young, a, Age);
    if env.free.Some? {
      var room := RoomFor(young, env.free.value, need);
      var b := RoomShortest(young, env.free.value, need);
      PrefixFits(young, room.0, b, Disk);
      SamePutsAfter(young, room.0, b, Disk);
      SizeSumTwoParts(young.files[..b], young.files[b..]);
      assert young.files[..b] + young.files[b..] == young.files;
    }
    var (s', r) := AfterPut(s, l, docs, env);
    if r == Stored {
      var room := if env.free.None? then young else RoomFor(young, env.free.value, need).0;
      var appended := Appended(room.(puts := room.puts + 1), docs, env);
      var c := EnforceShortest(appended, l.max);
      SamePutsAfter(appended, s', c, Size);
      AppendedPuts(room.(puts := room.puts + 1), docs, env);
    }
  }

  lemma AppendedPuts(s: State, docs: seq<Doc>, env: PutEnv)
    ensures Appended(s, docs, env).puts == s.puts
  {
    hide PutName, Body;
  }

  /** The entry of a stored batch: its name, its size in bytes, its count, and the time it was born at. */
  ghost predicate EntryOfPut(e: Entry, number: nat, docs: seq<Doc>, env: PutEnv) {
    e.name == PutName(env.nameAt, number, |docs|) && e.size == |Body(docs)| && e.n == |docs| && e.born == env.bornAt
  }

  /** The index after a Put that lost d batches: the others as they were, ages included, and the new one last when stored. */
  ghost predicate IndexAfterPut(s: State, s': State, docs: seq<Doc>, env: PutEnv, stored: bool, d: nat) {
    && d <= |s.files|
    && if stored then
         |s'.files| == |s.files| - d + 1 && s'.files[..|s.files| - d] == s.files[d..]
         && EntryOfPut(s'.files[|s.files| - d], s.puts + 1, docs, env)
       else s'.files == s.files[d..]
  }

  // ---- Put -----------------------------------------------------------------------------------------

  /** The reports of a Put: a batches for their age, then b for room on the disk, then c for the size cap, all from the
      front. */
  ghost predicate PutReports(s: State, s': State, a: nat, b: nat, c: nat) {
    && a + b + c <= |s.files|
    && s'.drops == s.drops + DropsOf(s.files[..a], Age) + DropsOf(s.files[a..a + b], Disk)
                   + DropsOf(s.files[a + b..a + b + c], Size)
  }

  /** The queue after a Put that lost d batches: the new one last when it was stored. */
  ghost predicate PutLeaves(q: seq<Item>, q': seq<Item>, it: Item, stored: bool, d: nat) {
    d <= |q| && q' == if stored then q[d..] + [it] else q[d..]
  }

  lemma RoomReports(s: State, l: Limits, docs: seq<Doc>, env: PutEnv, t: nat) returns (room: State, a: nat, b: nat)
    requires Indexed(s) && Named(s, t)
    ensures var young := Expired(s, l, env.expireAt);
            room == if env.free.None? then young else RoomFor(young, env.free.value, |Body(docs)| + l.minFree).0
    ensures Indexed(room) && Named(room, t) && room.puts == s.puts
    ensures a + b <= |s.files| && room.files == s.files[a + b..] && Items(room) == Items(s)[a + b..]
    ensures PutReports(s, room, a, b, 0)
    ensures forall i :: 0 <= i < a ==> TooOld(l, s.files[i], env.expireAt)
    ensures env.free.None? ==> b == 0
  {
    hide Indexed, Named, Items, Body, DropsPrefix, Expired, RoomFor, Loses, PutReports, TooOld;
    var young := Expired(s, l, env.expireAt);
    a := ExpireGivesUp(s, l, env.expireAt);
    DropKeeps(s, young, a, Age, t);
    room, b := young, 0;
    if env.free.Some? {
      var need := |Body(docs)| + l.minFree;
      room := RoomFor(young, env.free.value, need).0;
      b := RoomShortest(young, env.free.value, need);
    } else {
      DropsNothing(young, Disk);
    }
    DropKeeps(young, room, b, Disk, t);
    TwoReports(s, young, room, a, b);
    ItemsLength(s);
    ItemsLength(young);
    ItemsLength(room);
    LosesTwice(Items(s), Items(young), Items(room), a, b);
    LosesIs(Items(s), Items(room), a + b);
  }

  lemma LosesIs(q: seq<Item>, r: seq<Item>, d: nat)
    requires Loses(q, r, d)
    ensures d <= |q| && r == q[d..]
  {}

  lemma TwoReports(s: State, young: State, room: State, a: nat, b: nat)
    requires DropsPrefix(s, young, a, Age) && DropsPrefix(young, room, b, Disk)
    ensures a + b <= |s.files| && room.files == s.files[a + b..] && PutReports(s, room, a, b, 0)
  {
    hide DropsOf, SizeSum, NamesOf;
    assert s.files[a..][..b] == s.files[a..a + b] && s.files[a..][b..] == s.files[a + b..];
    assert s.files[a + b..a + b + 0] == [];
    NoReports(Size);
  }

  /** Put's losses are reported, each for its reason, and count exactly the documents that left the queue. */
  lemma PutGivesUp(s: State, l: Limits, docs: seq<Doc>, env: PutEnv, t: nat) returns (a: nat, b: nat, c: nat)
    requires Indexed(s) && Named(s, t) && t <= env.nameAt < INT64_LIMIT && s.puts + 1 < SEQ_LIMIT
    ensures var (s', r) := AfterPut(s, l, docs, env);
            var it := Item(StemOf(Key(env.nameAt, s.puts + 1, "")), docs);
      && AllBacked(s) && AllBacked(s')
      && PutReports(s, s', a, b, c) && PutLeaves(Items(s), Items(s'), it, r == Stored, a + b + c)
      && IndexAfterPut(s, s', docs, env, r == Stored, a + b + c)
      && DropSum(s'.drops) == DropSum(s.drops) + |DocsOf(Items(s)[..a + b + c])|
      && (forall i :: 0 <= i < a ==> TooOld(l, s.files[i], env.expireAt))
      && (env.free.None? ==> b == 0) && (r != Stored ==> c == 0)
  {
    hide Indexed, Named, Items, Body, StemOf, Expired, RoomFor, Appended, Enforced, PutReports, TooOld, DropSum, DocsOf, EntryOfPut;
    var (s', r) := AfterPut(s, l, docs, env);
    var it := Item(StemOf(Key(env.nameAt, s.puts + 1, "")), docs);
    var room: State;
    room, a, b := RoomReports(s, l, docs, env, t);
    c := 0;
    ItemsLength(s);
    ItemsLength(room);
    if r != Stored {
      CountedSame(room, s');
      SameReports(s, room, s', a, b);
    } else {
      c := StoreReports(s, room, l, docs, env, t, a, b, s');
    }
    ReportsCount(s, s', a, b, c);
  }

  lemma SameReports(s: State, room: State, s': State, a: nat, b: nat)
    requires PutReports(s, room, a, b, 0) && s'.drops == room.drops
    ensures PutReports(s, s', a, b, 0)
  {}

  lemma StoreReports(s: State, room: State, l: Limits, docs: seq<Doc>, env: PutEnv, t: nat, a: nat, b: nat, s': State) returns (c: nat)
    requires Indexed(s) && Indexed(room) && Named(room, t) && room.puts == s.puts && PutReports(s, room, a, b, 0)
    requires a + b <= |s.files| && room.files == s.files[a + b..] && AllBacked(s) && AllBacked(room) && Items(room) == Items(s)[a + b..]
    requires t <= env.nameAt < INT64_LIMIT && s.puts + 1 < SEQ_LIMIT
    requires s' == Enforced(Appended(room.(puts := room.puts + 1), docs, env), l.max)
    ensures AllBacked(s') && PutReports(s, s', a, b, c)
    ensures PutLeaves(Items(s), Items(s'), Item(StemOf(Key(env.nameAt, s.puts + 1, "")), docs), true, a + b + c)
    ensures IndexAfterPut(s, s', docs, env, true, a + b + c)
  {
    hide Indexed, Named, Items, Body, StemOf, PutName, Enforced, PutReports, DropsPrefix, DropsOf, Loses;
    var counted := room.(puts := room.puts + 1);
    var appended := Appended(counted, docs, env);
    AppendKeeps(room, counted, docs, env, t);
    c := EnforceShortest(appended, l.max);
    DropKeeps(appended, s', c, Size, env.nameAt);
    ItemsLength(s);
    ItemsLength(room);
    ItemsLength(appended);
    ItemsLength(s');
    ThirdReport(s, room, appended, s', a, b, c);
    LosesIs(Items(appended), Items(s'), c);
    LastStays(Items(s), Items(s'), Item(StemOf(Key(env.nameAt, s.puts + 1, "")), docs), a + b, c);
    PrefixFits(appended, s', c, Size);
    IndexStays(s, room, docs, env, a + b, c, s');
  }

  lemma IndexStays(s: State, room: State, docs: seq<Doc>, env: PutEnv, d: nat, c: nat, s': State)
    requires d <= |s.files| && room.files == s.files[d..] && room.puts == s.puts && c <= |room.files|
    requires s'.files == Appended(room.(puts := room.puts + 1), docs, env).files[c..]
    ensures IndexAfterPut(s, s', docs, env, true, d + c)
  {
    hide PutName, Body;
    var e := Entry(PutName(env.nameAt, s.puts + 1, |docs|), |Body(docs)|, |docs|, env.bornAt);
    assert s'.files == (s.files[d..] + [e])[c..];
    assert s.files[d..][c..] == s.files[d + c..];
  }

  lemma LastStays(q: seq<Item>, r: seq<Item>, it: Item, d: nat, c: nat)
    requires d <= |q| && c <= |q| - d && r == (q[d..] + [it])[c..]
    ensures r == q[d + c..] + [it]
  {
    assert q[d..][c..] == q[d + c..];
  }

  lemma ThirdReport(s: State, room: State, appended: State, s': State, a: nat, b: nat, c: nat)
    requires PutReports(s, room, a, b, 0) && room.files == s.files[a + b..] && appended.drops == room.drops
    requires DropsPrefix(appended, s', c, Size) && c <= |room.files| && |appended.files| == |room.files| + 1
    requires appended.files[..|room.files|] == room.files
    ensures PutReports(s, s', a, b, c)
  {
    hide DropsOf, SizeSum, NamesOf;
    assert appended.files[..c] == room.files[..c] == s.files[a + b..a + b + c];
    assert s.files[a + b..a + b + 0] == [];
    NoReports(Size);
  }

  lemma ReportsCount(s: State, s': State, a: nat, b: nat, c: nat)
    requires Indexed(s) && AllBacked(s) && PutReports(s, s', a, b, c)
    ensures a + b + c <= |Items(s)| && DropSum(s'.drops) == DropSum(s.drops) + |DocsOf(Items(s)[..a + b + c])|
  {
    hide Indexed, Items, DropSum, DocsOf, DropsOf;
    ItemsLength(s);
    StretchCounts(s, 0, a, Age);
    StretchCounts(s, a, a + b, Disk);
    StretchCounts(s, a + b, a + b + c, Size);
    assert s.files[0..a] == s.files[..a];
    var x, y, z := DropsOf(s.files[..a], Age), DropsOf(s.files[a..a + b], Disk), DropsOf(s.files[a + b..a + b + c], Size);
    DropSumTwoParts(s.drops + x + y, z);
    DropSumTwoParts(s.drops + x, y);
    DropSumTwoParts(s.drops, x);
    ThreeStretches(Items(s), a, b, c);
  }

  lemma ThreeStretches(q: seq<Item>, a: nat, b: nat, c: nat)
    requires a + b + c <= |q|
    ensures |DocsOf(q[..a + b + c])| == |DocsOf(q[0..a])| + |DocsOf(q[a..a + b])| + |DocsOf(q[a + b..a + b + c])|
  {
    hide DocsOf;
    assert q[..a + b + c] == q[0..a] + q[a..a + b] + q[a + b..a + b + c];
    DocsOfTwoParts(q[0..a] + q[a..a + b], q[a + b..a + b + c]);
    DocsOfTwoParts(q[0..a], q[a..a + b]);
  }

  lemma TwoStretches(q: seq<Item>, a: nat, b: nat)
    requires a + b <= |q|
    ensures |DocsOf(q[..a + b])| == |DocsOf(q[0..a])| + |DocsOf(q[a..a + b])|
  {
    hide DocsOf;
    assert q[..a + b] == q[0..a] + q[a..a + b];
    DocsOfTwoParts(q[0..a], q[a..a + b]);
  }

  // ---- Oldest --------------------------------------------------------------------------------------

  /** Oldest's losses are reported, as too old or corrupt, and count exactly the documents that left the queue. */
  lemma OldestReports(s: State, s': State, l: Limits, now: Time, readable: string -> bool, a: nat, b: nat)
    requires Indexed(s) && AllBacked(s) && GivesUp(s, s', l, now, readable, a, b)
    ensures a + b <= |Items(s)| && DropSum(s'.drops) == DropSum(s.drops) + |DocsOf(Items(s)[..a + b])|
  {
    hide Indexed, Items, DropSum, DocsOf, DropsOf, TooOld;
    ItemsLength(s);
    StretchCounts(s, 0, a, Age);
    StretchCounts(s, a, a + b, Corrupt);
    assert s.files[0..a] == s.files[..a];
    var x, y := DropsOf(s.files[..a], Age), DropsOf(s.files[a..a + b], Corrupt);
    DropSumTwoParts(s.drops + x, y);
    DropSumTwoParts(s.drops, x);
    TwoStretches(Items(s), a, b);
  }
}
