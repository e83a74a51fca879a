/** Over any run of the spool, restarts included, the sorted directory is the queue
    (internal/exporters/loom/spool.go). */
module LoomRestart {
  import opened Options
  import opened LoomNames
  import opened LoomQueues
  import opened LoomSpool
  import opened LoomSpoolLaws
  import opened LoomSpoolOps
  import opened LoomReopen

  /** The directory holds exactly the indexed files, and counts fit an int. */
  ghost predicate Tidy(s: State) {
    s.disk.Keys == NamesOf(s.files) && forall i :: 0 <= i < |s.files| ==> s.files[i].n < INT64_LIMIT
  }

  ghost predicate RunInv(s: State, t: nat) {
    Indexed(s) && Named(s, t) && Tidy(s)
  }

  // ---- reopening ------------------------------------------------------------------------------

  /** s' is a spool opened on the directory of s. */
  ghost predicate Restarted(s: State, s': State) {
    && Lists(s'.files, s.disk) && Sorted(s'.files)
    && s'.total == SizeSum(s'.files) && s'.puts == 0 && s'.drops == []
    && s'.disk == WithoutTemporary(s.disk, {})
  }

  lemma SpoolNameReads(e: Entry, t: nat, number: nat) returns (k: Key)
    requires NamedBefore(e, t, number) && e.n < INT64_LIMIT
    ensures KeyedBy(e, k) && Earlier(k, t, number)
    ensures IsSpoolFile(e.name) && ParseName(e.name) == Some(Parsed(k.nanos, e.n))
  {
    hide ParseName, StemOf;
    k :| KeyedBy(e, k) && Earlier(k, t, number);
    NameReadsBack(k, e.n);
    NotTemporary(e.name);
  }

  lemma NotTemporary(s: string)
    requires |s| > 0 && s[|s| - 1] == 'n'
    ensures !HasSuffix(s, ".tmp")
  {
    if |s| >= 4 {
      assert s[|s| - 4..][3] == s[|s| - 1];
    }
  }

  /** An entry as it comes back: all as before, born at the time its name carries. */
  function Reborn(e: Entry): Entry {
    e.(born := if ParseName(e.name).Some? then ParseName(e.name).value.nanos else e.born)
  }

  function RebornAll(files: seq<Entry>): (r: seq<Entry>)
    ensures |r| == |files| && forall i :: 0 <= i < |r| ==> r[i] == Reborn(files[i])
  {
    seq(|files|, i requires 0 <= i < |files| => Reborn(files[i]))
  }

  lemma RebornEntry(s: State, t: nat, i: nat)
    requires RunInv(s, t) && i < |s.files|
    ensures var e := s.files[i];
            e.name in s.disk && IsSpoolFile(e.name) && EntryOf(e.name, s.disk[e.name]) == Reborn(e)
  {
    hide ParseName, Body, IsSpoolFile;
    assert Backed(s.disk, s.files[i]);
    NamedAt(s, t, i);
    var k := SpoolNameReads(s.files[i], t, s.puts + 1);
  }

  lemma RebornSorted(s: State, t: nat)
    requires RunInv(s, t)
    ensures Sorted(RebornAll(s.files))
  {
    hide Less, ParseName, NamedBefore;
    forall i, j | 0 <= i < j < |s.files| ensures Less(s.files[i].name, s.files[j].name) {
      NamedAt(s, t, i);
      NamedAt(s, t, j);
      NamesInOrder(s.files[i], s.files[j], t, s.puts + 1);
    }
  }

  lemma NamesInOrder(e: Entry, f: Entry, t: nat, number: nat)
    requires NamedBefore(e, t, number) && NamedBefore(f, t, number) && Diverges(Stem(e.name), Stem(f.name))
    ensures Less(e.name, f.name)
  {
    hide Less, StemOf, NameOf, Stem, Diverges;
    var k :| KeyedBy(e, k) && Earlier(k, t, number);
    var l :| KeyedBy(f, l) && Earlier(l, t, number);
    StemOfName(StemOf(k), e.n);
    StemOfName(StemOf(l), f.n);
    NamesSortLikeStems(StemOf(k), StemOf(l), e.n, f.n);
  }

  lemma FoundIsReborn(s: State, t: nat, files: seq<Entry>, e: Entry)
    requires RunInv(s, t) && Lists(files, s.disk) && e in files
    ensures e in RebornAll(s.files)
  {
    hide ParseName, IsSpoolFile, EntryOf, Indexed, Named;
    var i :| 0 <= i < |files| && files[i] == e;
    assert e.name in NamesOf(s.files);
    var f :| f in s.files && f.name == e.name;
    var j :| 0 <= j < |s.files| && s.files[j] == f;
    RebornEntry(s, t, j);
    assert RebornAll(s.files)[j] == e;
  }

  lemma RebornIsFound(s: State, t: nat, files: seq<Entry>, e: Entry)
    requires RunInv(s, t) && Lists(files, s.disk) && e in RebornAll(s.files)
    ensures e in files
  {
    hide ParseName, IsSpoolFile, EntryOf, Indexed, Named;
    var j :| 0 <= j < |s.files| && RebornAll(s.files)[j] == e;
    RebornEntry(s, t, j);
    var i :| 0 <= i < |files| && files[i].name == s.files[j].name;
    assert files[i] == e;
  }

  /** Sorting the names found in the directory gives the entries of the index in the order of the queue. */
  lemma ReopenedFiles(s: State, t: nat, files: seq<Entry>)
    requires RunInv(s, t) && Lists(files, s.disk) && Sorted(files)
    ensures files == RebornAll(s.files)
  {
    hide Sorted, RunInv, Lists, RebornAll;
    RebornSorted(s, t);
    forall e ensures e in files <==> e in RebornAll(s.files) {
      if e in files {
        FoundIsReborn(s, t, files, e);
      }
      if e in RebornAll(s.files) {
        RebornIsFound(s, t, files, e);
      }
    }
    SortedUnique(files, RebornAll(s.files));
  }

  lemma NoTemporary(s: State, t: nat)
    requires RunInv(s, t)
    ensures WithoutTemporary(s.disk, {}) == s.disk
  {
    hide HasSuffix, Indexed, Named, ParseName;
    forall name | name in s.disk ensures !HasSuffix(name, ".tmp") {
      assert name in NamesOf(s.files);
      var f :| f in s.files && f.name == name;
      var j :| 0 <= j < |s.files| && s.files[j] == f;
      RebornEntry(s, t, j);
    }
  }

  lemma RebornNamed(s: State, s': State, t: nat, at: nat)
    requires Named(s, t) && s'.files == RebornAll(s.files) && t < at
    ensures Named(s', at)
  {
    hide Diverges, Stem, ParseName;
    forall i | 0 <= i < |s'.files| ensures NamedBefore(s'.files[i], at, s'.puts + 1) {
      assert NamedBefore(s.files[i], t, s.puts + 1);
      var k :| KeyedBy(s.files[i], k) && Earlier(k, t, s.puts + 1);
      assert KeyedBy(s'.files[i], k) && Earlier(k, at, s'.puts + 1);
    }
  }

  lemma RebornIndexed(s: State, s': State)
    requires Indexed(s) && s'.files == RebornAll(s.files) && s'.disk == s.disk && s'.total == SizeSum(s'.files)
    ensures Indexed(s') && Items(s') == Items(s)
  {
    hide Stem, Body, SizeSum, ParseName;
    forall i | 0 <= i < |s'.files| ensures Backed(s'.disk, s'.files[i]) {
      assert Backed(s.disk, s.files[i]);
    }
    assert Items(s') == Items(s);
  }

  /** A restart at a later clock reading finds the same queue, in the same order, and is itself in order. */
  lemma RestartKeeps(s: State, s': State, t: nat, at: nat)
    requires RunInv(s, t) && Restarted(s, s') && t < at
    ensures RunInv(s', at) && Items(s') == Items(s)
  {
    hide Indexed, Named, Lists, Sorted, WithoutTemporary, Items, Reborn, SizeSum;
    ReopenedFiles(s, t, s'.files);
    NoTemporary(s, t);
    RebornNamed(s, s', t, at);
    RebornIndexed(s, s');
    RebornTidy(s, s');
  }

  lemma RebornTidy(s: State, s': State)
    requires Tidy(s) && s'.files == RebornAll(s.files) && s'.disk == s.disk
    ensures Tidy(s')
  {
    hide ParseName;
    forall name ensures name in NamesOf(s.files) <==> name in NamesOf(s'.files) {
      if name in NamesOf(s.files) {
        var f :| f in s.files && f.name == name;
        var j :| 0 <= j < |s.files| && s.files[j] == f;
        assert s'.files[j].name == name;
      }
      if name in NamesOf(s'.files) {
        var f :| f in s'.files && f.name == name;
        var j :| 0 <= j < |s'.files| && s'.files[j] == f;
        assert s.files[j].name == name;
      }
    }
    assert NamesOf(s'.files) == NamesOf(s.files);
  }

  // ---- runs -------------------------------------------------------------------------------------

  datatype Op =
    | DoPut(putDocs: seq<Doc>, env: PutEnv)
    | DoOldest(now: Time, readable: string -> bool)
    | DoRemove(name: string)
    | DoSplit(splitName: string, splitDocs: seq<Doc>, okA: bool, okB: bool)
    | DoRestart(at: nat)

  /** One operation from clock reading t on: the clock does not go back, is strictly later across a restart,
      numbers stay below a million in one run, and a split is of the body on disk. */
  ghost predicate Performs(l: Limits, s: State, t: nat, op: Op, s': State, t': nat) {
    match op
    case DoPut(docs, env) =>
      && t <= env.nameAt < INT64_LIMIT && s.puts + 1 < SEQ_LIMIT && |docs| < INT64_LIMIT
      && s' == AfterPut(s, l, docs, env).0 && t' == env.nameAt
    case DoOldest(now, readable) => s' == AfterOldest(s, l, now, readable).0 && t' == t
    case DoRemove(name) => s' == AfterRemove(s, name, true).0 && t' == t
    case DoSplit(name, docs, okA, okB) =>
      && AllBacked(s) && HoldsBody(s, name, docs)
      && s' == AfterSplit(s, name, docs, okA, okB).0 && t' == t
    case DoRestart(at) => t < at && t' == at && Restarted(s, s')
  }

  lemma NamesTwoParts(x: seq<Entry>, y: seq<Entry>)
    ensures NamesOf(x + y) == NamesOf(x) + NamesOf(y)
  {
    forall name ensures name in NamesOf(x + y) <==> name in NamesOf(x) + NamesOf(y) {
      assert forall e :: e in x + y <==> e in x || e in y;
    }
  }

  lemma NamesApart(x: seq<Entry>, y: seq<Entry>)
    requires DistinctNames(x + y)
    ensures NamesOf(x) !! NamesOf(y)
  {
    forall name | name in NamesOf(x) ensures name !in NamesOf(y) {
      var e :| e in x && e.name == name;
      var i :| 0 <= i < |x| && x[i] == e;
      forall j | 0 <= j < |y| ensures y[j].name != name {
        assert (x + y)[i] == x[i] && (x + y)[|x| + j] == y[j];
      }
    }
  }

  lemma TidyDrop(s: State, s': State, d: nat, reason: Reason)
    requires DistinctNames(s.files) && Tidy(s) && DropsPrefix(s, s', d, reason)
    ensures Tidy(s')
  {
    var x, y := s.files[..d], s.files[d..];
    assert s.files == x + y;
    NamesTwoParts(x, y);
    NamesApart(x, y);
    hide NamesOf, SizeSum, DropsOf;
    assert (s.disk - NamesOf(x)).Keys == s.disk.Keys - NamesOf(x);
  }

  lemma DropRun(s: State, s': State, d: nat, reason: Reason, t: nat)
    requires RunInv(s, t) && DropsPrefix(s, s', d, reason)
    ensures RunInv(s', t) && s'.puts == s.puts
  {
    hide Indexed, Named, Tidy, DropsPrefix;
    NamedDistinct(s, t);
    TidyDrop(s, s', d, reason);
    DropKeeps(s, s', d, reason, t);
  }

  lemma ExpireRun(s: State, l: Limits, now: Time, t: nat)
    requires RunInv(s, t)
    ensures RunInv(Expired(s, l, now), t) && Expired(s, l, now).puts == s.puts
  {
    hide RunInv, DropsPrefix;
    var d: nat := 0;
    if l.maxAge > 0 {
      d := ExpireShortest(s, now - l.maxAge);
    } else {
      DropsNothing(s, Age);
    }
    DropRun(s, Expired(s, l, now), d, Age, t);
  }

  lemma TidyAppend(s: State, s': State, e: Entry, docs: seq<Doc>)
    requires Tidy(s) && s'.files == s.files + [e] && s'.disk == s.disk[e.name := Whole(docs)] && e.n < INT64_LIMIT
    ensures Tidy(s')
  {
    NamesTwoParts(s.files, [e]);
    assert NamesOf([e]) == {e.name};
  }

  lemma RoomRun(s: State, free: Option<nat>, need: nat, t: nat)
    requires RunInv(s, t)
    ensures var room := if free.None? then s else RoomFor(s, free.value, need).0;
            RunInv(room, t) && room.puts == s.puts
  {
    hide RunInv, DropsPrefix, RoomFor;
    if free.Some? {
      var d := RoomShortest(s, free.value, need);
      DropRun(s, RoomFor(s, free.value, need).0, d, Disk, t);
    }
  }

  lemma StoreTidy(room: State, l: Limits, docs: seq<Doc>, env: PutEnv, t: nat)
    requires RunInv(room, t) && t <= env.nameAt < INT64_LIMIT && room.puts + 1 < SEQ_LIMIT && |docs| < INT64_LIMIT
    ensures Tidy(Enforced(Appended(room.(puts := room.puts + 1), docs, env), l.max))
  {
    hide Tidy, DropsPrefix, Enforced, Appended, Indexed, Named;
    var counted := room.(puts := room.puts + 1);
    var appended := Appended(counted, docs, env);
    TidySame(room, counted);
    AppendedTidy(counted, docs, env);
    AppendKeeps(room, counted, docs, env, t);
    NamedDistinct(appended, env.nameAt);
    var d := EnforceShortest(appended, l.max);
    TidyDrop(appended, Enforced(appended, l.max), d, Size);
  }

  lemma PutRun(s: State, l: Limits, docs: seq<Doc>, env: PutEnv, t: nat)
    requires RunInv(s, t) && t <= env.nameAt < INT64_LIMIT && s.puts + 1 < SEQ_LIMIT && |docs| < INT64_LIMIT
    ensures RunInv(AfterPut(s, l, docs, env).0, env.nameAt)
  {
    hide Tidy, Expired, RoomFor, Enforced, Appended, Body, Indexed, Named, StoresLast, LosesPrefix;
    PutKeeps(s, l, docs, env, t);
    var young, need := Expired(s, l, env.expireAt), |Body(docs)| + l.minFree;
    ExpireRun(s, l, env.expireAt, t);
    RoomRun(young, env.free, need, t);
    var room := if env.free.None? then young else RoomFor(young, env.free.value, need).0;
    TidySame(room, room.(puts := room.puts + 1));
    StoreTidy(room, l, docs, env, t);
  }

  lemma AppendedTidy(s: State, docs: seq<Doc>, env: PutEnv)
    requires Tidy(s) && |docs| < INT64_LIMIT
    ensures Tidy(Appended(s, docs, env))
  {
    hide Tidy, NameOf, StemOf, Body;
    var e := Entry(PutName(env.nameAt, s.puts, |docs|), |Body(docs)|, |docs|, env.bornAt);
    TidyAppend(s, Appended(s, docs, env), e, docs);
  }

  lemma TidySame(s: State, s': State)
    requires Tidy(s) && s'.files == s.files && s'.disk == s.disk
    ensures Tidy(s')
  {}

  lemma OldestRun(s: State, l: Limits, now: Time, readable: string -> bool, t: nat)
    requires RunInv(s, t)
    ensures RunInv(AfterOldest(s, l, now, readable).0, t)
  {
    hide RunInv, DropsPrefix, Expired, SkipCorrupt;
    ExpireRun(s, l, now, t);
    var young := Expired(s, l, now);
    var d := SkipsPrefix(young, readable);
    DropRun(young, SkipCorrupt(young, readable), d, Corrupt, t);
  }

  lemma SoleInIndex(s: State, t: nat, name: string)
    requires Named(s, t) && Find(s.files, name) < |s.files|
    ensures SoleStem(s.files, name)
  {
    hide Stem, NamedBefore;
    NamedIsDistinct(s.files);
    var i := Find(s.files, name);
    forall j | 0 <= j < |s.files| && Stem(s.files[j].name) == Stem(name) ensures s.files[j].name == name {
      assert Stem(s.files[j].name) == Stem(s.files[i].name);
    }
  }

  lemma NamesOfOne(e: Entry)
    ensures NamesOf([e]) == {e.name}
  {}

  lemma ReplaceNames(files: seq<Entry>, i: nat, mid: seq<Entry>)
    requires i < |files| && DistinctNames(files) && files[i].name !in NamesOf(mid)
    ensures NamesOf(Replace(files, i, mid)) == NamesOf(files) + NamesOf(mid) - {files[i].name}
  {
    var x, y, e := files[..i], files[i + 1..], files[i];
    assert files == x + ([e] + y) && files == (x + [e]) + y;
    hide NamesOf;
    NamesTwoParts(x, [e] + y);
    NamesTwoParts([e], y);
    NamesTwoParts(x + mid, y);
    NamesTwoParts(x, mid);
    NamesTwoParts(x, [e]);
    NamesApart(x, [e] + y);
    NamesApart(x + [e], y);
    NamesOfOne(e);
  }

  /** The directory after entry i gave way to `mid`. */
  lemma TidyReplace(s: State, s': State, i: nat, mid: seq<Entry>)
    requires Tidy(s) && i < |s.files| && DistinctNames(s.files)
    requires s'.files == Replace(s.files, i, mid) && s'.disk.Keys == s.disk.Keys + NamesOf(mid) - {s.files[i].name}
    requires forall m :: 0 <= m < |mid| ==> mid[m].n < INT64_LIMIT && mid[m].name != s.files[i].name
    ensures Tidy(s')
  {
    assert s.files[i].name !in NamesOf(mid);
    hide NamesOf;
    ReplaceNames(s.files, i, mid);
    forall j | 0 <= j < |s'.files| ensures s'.files[j].n < INT64_LIMIT {
      assert s'.files[j] == if j < i then s.files[j] else if j < i + |mid| then mid[j - i] else s.files[j - |mid| + 1];
    }
  }

  lemma RemoveRun(s: State, name: string, t: nat)
    requires RunInv(s, t)
    ensures RunInv(AfterRemove(s, name, true).0, t)
  {
    var i := Find(s.files, name);
    hide Indexed, Named, Tidy, SoleStem, Stem;
    if i < |s.files| {
      var s' := AfterRemove(s, name, true).0;
      SoleInIndex(s, t, name);
      RemoveKeeps(s, name, true, t);
      NamedDistinct(s, t);
      RemovedDirectory(s, s', i);
    }
  }

  lemma RemovedDirectory(s: State, s': State, i: nat)
    requires Tidy(s) && i < |s.files| && DistinctNames(s.files)
    requires s'.files == s.files[..i] + s.files[i + 1..] && s'.disk == s.disk - {s.files[i].name}
    ensures Tidy(s')
  {
    assert Replace(s.files, i, []) == s'.files;
    assert s'.disk.Keys == s.disk.Keys - {s.files[i].name};
    assert NamesOf([]) == {};
    hide Tidy, DistinctNames, NamesOf;
    TidyReplace(s, s', i, []);
  }

  lemma SplitDirectory(s: State, s': State, i: nat, a: Entry, b: Entry, x: seq<Doc>, y: seq<Doc>)
    requires Tidy(s) && i < |s.files| && DistinctNames(s.files) && a.n < INT64_LIMIT && b.n < INT64_LIMIT
    requires a.name != s.files[i].name && b.name != s.files[i].name
    requires s'.files == s.files[..i] + [a, b] + s.files[i + 1..]
    requires s'.disk == s.disk[a.name := Whole(x)][b.name := Whole(y)] - {s.files[i].name}
    ensures Tidy(s')
  {
    assert NamesOf([a, b]) == {a.name, b.name};
    assert s'.disk.Keys == s.disk.Keys + {a.name, b.name} - {s.files[i].name};
    hide Tidy, DistinctNames, NamesOf;
    TidyReplace(s, s', i, [a, b]);
  }

  lemma SplitRun(s: State, name: string, docs: seq<Doc>, okA: bool, okB: bool, t: nat)
    requires RunInv(s, t) && HoldsBody(s, name, docs)
    ensures RunInv(AfterSplit(s, name, docs, okA, okB).0, t)
  {
    var i := Find(s.files, name);
    hide Indexed, Named, Tidy, Stem, HalfName, Body, NamedBefore, HoldsBody, SoleStem;
    if i < |s.files| && |docs| >= 2 {
      SoleInIndex(s, t, name);
      SplitKeeps(s, name, docs, okA, okB, t);
      SplitTidy(s, name, docs, okA, okB, t, i);
    }
  }

  lemma SplitTidy(s: State, name: string, docs: seq<Doc>, okA: bool, okB: bool, t: nat, i: nat)
    requires RunInv(s, t) && HoldsBody(s, name, docs) && |docs| >= 2 && i == Find(s.files, name) < |s.files|
    ensures Tidy(AfterSplit(s, name, docs, okA, okB).0)
  {
    hide Indexed, Named, Tidy, Stem, HalfName, Body, NamedBefore, HoldsBody;
    var s', e := AfterSplit(s, name, docs, okA, okB).0, s.files[i];
    NamedDistinct(s, t);
    NamedAt(s, t, i);
    HalfKeyed(e, 'a', FirstHalf(docs), t, s.puts + 1);
    HalfKeyed(e, 'b', SecondHalf(docs), t, s.puts + 1);
    var a, b := HalfEntry(name, 'a', FirstHalf(docs), e.born), HalfEntry(name, 'b', SecondHalf(docs), e.born);
    HalvesAreNew(s, i, a, b, t);
    SplitCounts(s, i, docs, t);
    if okA && okB {
      SplitDirectory(s, s', i, a, b, FirstHalf(docs), SecondHalf(docs));
    } else if okA {
      SameDirectory(s, s', a.name, Whole(FirstHalf(docs)));
    }
  }

  lemma SplitCounts(s: State, i: nat, docs: seq<Doc>, t: nat)
    requires RunInv(s, t) && i < |s.files| && HoldsBody(s, s.files[i].name, docs)
    ensures |FirstHalf(docs)| < INT64_LIMIT && |SecondHalf(docs)| < INT64_LIMIT
  {
    assert Backed(s.disk, s.files[i]);
  }

  lemma SameDirectory(s: State, s': State, name: string, c: Content)
    requires Tidy(s) && s'.files == s.files && forall j :: 0 <= j < |s.files| ==> s.files[j].name != name
    requires s'.disk == s.disk[name := c] - {name}
    ensures Tidy(s')
  {
    assert name !in NamesOf(s.files);
    assert s'.disk.Keys == s.disk.Keys;
  }

  lemma StepKeeps(l: Limits, s: State, t: nat, op: Op, s': State, t': nat)
    requires RunInv(s, t) && Performs(l, s, t, op, s', t')
    ensures RunInv(s', t')
  {
    hide RunInv, AfterPut, AfterOldest, AfterRemove, AfterSplit, Restarted, HoldsBody;
    match op
    case DoPut(docs, env) => PutRun(s, l, docs, env, t);
    case DoOldest(now, readable) => OldestRun(s, l, now, readable, t);
    case DoRemove(name) => RemoveRun(s, name, t);
    case DoSplit(name, docs, okA, okB) => SplitRun(s, name, docs, okA, okB, t);
    case DoRestart(at) => RestartKeeps(s, s', t, at);
  }

  /** States and clock readings of a run from an empty spool. */
  ghost predicate IsRun(l: Limits, ss: seq<State>, ts: seq<nat>, ops: seq<Op>) {
    && |ss| == |ts| == |ops| + 1
    && ss[0] == State([], 0, 0, map[], [])
    && forall i :: 0 <= i < |ops| ==> Performs(l, ss[i], ts[i], ops[i], ss[i + 1], ts[i + 1])
  }

  lemma {:induction false} RunKeeps(l: Limits, ss: seq<State>, ts: seq<nat>, ops: seq<Op>, i: nat)
    requires IsRun(l, ss, ts, ops) && i <= |ops|
    ensures RunInv(ss[i], ts[i])
  {
    hide RunInv, Performs;
    if i == 0 {
      EmptySpool(ts[0]);
    } else {
      RunKeeps(l, ss, ts, ops, i - 1);
      StepKeeps(l, ss[i - 1], ts[i - 1], ops[i - 1], ss[i], ts[i]);
    }
  }

  lemma EmptySpool(t: nat)
    ensures RunInv(State([], 0, 0, map[], []), t)
  {}

  /** At any point of any run, opening the directory gives the queue as it stands in memory: the same batches,
      the same documents, the same order. */
  lemma ReopenAnyTime(l: Limits, ss: seq<State>, ts: seq<nat>, ops: seq<Op>, i: nat, s': State)
    requires IsRun(l, ss, ts, ops) && i <= |ops| && Restarted(ss[i], s')
    ensures AllBacked(ss[i]) && AllBacked(s') && Items(s') == Items(ss[i])
  {
    hide Restarted, Items, Named, Tidy;
    RunKeeps(l, ss, ts, ops, i);
    RestartKeeps(ss[i], s', ts[i], ts[i] + 1);
  }
}
