/** Runs of the spool in which a Remove may fail to delete its file: what a start then finds is the queue and the batches
    that could not be deleted, in the order of their names (internal/exporters/loom/spool.go). */
module LoomUndeleted {
  import opened Options
  import opened LoomNames
  import opened LoomQueues
  import opened LoomSpool
  import opened LoomSpoolLaws
  import opened LoomSpoolOps
  import opened LoomReopen
  import opened LoomRestart

  /** The entries whose names are not among `left`. */
  function Kept(y: seq<Entry>, left: set<string>): (r: seq<Entry>) {
    if y == [] then []
    else Kept(y[..|y| - 1], left) + if y[|y| - 1].name in left then [] else [y[|y| - 1]]
  }

  lemma {:induction false} KeptTwoParts(x: seq<Entry>, y: seq<Entry>, left: set<string>)
    ensures Kept(x + y, left) == Kept(x, left) + Kept(y, left)
    decreases |y|
  {
    if y == [] {
      assert x + y == x;
    } else {
      var front, last := y[..|y| - 1], y[|y| - 1];
      KeptTwoParts(x, front, left);
      assert (x + y)[..|x + y| - 1] == x + front && (x + y)[|x + y| - 1] == last;
      var z := if last.name in left then [] else [last];
      assert Kept(x, left) + Kept(front, left) + z == Kept(x, left) + (Kept(front, left) + z);
    }
  }

  lemma KeptOne(e: Entry, left: set<string>)
    ensures Kept([e], left) == if e.name in left then [] else [e]
  {
    assert [e][..0] == [];
  }

  lemma {:induction false} KeptSame(y: seq<Entry>, left: set<string>, left': set<string>)
    requires forall i :: 0 <= i < |y| ==> (y[i].name in left <==> y[i].name in left')
    ensures Kept(y, left) == Kept(y, left')
    decreases |y|
  {
    if y != [] {
      KeptSame(y[..|y| - 1], left, left');
    }
  }

  lemma {:induction false} KeptAll(y: seq<Entry>)
    ensures Kept(y, {}) == y
    decreases |y|
  {
    if y != [] {
      KeptAll(y[..|y| - 1]);
      assert y == y[..|y| - 1] + [y[|y| - 1]];
    }
  }

  lemma {:induction false} KeptMember(y: seq<Entry>, left: set<string>, i: nat) returns (j: nat)
    requires i < |Kept(y, left)|
    ensures j < |y| && y[j] == Kept(y, left)[i] && y[j].name !in left
    decreases |y|
  {
    var front := y[..|y| - 1];
    if i < |Kept(front, left)| {
      j := KeptMember(front, left, i);
    } else {
      j := |y| - 1;
    }
  }

  /** An entry that is kept, with what is kept on either side. */
  lemma KeptAround(y: seq<Entry>, left: set<string>, j: nat)
    requires j < |y| && y[j].name !in left
    ensures Kept(y, left) == Kept(y[..j], left) + [y[j]] + Kept(y[j + 1..], left)
  {
    hide Kept;
    assert y == y[..j] + ([y[j]] + y[j + 1..]);
    KeptTwoParts(y[..j], [y[j]] + y[j + 1..], left);
    KeptTwoParts([y[j]], y[j + 1..], left);
    KeptOne(y[j], left);
    var a, b := Kept(y[..j], left), Kept(y[j + 1..], left);
    assert a + ([y[j]] + b) == a + [y[j]] + b;
  }

  // ---- the directory behind the index ---------------------------------------------------------------------

  /** u is the spool as its directory has it: the index of s, and the batches of `left` that were removed from the index but
      not from the directory. */
  ghost predicate Shadows(s: State, u: State, left: set<string>, t: nat) {
    && RunInv(u, t) && s.disk == u.disk && s.puts == u.puts
    && left <= NamesOf(u.files) && s.files == Kept(u.files, left)
  }

  lemma FindInBoth(s: State, u: State, left: set<string>, t: nat, name: string) returns (j: nat)
    requires Shadows(s, u, left, t) && Find(s.files, name) < |s.files|
    ensures j < |u.files| && u.files[j].name == name && name !in left && Find(u.files, name) == j
    ensures Find(s.files, name) == |Kept(u.files[..j], left)| && s.files[Find(s.files, name)] == u.files[j]
    ensures s.files == Kept(u.files[..j], left) + [u.files[j]] + Kept(u.files[j + 1..], left)
  {
    hide RunInv, Kept, NamesOf, DistinctNames;
    var i := Find(s.files, name);
    j := KeptMember(u.files, left, i);
    KeptAround(u.files, left, j);
    DistinctOf(u, t);
    FindDistinct(u.files, j);
    NotKeptBefore(u.files, left, j);
    FindIs(s.files, name, |Kept(u.files[..j], left)|);
  }

  lemma FindDistinct(files: seq<Entry>, j: nat)
    requires DistinctNames(files) && j < |files|
    ensures Find(files, files[j].name) == j
  {
    FindIs(files, files[j].name, j);
  }

  lemma NotKeptBefore(files: seq<Entry>, left: set<string>, j: nat)
    requires DistinctNames(files) && j < |files|
    ensures forall m :: 0 <= m < |Kept(files[..j], left)| ==> Kept(files[..j], left)[m].name != files[j].name
  {
    hide Kept;
    forall m | 0 <= m < |Kept(files[..j], left)| ensures Kept(files[..j], left)[m].name != files[j].name {
      var n := KeptMember(files[..j], left, m);
      assert files[..j][n] == files[n];
    }
  }

  lemma DistinctOf(s: State, t: nat)
    requires RunInv(s, t)
    ensures DistinctNames(s.files)
  {
    hide Named, Tidy, AllBacked, SizeSum;
  }

  /** One more name that is left. */
  lemma KeptFailing(files: seq<Entry>, left: set<string>, j: nat)
    requires DistinctNames(files) && j < |files|
    ensures Kept(files, left + {files[j].name}) == Kept(files[..j], left) + Kept(files[j + 1..], left)
  {
    var x, y, e := files[..j], files[j + 1..], files[j];
    var more := left + {e.name};
    forall i | 0 <= i < |x| ensures x[i].name != e.name {
      assert x[i] == files[i];
    }
    forall i | 0 <= i < |y| ensures y[i].name != e.name {
      assert y[i] == files[j + 1 + i];
    }
    hide Kept, DistinctNames;
    KeptSame(x, left, more);
    KeptSame(y, left, more);
    assert files == x + ([e] + y);
    KeptTwoParts(x, [e] + y, more);
    KeptTwoParts([e], y, more);
    KeptOne(e, more);
    assert [] + Kept(y, more) == Kept(y, more);
  }

  /** The file could not be deleted: the directory stays, and the name joins those left. */
  lemma FailsToDelete(s: State, u: State, left: set<string>, t: nat, name: string)
    requires Shadows(s, u, left, t) && Find(s.files, name) < |s.files|
    ensures Shadows(AfterRemove(s, name, false).0, u, left + {name}, t)
  {
    hide RunInv, Kept, NamesOf, DistinctNames, Find;
    var j := FindInBoth(s, u, left, t, name);
    DistinctOf(u, t);
    NameThere(u.files, j);
    KeptFailing(u.files, left, j);
    TakeOut(Kept(u.files[..j], left), u.files[j], Kept(u.files[j + 1..], left));
  }

  lemma TakeOut(a: seq<Entry>, e: Entry, b: seq<Entry>)
    ensures (a + [e] + b)[..|a|] + (a + [e] + b)[|a| + 1..] == a + b
  {}

  lemma NameThere(files: seq<Entry>, j: nat)
    requires j < |files|
    ensures files[j].name in NamesOf(files)
  {
    assert files[j] in files;
  }

  /** The file is deleted: from the index and the directory alike. */
  lemma Deletes(s: State, u: State, left: set<string>, t: nat, name: string)
    requires Shadows(s, u, left, t) && Find(s.files, name) < |s.files|
    ensures Shadows(AfterRemove(s, name, true).0, AfterRemove(u, name, true).0, left, t)
  {
    hide RunInv, Kept, NamesOf, DistinctNames, Find;
    var j := FindInBoth(s, u, left, t, name);
    RemoveRun(u, name, t);
    DistinctOf(u, t);
    var x, y, e := u.files[..j], u.files[j + 1..], u.files[j];
    NamesLeft(u.files, j);
    KeptTwoParts(x, y, left);
    TakeOut(Kept(x, left), e, Kept(y, left));
  }

  lemma NamesLeft(files: seq<Entry>, j: nat)
    requires DistinctNames(files) && j < |files|
    ensures NamesOf(files[..j] + files[j + 1..]) == NamesOf(files) - {files[j].name}
  {
    hide NamesOf;
    NoNames();
    ReplaceNames(files, j, []);
    assert Replace(files, j, []) == files[..j] + files[j + 1..];
  }

  lemma NoNames()
    ensures NamesOf([]) == {}
  {}

  /** A cap drops the oldest of the index. */
  lemma DropsFront(s: State, u: State, left: set<string>, t: nat, reason: Reason) returns (u': State)
    requires Shadows(s, u, left, t) && s.files != []
    ensures Shadows(DropFront(s, reason), u', left, t)
  {
    hide Shadows, Find, AfterRemove, DropFront;
    var name := s.files[0].name;
    FindIs(s.files, name, 0);
    Deletes(s, u, left, t, name);
    u' := AfterRemove(u, name, true).0;
    DropIsRemove(s, reason);
    SameButReports(AfterRemove(s, name, true).0, DropFront(s, reason), u', left, t);
  }

  lemma DropIsRemove(s: State, reason: Reason)
    requires s.files != []
    ensures var r, d := AfterRemove(s, s.files[0].name, true).0, DropFront(s, reason);
            d.files == r.files && d.disk == r.disk && d.puts == r.puts
  {
    FindIs(s.files, s.files[0].name, 0);
    hide Find;
    assert s.files[..0] + s.files[1..] == s.files[1..];
  }

  lemma SameButReports(s: State, s': State, u: State, left: set<string>, t: nat)
    requires Shadows(s, u, left, t) && s'.files == s.files && s'.disk == s.disk && s'.puts == s.puts
    ensures Shadows(s', u, left, t)
  {
    hide RunInv, Kept, NamesOf;
  }

  lemma {:induction false} DropsSome(s: State, u: State, left: set<string>, t: nat, s': State, d: nat, reason: Reason) returns (u': State)
    requires Shadows(s, u, left, t) && DropsPrefix(s, s', d, reason)
    ensures Shadows(s', u', left, t)
    decreases d
  {
    if d == 0 {
      u' := u;
      DropsNone(s, s', reason);
      hide Shadows, DropsPrefix;
      SameButReports(s, s', u, left, t);
    } else {
      hide Shadows, DropsPrefix;
      DropsOneLess(s, s', d, reason);
      var u1 := DropsFront(s, u, left, t, reason);
      u' := DropsSome(DropFront(s, reason), u1, left, t, s', d - 1, reason);
    }
  }

  lemma DropsNone(s: State, s': State, reason: Reason)
    requires DropsPrefix(s, s', 0, reason)
    ensures s'.files == s.files && s'.disk == s.disk && s'.puts == s.puts
  {
    assert s.files[..0] == [];
    NoNames();
  }

  lemma DropsOneLess(s: State, s': State, d: nat, reason: Reason)
    requires d > 0 && DropsPrefix(s, s', d, reason)
    ensures s.files != [] && DropsPrefix(DropFront(s, reason), s', d - 1, reason)
  {
    var e, rest := s.files[0], s.files[1..][..d - 1];
    assert s.files[..d] == [e] + rest && s.files[..d][1..] == rest;
    assert s.files[1..][d - 1..] == s.files[d..];
    NamesTwoParts([e], rest);
    NamesOfOne(e);
    hide NamesOf;
    assert s.disk - {e.name} - NamesOf(rest) == s.disk - ({e.name} + NamesOf(rest));
    assert s.drops + ([Drop(reason, e.n)] + DropsOf(rest, reason)) == s.drops + [Drop(reason, e.n)] + DropsOf(rest, reason);
  }

  // ---- Put, Oldest and Split -------------------------------------------------------------------------------

  lemma Appends(s: State, u: State, left: set<string>, t: nat, docs: seq<Doc>, env: PutEnv)
    requires Shadows(s, u, left, t) && t <= env.nameAt < INT64_LIMIT && s.puts + 1 < SEQ_LIMIT && |docs| < INT64_LIMIT
    ensures Shadows(Appended(s.(puts := s.puts + 1), docs, env), Appended(u.(puts := u.puts + 1), docs, env), left, env.nameAt)
  {
    hide RunInv, Kept, NamesOf, Appended, NewEntry, DistinctNames;
    var e := NewEntry(s.puts + 1, docs, env);
    var u' := Appended(u.(puts := u.puts + 1), docs, env);
    AppendedIs(s, docs, env);
    AppendedIs(u, docs, env);
    AppendRun(u, docs, env, t);
    DistinctOf(u', env.nameAt);
    KeptAppend(u.files, e, left);
  }

  function NewEntry(number: nat, docs: seq<Doc>, env: PutEnv): Entry {
    Entry(PutName(env.nameAt, number, |docs|), |Body(docs)|, |docs|, env.bornAt)
  }

  lemma AppendedIs(s: State, docs: seq<Doc>, env: PutEnv)
    ensures var s', e := Appended(s.(puts := s.puts + 1), docs, env), NewEntry(s.puts + 1, docs, env);
            s'.files == s.files + [e] && s'.disk == s.disk[e.name := Whole(docs)] && s'.puts == s.puts + 1
  {
    hide PutName, Body;
  }

  lemma AppendRun(u: State, docs: seq<Doc>, env: PutEnv, t: nat)
    requires RunInv(u, t) && t <= env.nameAt < INT64_LIMIT && u.puts + 1 < SEQ_LIMIT && |docs| < INT64_LIMIT
    ensures RunInv(Appended(u.(puts := u.puts + 1), docs, env), env.nameAt)
  {
    hide Tidy, Indexed, Named, Appended, Items, StemOf;
    var counted := u.(puts := u.puts + 1);
    TidySame(u, counted);
    AppendKeeps(u, counted, docs, env, t);
    AppendedTidy(counted, docs, env);
  }

  lemma KeptAppend(files: seq<Entry>, e: Entry, left: set<string>)
    requires DistinctNames(files + [e]) && left <= NamesOf(files)
    ensures Kept(files + [e], left) == Kept(files, left) + [e] && left <= NamesOf(files + [e])
  {
    hide Kept, NamesOf;
    NewName(files, e);
    KeptTwoParts(files, [e], left);
    KeptOne(e, left);
    NamesTwoParts(files, [e]);
  }

  lemma NewName(files: seq<Entry>, e: Entry)
    requires DistinctNames(files + [e])
    ensures e.name !in NamesOf(files)
  {
    forall f | f in files ensures f.name != e.name {
      var i :| 0 <= i < |files| && files[i] == f;
      assert (files + [e])[i] == f && (files + [e])[|files|] == e;
    }
  }

  lemma SameShadow(s: State, s': State, u: State, u': State, left: set<string>, t: nat)
    requires Shadows(s, u, left, t) && s' == s.(puts := s'.puts, drops := s'.drops) && u' == u.(puts := s'.puts) && s'.puts >= s.puts
    ensures Shadows(s', u', left, t)
  {
    hide Kept, NamesOf, NamedBefore, Ordered;
    LaterNamed(u, u', t, t);
    SameIndex(u, u');
  }

  lemma SameIndex(u: State, u': State)
    requires Indexed(u) && u' == u.(puts := u'.puts)
    ensures Indexed(u')
  {
    hide DistinctNames, SizeSum, Backed;
  }

  lemma LaterShadow(s: State, u: State, left: set<string>, t: nat, t': nat)
    requires Shadows(s, u, left, t) && t <= t'
    ensures Shadows(s, u, left, t')
  {
    hide Kept, NamesOf, NamedBefore, Ordered, Indexed, Tidy;
    LaterNamed(u, u, t, t');
  }

  lemma PutShadow(s: State, u: State, left: set<string>, l: Limits, docs: seq<Doc>, env: PutEnv, t: nat) returns (u': State)
    requires Shadows(s, u, left, t) && t <= env.nameAt < INT64_LIMIT && s.puts + 1 < SEQ_LIMIT && |docs| < INT64_LIMIT
    ensures Shadows(AfterPut(s, l, docs, env).0, u', left, env.nameAt)
  {
    hide Shadows, DropsPrefix, Expired, RoomFor, Enforced, Appended, Body, TooOld;
    var young, need := Expired(s, l, env.expireAt), |Body(docs)| + l.minFree;
    var a := ExpireGivesUp(s, l, env.expireAt);
    u' := DropsSome(s, u, left, t, young, a, Age);
    var room := young;
    if env.free.Some? {
      room := RoomFor(young, env.free.value, need).0;
      var b := RoomShortest(young, env.free.value, need);
      u' := DropsSome(young, u', left, t, room, b, Disk);
      SamePutsAfter(young, room, b, Disk);
    }
    SamePutsAfter(s, young, a, Age);
    var (s', r) := AfterPut(s, l, docs, env);
    if r == LowDisk {
      LaterShadow(s', u', left, t, env.nameAt);
    } else if r == WriteError {
      var v := u'.(puts := s'.puts);
      SameShadow(room, s', u', v, left, t);
      u' := v;
      LaterShadow(s', u', left, t, env.nameAt);
    } else {
      Appends(room, u', left, t, docs, env);
      u' := Appended(u'.(puts := u'.puts + 1), docs, env);
      var appended := Appended(room.(puts := room.puts + 1), docs, env);
      var c := EnforceShortest(appended, l.max);
      u' := DropsSome(appended, u', left, env.nameAt, s', c, Size);
    }
  }

  lemma OldestShadow(s: State, u: State, left: set<string>, l: Limits, now: Time, readable: string -> bool, t: nat) returns (u': State)
    requires Shadows(s, u, left, t)
    ensures Shadows(AfterOldest(s, l, now, readable).0, u', left, t)
  {
    hide Shadows, DropsPrefix, Expired, SkipCorrupt, TooOld;
    var young := Expired(s, l, now);
    var a := ExpireGivesUp(s, l, now);
    u' := DropsSome(s, u, left, t, young, a, Age);
    var b := SkipsPrefix(young, readable);
    u' := DropsSome(young, u', left, t, SkipCorrupt(young, readable), b, Corrupt);
  }

  /** The posted body is the one on disk, if the batch is still in the index. */
  ghost predicate OnDisk(s: State, name: string, docs: seq<Doc>) {
    Find(s.files, name) < |s.files| ==> name in s.disk && s.disk[name] == Whole(docs)
  }

  lemma SplitShadow(s: State, u: State, left: set<string>, name: string, docs: seq<Doc>, okA: bool, okB: bool, t: nat)
    requires Shadows(s, u, left, t) && OnDisk(s, name, docs) && |docs| >= 2 && Find(s.files, name) < |s.files|
    ensures Shadows(AfterSplit(s, name, docs, okA, okB).0, AfterSplit(u, name, docs, okA, okB).0, left, t)
  {
    hide RunInv, Kept, NamesOf, Body, HalfName, DistinctNames, HoldsBody, Find;
    var j := FindInBoth(s, u, left, t, name);
    HeldInShadow(u, t, name, docs);
    SplitRun(u, name, docs, okA, okB, t);
    if okA && okB {
      DistinctOf(u, t);
      var e := u.files[j];
      NewInShadow(u, t, j, docs);
      KeptSplit(u.files, left, j, HalfEntry(name, 'a', FirstHalf(docs), e.born), HalfEntry(name, 'b', SecondHalf(docs), e.born));
    }
  }

  lemma HeldInShadow(u: State, t: nat, name: string, docs: seq<Doc>)
    requires RunInv(u, t) && name in u.disk && u.disk[name] == Whole(docs)
    ensures AllBacked(u) && HoldsBody(u, name, docs)
  {
    hide RunInv;
    BackedOf(u, t);
  }

  lemma BackedOf(u: State, t: nat)
    requires RunInv(u, t)
    ensures AllBacked(u)
  {
    hide Named, Tidy, Backed;
  }

  /** An entry that is kept gives way to two that are new. */
  lemma KeptSplit(files: seq<Entry>, left: set<string>, j: nat, a: Entry, b: Entry)
    requires DistinctNames(files) && j < |files| && files[j].name !in left && left <= NamesOf(files)
    requires a.name !in NamesOf(files) && b.name !in NamesOf(files)
    ensures var x, y := Kept(files[..j], left), Kept(files[j + 1..], left);
            var before := x + [files[j]] + y;
      Kept(files[..j] + [a, b] + files[j + 1..], left) == before[..|x|] + [a, b] + before[|x| + 1..]
    ensures left <= NamesOf(files[..j] + [a, b] + files[j + 1..])
  {
    hide Kept, NamesOf, DistinctNames;
    SplitNames(files, j, a, b);
    var x, y, e := files[..j], files[j + 1..], files[j];
    assert x + [a, b] + y == x + ([a] + ([b] + y));
    KeptTwoParts(x, [a] + ([b] + y), left);
    KeptTwoParts([a], [b] + y, left);
    KeptTwoParts([b], y, left);
    KeptOne(a, left);
    KeptOne(b, left);
    PutIn(Kept(x, left), e, a, b, Kept(y, left));
  }

  lemma PutIn(x: seq<Entry>, e: Entry, a: Entry, b: Entry, y: seq<Entry>)
    ensures (x + [e] + y)[..|x|] + [a, b] + (x + [e] + y)[|x| + 1..] == x + ([a] + ([b] + y))
  {}

  lemma NewInShadow(u: State, t: nat, j: nat, docs: seq<Doc>)
    requires RunInv(u, t) && j < |u.files|
    ensures var e := u.files[j];
            var a, b := HalfEntry(e.name, 'a', FirstHalf(docs), e.born), HalfEntry(e.name, 'b', SecondHalf(docs), e.born);
      a.name !in NamesOf(u.files) && b.name !in NamesOf(u.files)
  {
    hide Indexed, Stem, HalfName, NamedBefore, Body;
    var e := u.files[j];
    NamedAt(u, t, j);
    HalfKeyed(e, 'a', FirstHalf(docs), t, u.puts + 1);
    HalfKeyed(e, 'b', SecondHalf(docs), t, u.puts + 1);
    HalvesAreNew(u, j, HalfEntry(e.name, 'a', FirstHalf(docs), e.born), HalfEntry(e.name, 'b', SecondHalf(docs), e.born), t);
  }

  lemma SplitNames(files: seq<Entry>, j: nat, a: Entry, b: Entry)
    requires DistinctNames(files) && j < |files| && a.name !in NamesOf(files) && b.name !in NamesOf(files)
    ensures NamesOf(files) - {files[j].name} <= NamesOf(files[..j] + [a, b] + files[j + 1..])
  {
    NameThere(files, j);
    assert NamesOf([a, b]) == {a.name, b.name};
    hide NamesOf;
    ReplaceNames(files, j, [a, b]);
    assert Replace(files, j, [a, b]) == files[..j] + [a, b] + files[j + 1..];
  }

  // ---- runs --------------------------------------------------------------------------------------------------

  datatype Op =
    | DoPut(putDocs: seq<Doc>, env: PutEnv)
    | DoOldest(now: Time, readable: string -> bool)
    | DoRemove(name: string, deleted: bool)
    | DoSplit(splitName: string, splitDocs: seq<Doc>, okA: bool, okB: bool)
    | DoRestart(at: nat)

  /** A spool with its clock reading and the names it could not delete since it was opened. */
  datatype Moment = Moment(s: State, t: nat, left: set<string>)

  ghost predicate Performs(l: Limits, m: Moment, op: Op, m': Moment) {
    match op
    case DoPut(docs, env) =>
      && m.t <= env.nameAt < INT64_LIMIT && m.s.puts + 1 < SEQ_LIMIT && |docs| < INT64_LIMIT
      && m' == Moment(AfterPut(m.s, l, docs, env).0, env.nameAt, m.left)
    case DoOldest(now, readable) => m' == m.(s := AfterOldest(m.s, l, now, readable).0)
    case DoRemove(name, deleted) =>
      m' == m.(s := AfterRemove(m.s, name, deleted).0,
               left := if !deleted && Find(m.s.files, name) < |m.s.files| then m.left + {name} else m.left)
    case DoSplit(name, docs, okA, okB) => OnDisk(m.s, name, docs) && m' == m.(s := AfterSplit(m.s, name, docs, okA, okB).0)
    case DoRestart(at) => m.t < at && m'.t == at && m'.left == {} && Restarted(m.s, m'.s)
  }

  lemma RemoveShadow(s: State, u: State, left: set<string>, t: nat, name: string, deleted: bool) returns (u': State)
    requires Shadows(s, u, left, t)
    ensures Shadows(AfterRemove(s, name, deleted).0, u',
                    if !deleted && Find(s.files, name) < |s.files| then left + {name} else left, t)
  {
    u' := u;
    hide Shadows;
    if Find(s.files, name) < |s.files| {
      if deleted {
        Deletes(s, u, left, t, name);
        u' := AfterRemove(u, name, true).0;
      } else {
        FailsToDelete(s, u, left, t, name);
      }
    }
  }

  lemma SameDirectoryRestarts(s: State, u: State, s': State)
    requires Restarted(s, s') && s.disk == u.disk
    ensures Restarted(u, s')
  {
    hide Lists, Sorted, WithoutTemporary, SizeSum;
  }

  lemma RestartShadow(s: State, u: State, left: set<string>, t: nat, s': State, at: nat)
    requires Shadows(s, u, left, t) && Restarted(s, s') && t < at
    ensures Shadows(s', s', {}, at)
  {
    hide Restarted, NamesOf, Indexed, Named, Tidy;
    SameDirectoryRestarts(s, u, s');
    RestartKeeps(u, s', t, at);
    KeptAll(s'.files);
  }

  lemma StepShadows(l: Limits, m: Moment, op: Op, m': Moment, u: State) returns (u': State)
    requires Shadows(m.s, u, m.left, m.t) && Performs(l, m, op, m')
    ensures Shadows(m'.s, u', m'.left, m'.t)
  {
    hide Shadows, AfterPut, AfterOldest, AfterRemove, Restarted, OnDisk;
    match op
    case DoPut(docs, env) => u' := PutShadow(m.s, u, m.left, l, docs, env, m.t);
    case DoOldest(now, readable) => u' := OldestShadow(m.s, u, m.left, l, now, readable, m.t);
    case DoRemove(name, deleted) => u' := RemoveShadow(m.s, u, m.left, m.t, name, deleted);
    case DoSplit(name, docs, okA, okB) =>
      u' := u;
      if |docs| >= 2 && Find(m.s.files, name) < |m.s.files| {
        SplitShadow(m.s, u, m.left, name, docs, okA, okB, m.t);
        u' := AfterSplit(u, name, docs, okA, okB).0;
      }
    case DoRestart(at) =>
      RestartShadow(m.s, u, m.left, m.t, m'.s, at);
      u' := m'.s;
  }

  ghost predicate IsRun(l: Limits, ms: seq<Moment>, ops: seq<Op>) {
    && |ms| == |ops| + 1 && ms[0].s == State([], 0, 0, map[], []) && ms[0].left == {}
    && forall i :: 0 <= i < |ops| ==> Performs(l, ms[i], ops[i], ms[i + 1])
  }

  lemma {:induction false} RunShadows(l: Limits, ms: seq<Moment>, ops: seq<Op>, i: nat) returns (u: State)
    requires IsRun(l, ms, ops) && i <= |ops|
    ensures Shadows(ms[i].s, u, ms[i].left, ms[i].t)
    decreases i
  {
    if i == 0 {
      u := ms[0].s;
      EmptySpool(ms[0].t);
    } else {
      hide Shadows, Performs;
      u := RunShadows(l, ms, ops, i - 1);
      u := StepShadows(l, ms[i - 1], ops[i - 1], ms[i], u);
    }
  }

  /** What a start finds: in name order, the queue as it stands and exactly the batches whose files could not be deleted. */
  ghost predicate FindsUndeleted(s: State, left: set<string>, s': State) {
    && NamesOf(s'.files) == NamesOf(s.files) + left && NamesOf(s.files) !! left
    && Kept(s'.files, left) == RebornAll(s.files)
  }

  /** At any point of any run, with any number of removals that failed to delete, opening the directory gives the queue and the
      undeleted batches, sorted by name; without such failures it gives the queue. */
  lemma ReopenWithUndeleted(l: Limits, ms: seq<Moment>, ops: seq<Op>, i: nat, s': State)
    requires IsRun(l, ms, ops) && i <= |ops| && Restarted(ms[i].s, s')
    ensures FindsUndeleted(ms[i].s, ms[i].left, s') && Sorted(s'.files) && Indexed(s') && Named(s', ms[i].t + 1)
  {
    hide Shadows, Performs, FindsUndeleted, Restarted, Sorted, Indexed, Named;
    var m := ms[i];
    var u := RunShadows(l, ms, ops, i);
    ShadowFound(m.s, u, m.left, m.t, s');
  }

  lemma ShadowFound(s: State, u: State, left: set<string>, t: nat, s': State)
    requires Shadows(s, u, left, t) && Restarted(s, s')
    ensures FindsUndeleted(s, left, s') && Sorted(s'.files) && Indexed(s') && Named(s', t + 1)
  {
    hide Lists, WithoutTemporary, SizeSum, Indexed, Named, Tidy, NamesOf, RebornAll, Sorted, Items, Kept;
    SameDirectoryRestarts(s, u, s');
    RestartKeeps(u, s', t, t + 1);
    ShadowFiles(s, u, t, s');
    RebornNames(u.files);
    RebornKept(u.files, left);
    KeptNames(u.files, left);
  }

  lemma ShadowFiles(s: State, u: State, t: nat, s': State)
    requires RunInv(u, t) && s.disk == u.disk && Restarted(s, s')
    ensures s'.files == RebornAll(u.files) && Sorted(s'.files)
  {
    hide RunInv, Lists, Sorted, WithoutTemporary, SizeSum, RebornAll;
    ReopenedFiles(u, t, s'.files);
  }

  lemma RebornNames(files: seq<Entry>)
    ensures NamesOf(RebornAll(files)) == NamesOf(files)
  {
    hide Reborn;
    forall i | 0 <= i < |files| ensures RebornAll(files)[i].name == files[i].name {
      RebornHasName(files[i]);
    }
    forall name ensures name in NamesOf(RebornAll(files)) <==> name in NamesOf(files) {
      if name in NamesOf(files) {
        var e :| e in files && e.name == name;
        var i :| 0 <= i < |files| && files[i] == e;
        assert RebornAll(files)[i] in RebornAll(files);
      }
      if name in NamesOf(RebornAll(files)) {
        var e :| e in RebornAll(files) && e.name == name;
        var i :| 0 <= i < |files| && RebornAll(files)[i] == e;
        assert files[i] in files;
      }
    }
  }

  lemma RebornHasName(e: Entry)
    ensures Reborn(e).name == e.name
  {
    hide ParseName;
  }

  lemma {:induction false} RebornKept(y: seq<Entry>, left: set<string>)
    ensures Kept(RebornAll(y), left) == RebornAll(Kept(y, left))
    decreases |y|
  {
    hide Reborn;
    if y != [] {
      var front, last := y[..|y| - 1], y[|y| - 1];
      RebornKept(front, left);
      RebornHasName(last);
      assert RebornAll(y)[..|y| - 1] == RebornAll(front);
      var z := if last.name in left then [] else [last];
      assert RebornAll(Kept(front, left) + z) == RebornAll(Kept(front, left)) + RebornAll(z);
    }
  }

  lemma {:induction false} KeptNames(y: seq<Entry>, left: set<string>)
    ensures NamesOf(Kept(y, left)) == NamesOf(y) - left
    decreases |y|
  {
    if y == [] {
      NoNames();
    } else {
      var front, last := y[..|y| - 1], y[|y| - 1];
      KeptNames(front, left);
      var z := if last.name in left then [] else [last];
      assert y == front + [last];
      NamesTwoParts(front, [last]);
      NamesTwoParts(Kept(front, left), z);
      NamesOfOne(last);
      NoNames();
    }
  }
}
