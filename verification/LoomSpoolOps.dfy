/** Oldest, Remove and Split of the spool, as operations on the queue of batches. */
module LoomSpoolOps {
  import opened Options
  import opened LoomNames
  import opened LoomQueues
  import opened LoomSpool
  import opened LoomSpoolLaws

  /** Past the age cap. */
  predicate TooOld(l: Limits, e: Entry, now: Time) {
    l.maxAge > 0 && e.born < now - l.maxAge
  }

  /** Oldest gives up the batches at the front that are too old, then those that cannot be read, with a report for each,
      and stops at the first that is neither. */
  ghost predicate GivesUp(s: State, s': State, l: Limits, now: Time, readable: string -> bool, a: nat, b: nat) {
    && a + b <= |s.files| && s'.files == s.files[a + b..]
    && (forall i :: 0 <= i < a ==> TooOld(l, s.files[i], now))
    && (a < |s.files| ==> !TooOld(l, s.files[a], now))
    && (forall i :: a <= i < a + b ==> !readable(s.files[i].name))
    && (a + b < |s.files| ==> readable(s.files[a + b].name))
    && s'.drops == s.drops + DropsOf(s.files[..a], Age) + DropsOf(s.files[a..a + b], Corrupt)
  }

  lemma ExpireGivesUp(s: State, l: Limits, now: Time) returns (a: nat)
    ensures DropsPrefix(s, Expired(s, l, now), a, Age) && a <= |s.files|
    ensures forall i :: 0 <= i < a ==> TooOld(l, s.files[i], now)
    ensures a < |s.files| ==> !TooOld(l, s.files[a], now)
  {
    a := 0;
    if l.maxAge > 0 {
      a := ExpireShortest(s, now - l.maxAge);
    } else {
      DropsNothing(s, Age);
    }
  }

  lemma GivesUpTwice(s: State, young: State, s': State, l: Limits, now: Time, readable: string -> bool, a: nat, b: nat)
    requires DropsPrefix(s, young, a, Age) && DropsPrefix(young, s', b, Corrupt)
    requires forall i :: 0 <= i < a ==> TooOld(l, s.files[i], now)
    requires a < |s.files| ==> !TooOld(l, s.files[a], now)
    requires forall i :: 0 <= i < b ==> !readable(young.files[i].name)
    requires b < |young.files| ==> readable(young.files[b].name)
    ensures GivesUp(s, s', l, now, readable, a, b)
  {
    hide TooOld, DropsOf, SizeSum, NamesOf;
    assert s.files[a..][..b] == s.files[a..a + b] && s.files[a..][b..] == s.files[a + b..];
    forall i | a <= i < a + b ensures !readable(s.files[i].name) {
      assert s.files[i] == young.files[i - a];
    }
  }

  lemma OldestGivesUp(s: State, l: Limits, now: Time, readable: string -> bool) returns (a: nat, b: nat)
    requires Indexed(s)
    ensures GivesUp(s, AfterOldest(s, l, now, readable).0, l, now, readable, a, b)
  {
    hide Indexed, Expired, SkipCorrupt, DropsPrefix, GivesUp, TooOld;
    var young := Expired(s, l, now);
    a := ExpireGivesUp(s, l, now);
    DropRefines(s, young, a, Age);
    b := SkipsUnreadable(young, readable);
    GivesUpTwice(s, young, SkipCorrupt(young, readable), l, now, readable, a, b);
  }

  /** Oldest gives up a prefix, for its age or because it cannot be read, and returns the batch that is then first, as it
      was stored. */
  lemma OldestKeeps(s: State, l: Limits, now: Time, readable: string -> bool, t: nat)
    requires Indexed(s) && Named(s, t)
    ensures var (s', r) := AfterOldest(s, l, now, readable);
      && Indexed(s') && Named(s', t)
      && (exists a: nat, b: nat :: GivesUp(s, s', l, now, readable, a, b) && Loses(Items(s), Items(s'), a + b))
      && (r.None? <==> s'.files == [])
      && (r.Some? ==> r.value.name == s'.files[0].name && r.value.n == |r.value.docs|
                      && Items(s')[0] == Item(Stem(r.value.name), r.value.docs))
  {
    hide Indexed, Named, Items, Loses, DropsPrefix, Expired, SkipCorrupt, GivesUp;
    var young := Expired(s, l, now);
    var d := ExpireKeeps(s, l, now, t);
    var e := SkipsPrefix(young, readable);
    var s' := SkipCorrupt(young, readable);
    DropKeeps(young, s', e, Corrupt, t);
    ItemsLength(s);
    ItemsLength(young);
    ItemsLength(s');
    LosesTwice(Items(s), Items(young), Items(s'), d, e);
    var a, b := OldestGivesUp(s, l, now, readable);
    SameLoss(s, s', d + e, l, now, readable, a, b);
    if s'.files != [] {
      FirstItem(s');
    }
  }

  lemma SameLoss(s: State, s': State, d: nat, l: Limits, now: Time, readable: string -> bool, a: nat, b: nat)
    requires AllBacked(s) && AllBacked(s') && Loses(Items(s), Items(s'), d) && GivesUp(s, s', l, now, readable, a, b)
    ensures d == a + b
  {
    hide TooOld, DropsOf, Backed;
  }

  lemma FirstItem(s: State)
    requires Indexed(s) && s.files != []
    ensures var e := s.files[0];
            Backed(s.disk, e) && Items(s)[0] == Item(Stem(e.name), s.disk[e.name].docs)
  {}

  /** No other batch of the index shares the stem of `name`. */
  ghost predicate SoleStem(files: seq<Entry>, name: string) {
    forall i :: 0 <= i < |files| && Stem(files[i].name) == Stem(name) ==> files[i].name == name
  }

  lemma FoundInItems(s: State, name: string)
    requires Indexed(s) && SoleStem(s.files, name)
    ensures var i := Find(s.files, name);
      && (forall j :: 0 <= j < i ==> Items(s)[j].id != Stem(name))
      && (i < |s.files| ==> Items(s)[i].id == Stem(name))
  {
    hide Stem, Backed;
  }

  function Replace(files: seq<Entry>, i: nat, mid: seq<Entry>): (r: seq<Entry>)
    requires i < |files|
    ensures |r| == |files| - 1 + |mid|
  {
    files[..i] + mid + files[i + 1..]
  }

  lemma SizeSumCons(e: Entry, y: seq<Entry>)
    ensures SizeSum([e] + y) == e.size + SizeSum(y)
  {
    assert ([e] + y)[1..] == y;
  }

  lemma ReplaceSizes(files: seq<Entry>, i: nat, mid: seq<Entry>)
    requires i < |files|
    ensures SizeSum(Replace(files, i, mid)) == SizeSum(files) - files[i].size + SizeSum(mid)
  {
    hide SizeSum;
    var x, y, e := files[..i], files[i + 1..], files[i];
    assert files == x + ([e] + y);
    SizeSumTwoParts(x, [e] + y);
    SizeSumCons(e, y);
    assert Replace(files, i, mid) == x + (mid + y);
    SizeSumTwoParts(x, mid + y);
    SizeSumTwoParts(mid, y);
  }

  /** The other files are as they were. */
  ghost predicate OthersKept(s: State, i: nat, disk: map<string, Content>) {
    forall j :: 0 <= j < |s.files| && j != i ==> s.files[j].name in s.disk && s.files[j].name in disk
                                                 && disk[s.files[j].name] == s.disk[s.files[j].name]
  }

  lemma ReplacedEntry(s: State, i: nat, mid: seq<Entry>, disk: map<string, Content>, j: nat)
    requires Indexed(s) && i < |s.files| && OthersKept(s, i, disk) && j < |s.files| - 1 + |mid|
    requires forall m :: 0 <= m < |mid| ==> Backed(disk, mid[m])
    ensures var e := Replace(s.files, i, mid)[j];
      && Backed(disk, e)
      && (j < i ==> e == s.files[j] && disk[e.name] == s.disk[e.name])
      && (i <= j < i + |mid| ==> e == mid[j - i])
      && (i + |mid| <= j ==> e == s.files[j - |mid| + 1] && disk[e.name] == s.disk[e.name])
  {
    hide Backed, SizeSum;
    if j < i {
      assert Backed(s.disk, s.files[j]);
      SameFile(s.disk, disk, s.files[j]);
    } else if i + |mid| <= j {
      assert Backed(s.disk, s.files[j - |mid| + 1]);
      SameFile(s.disk, disk, s.files[j - |mid| + 1]);
    }
  }

  /** Entry i gives way to entries that are backed; the queue changes in that place only. */
  lemma ReplaceKeeps(s: State, i: nat, mid: seq<Entry>, items: seq<Item>, s': State)
    requires Indexed(s) && i < |s.files| && OthersKept(s, i, s'.disk)
    requires |items| == |mid|
    requires forall m :: 0 <= m < |mid| ==> Backed(s'.disk, mid[m]) && items[m] == Item(Stem(mid[m].name), s'.disk[mid[m].name].docs)
    requires s'.files == Replace(s.files, i, mid) && DistinctNames(s'.files)
    requires s'.total == s.total - s.files[i].size + SizeSum(mid)
    ensures Indexed(s') && Items(s') == Items(s)[..i] + items + Items(s)[i + 1..]
  {
    hide Backed, Stem, SizeSum, Replace, OthersKept;
    ReplaceSizes(s.files, i, mid);
    forall j | 0 <= j < |s'.files| ensures Backed(s'.disk, s'.files[j]) {
      ReplacedEntry(s, i, mid, s'.disk, j);
    }
    var r := Items(s)[..i] + items + Items(s)[i + 1..];
    forall j | 0 <= j < |s'.files| ensures Items(s')[j] == r[j] {
      ReplacedEntry(s, i, mid, s'.disk, j);
    }
    assert Items(s') == r;
  }

  lemma OthersAfterRemove(s: State, i: nat, disk: map<string, Content>)
    requires Indexed(s) && i < |s.files| && (disk == s.disk || disk == s.disk - {s.files[i].name})
    ensures OthersKept(s, i, disk)
  {
    forall j | 0 <= j < |s.files| && j != i
      ensures s.files[j].name in s.disk && s.files[j].name in disk && disk[s.files[j].name] == s.disk[s.files[j].name]
    {
      assert Backed(s.disk, s.files[j]);
    }
  }

  lemma NamedDistinct(s: State, t: nat)
    requires Named(s, t)
    ensures DistinctNames(s.files)
  {
    NamedIsDistinct(s.files);
  }

  lemma RemovedNamed(s: State, s': State, i: nat, t: nat)
    requires Named(s, t) && i < |s.files| && s'.files == s.files[..i] + s.files[i + 1..] && s'.puts == s.puts
    ensures Named(s', t)
  {
    hide NamedBefore, Diverges, Stem;
    forall j | 0 <= j < |s'.files| ensures s'.files[j] == s.files[if j < i then j else j + 1] {}
  }

  /** Remove takes exactly the named batch off the queue, wherever it stands, or nothing when a cap took it before;
      a file that could not be deleted changes nothing of that. */
  lemma RemoveKeeps(s: State, name: string, deleted: bool, t: nat)
    requires Indexed(s) && Named(s, t) && SoleStem(s.files, name)
    ensures var s' := AfterRemove(s, name, deleted).0;
            Indexed(s') && Named(s', t) && Items(s') == Without(Items(s), Stem(name))
  {
    hide Indexed, Named, Items, Stem;
    var i := Find(s.files, name);
    ItemsLength(s);
    FoundInItems(s, name);
    WithoutAt(Items(s), Stem(name), i);
    if i < |s.files| {
      var s' := AfterRemove(s, name, deleted).0;
      RemovedNamed(s, s', i, t);
      OthersAfterRemove(s, i, s'.disk);
      assert Replace(s.files, i, []) == s'.files;
      NamedDistinct(s', t);
      ReplaceKeeps(s, i, [], [], s');
      assert Items(s)[..i] + [] + Items(s)[i + 1..] == Items(s)[..i] + Items(s)[i + 1..];
    }
  }

  /** Remove fails exactly when the batch is there and its file cannot be deleted; the file stays then, and every other file
      stays in any case. */
  lemma RemoveFiles(s: State, name: string, deleted: bool)
    ensures var (s', ok) := AfterRemove(s, name, deleted);
            var there := exists i :: 0 <= i < |s.files| && s.files[i].name == name;
      && (!ok <==> there && !deleted)
      && s'.disk == (if there && deleted then s.disk - {name} else s.disk)
      && s'.puts == s.puts && s'.drops == s.drops
  {
    var i := Find(s.files, name);
    if i < |s.files| {
      assert s.files[i].name == name;
    }
  }

  // ---- Split ------------------------------------------------------------------------------------

  lemma LongerPath(k: Key, half: char)
    ensures StemOf(k.(path := k.path + [half])) == StemOf(k) + [half]
  {
    var p := Pad(k.nanos, NANOS_WIDTH) + "-" + Pad(k.number, SEQ_WIDTH);
    assert p + (k.path + [half]) == p + k.path + [half];
  }

  lemma HalfKeyed(e: Entry, half: char, docs: seq<Doc>, t: nat, number: nat)
    requires NamedBefore(e, t, number) && (half == 'a' || half == 'b')
    ensures NamedBefore(HalfEntry(e.name, half, docs, e.born), t, number)
    ensures Stem(HalfName(e.name, half, |docs|)) == Stem(e.name) + [half]
  {
    hide StemOf, NameOf, Stem, Body;
    var k :| KeyedBy(e, k) && Earlier(k, t, number);
    var h := k.(path := k.path + [half]);
    StemOfName(StemOf(k), e.n);
    LongerPath(k, half);
    StemOfName(StemOf(h), |docs|);
    assert KeyedBy(HalfEntry(e.name, half, docs, e.born), h);
  }

  /** The index with entry i replaced by its halves, which sort where it stood. */
  lemma SplitNamed(s: State, s': State, i: nat, a: Entry, b: Entry, t: nat)
    requires Named(s, t) && i < |s.files| && s'.files == s.files[..i] + [a, b] + s.files[i + 1..] && s'.puts == s.puts
    requires NamedBefore(a, t, s.puts + 1) && NamedBefore(b, t, s.puts + 1)
    requires Stem(a.name) == Stem(s.files[i].name) + "a" && Stem(b.name) == Stem(s.files[i].name) + "b"
    ensures Named(s', t)
  {
    hide NamedBefore, Diverges, Stem;
    var stem := Stem(s.files[i].name);
    forall j | 0 <= j < |s'.files|
      ensures s'.files[j] == if j < i then s.files[j] else if j == i then a else if j == i + 1 then b else s.files[j - 1]
    {}
    HalvesDiverge(stem);
    forall j, m | 0 <= j < m < |s'.files| ensures Diverges(Stem(s'.files[j].name), Stem(s'.files[m].name)) {
      if j < i && i <= m <= i + 1 {
        DivergesExtends(Stem(s.files[j].name), stem, "", if m == i then "a" else "b");
        assert Stem(s.files[j].name) + "" == Stem(s.files[j].name);
      } else if i <= j <= i + 1 && m > i + 1 {
        DivergesExtends(stem, Stem(s.files[m - 1].name), if j == i then "a" else "b", "");
        assert Stem(s.files[m - 1].name) + "" == Stem(s.files[m - 1].name);
      }
    }
  }

  /** The names of the halves are new to the index. */
  lemma HalvesAreNew(s: State, i: nat, a: Entry, b: Entry, t: nat)
    requires Named(s, t) && i < |s.files|
    requires Stem(a.name) == Stem(s.files[i].name) + "a" && Stem(b.name) == Stem(s.files[i].name) + "b"
    ensures a.name != b.name
    ensures forall j :: 0 <= j < |s.files| ==> s.files[j].name != a.name && s.files[j].name != b.name
  {
    hide NamedBefore, Diverges, Stem;
    var stem := Stem(s.files[i].name);
    forall j | 0 <= j < |s.files| ensures s.files[j].name != a.name && s.files[j].name != b.name {
      var other := Stem(s.files[j].name);
      assert other + "" == other;
      if j < i {
        DivergesExtends(other, stem, "", "a");
        DivergesExtends(other, stem, "", "b");
        DivergesIsLess(other, stem + "a");
        DivergesIsLess(other, stem + "b");
      } else if j > i {
        DivergesExtends(stem, other, "a", "");
        DivergesExtends(stem, other, "b", "");
        DivergesIsLess(stem + "a", other);
        DivergesIsLess(stem + "b", other);
      }
    }
    assert (stem + "a")[|stem|] != (stem + "b")[|stem|];
  }

  lemma SplitBacked(s: State, s': State, i: nat, a: Entry, b: Entry, docs: seq<Doc>)
    requires Indexed(s) && i < |s.files| && |docs| >= 2 && s.files[i].name in s.disk && s.disk[s.files[i].name] == Whole(docs)
    requires a.n == |FirstHalf(docs)| && a.size == |Body(FirstHalf(docs))|
    requires b.n == |SecondHalf(docs)| && b.size == |Body(SecondHalf(docs))|
    requires a.name != b.name && forall j :: 0 <= j < |s.files| ==> s.files[j].name != a.name && s.files[j].name != b.name
    requires s'.files == s.files[..i] + [a, b] + s.files[i + 1..] && DistinctNames(s'.files)
    requires s'.total == s.total - s.files[i].size + a.size + b.size
    requires s'.disk == s.disk[a.name := Whole(FirstHalf(docs))][b.name := Whole(SecondHalf(docs))] - {s.files[i].name}
    ensures Indexed(s') && s'.total == s.total + 1
    ensures Items(s') == Items(s)[..i] + [Item(Stem(a.name), FirstHalf(docs)), Item(Stem(b.name), SecondHalf(docs))] + Items(s)[i + 1..]
  {
    hide Stem, Body, OthersKept, SizeSum, DistinctNames, Indexed, FirstHalf, SecondHalf, Items;
    OthersAfterSplit(s, s', i, a, b, docs);
    SizeOfBacked(s, i, docs);
    HalvesAddOneByte(docs);
    SizeSumPair(a, b);
    ReplaceKeeps(s, i, [a, b], [Item(Stem(a.name), FirstHalf(docs)), Item(Stem(b.name), SecondHalf(docs))], s');
  }

  lemma SizeOfBacked(s: State, i: nat, docs: seq<Doc>)
    requires Indexed(s) && i < |s.files| && s.files[i].name in s.disk && s.disk[s.files[i].name] == Whole(docs)
    ensures s.files[i].size == |Body(docs)|
  {
    assert Backed(s.disk, s.files[i]);
    hide Body;
  }

  lemma OthersAfterSplit(s: State, s': State, i: nat, a: Entry, b: Entry, docs: seq<Doc>)
    requires Indexed(s) && i < |s.files|
    requires forall j :: 0 <= j < |s.files| ==> s.files[j].name != a.name && s.files[j].name != b.name
    requires s'.disk == s.disk[a.name := Whole(FirstHalf(docs))][b.name := Whole(SecondHalf(docs))] - {s.files[i].name}
    ensures OthersKept(s, i, s'.disk)
  {
    forall j | 0 <= j < |s.files| && j != i
      ensures s.files[j].name in s.disk && s.files[j].name in s'.disk && s'.disk[s.files[j].name] == s.disk[s.files[j].name]
    {
      assert Backed(s.disk, s.files[j]);
    }
  }

  lemma SizeSumPair(a: Entry, b: Entry)
    ensures SizeSum([a, b]) == a.size + b.size
  {
    SizeSumCons(b, []);
    SizeSumCons(a, [b]);
    assert [a] + [b] == [a, b] && [b] + [] == [b];
  }

  ghost predicate AgeOrdered(files: seq<Entry>) {
    forall i, j :: 0 <= i < j < |files| ==> files[i].born <= files[j].born
  }

  lemma SplitAges(files: seq<Entry>, i: nat, a: Entry, b: Entry)
    requires AgeOrdered(files) && i < |files| && a.born == files[i].born && b.born == files[i].born
    ensures AgeOrdered(files[..i] + [a, b] + files[i + 1..])
  {
    var r := files[..i] + [a, b] + files[i + 1..];
    forall j | 0 <= j < |r|
      ensures r[j].born == files[if j <= i then j else j - 1].born
    {}
  }

  /** The body that was posted is the one the index still holds under that name. */
  ghost predicate HoldsBody(s: State, name: string, docs: seq<Doc>)
    requires AllBacked(s)
  {
    forall i :: 0 <= i < |s.files| && s.files[i].name == name ==> s.disk[name] == Whole(docs)
  }

  /** A split fails exactly when there is something to halve and one of the two writes fails. The halves take the place of the
      batch and keep its age, so that they expire when it would have; all other batches stay as they are. */
  lemma SplitEntries(s: State, name: string, docs: seq<Doc>, okA: bool, okB: bool)
    ensures var (s', r) := AfterSplit(s, name, docs, okA, okB);
            var i := Find(s.files, name);
      && (r == SplitError <==> |docs| >= 2 && i < |s.files| && !(okA && okB))
      && s'.puts == s.puts && s'.drops == s.drops
      && (r == Split && i < |s.files| ==>
            && |s'.files| == |s.files| + 1 && s'.files[..i] == s.files[..i] && s'.files[i + 2..] == s.files[i + 1..]
            && s'.files[i].born == s'.files[i + 1].born == s.files[i].born
            && s'.files[i].n + s'.files[i + 1].n == |docs|)
  {
    hide HalfName, Body;
  }

  /** Split replaces the batch by its halves in its place, keeping documents, their order, the sorting order of the
      names and the age order, for one byte more in total. A single document, a batch a cap took before, or a write
      error leaves the queue as it was. */
  lemma SplitKeeps(s: State, name: string, docs: seq<Doc>, okA: bool, okB: bool, t: nat)
    requires Indexed(s) && Named(s, t) && SoleStem(s.files, name) && HoldsBody(s, name, docs)
    ensures var (s', r) := AfterSplit(s, name, docs, okA, okB);
      && Indexed(s') && Named(s', t)
      && (r == Split ==> Items(s') == Halved(Items(s), Item(Stem(name), docs)))
      && (r != Split ==> s'.files == s.files && Items(s') == Items(s) && s'.total == s.total)
      && (r == Single <==> |docs| < 2)
      && (r == Split ==> s'.total == s.total + if Find(s.files, name) < |s.files| then 1 else 0)
      && (AgeOrdered(s.files) ==> AgeOrdered(s'.files))
  {
    hide Indexed, Named, Items, Stem, HalfName, Body, AgeOrdered, NamedBefore;
    var (s', r) := AfterSplit(s, name, docs, okA, okB);
    var i := Find(s.files, name);
    ItemsLength(s);
    if |docs| >= 2 && i == |s.files| {
      FoundInItems(s, name);
      HalvedAt(Items(s), Item(Stem(name), docs), i);
    } else if |docs| >= 2 && okA {
      var e := s.files[i];
      NamedAt(s, t, i);
      HalfKeyed(e, 'a', FirstHalf(docs), t, s.puts + 1);
      HalfKeyed(e, 'b', SecondHalf(docs), t, s.puts + 1);
      var a, b := HalfEntry(name, 'a', FirstHalf(docs), e.born), HalfEntry(name, 'b', SecondHalf(docs), e.born);
      HalvesAreNew(s, i, a, b, t);
      if okB {
        SplitNamed(s, s', i, a, b, t);
        NamedDistinct(s', t);
        SplitBacked(s, s', i, a, b, docs);
        FoundInItems(s, name);
        HalvedAt(Items(s), Item(Stem(name), docs), i);
        SplitAgesIf(s.files, i, a, b);
      } else {
        TakenBack(s, s', a.name, Whole(FirstHalf(docs)));
        SameNames(s, s', t);
      }
    }
  }

  lemma NamedAt(s: State, t: nat, i: nat)
    requires Named(s, t) && i < |s.files|
    ensures NamedBefore(s.files[i], t, s.puts + 1)
  {}

  lemma SplitAgesIf(files: seq<Entry>, i: nat, a: Entry, b: Entry)
    requires i < |files| && a.born == files[i].born && b.born == files[i].born
    ensures AgeOrdered(files) ==> AgeOrdered(files[..i] + [a, b] + files[i + 1..])
  {
    if AgeOrdered(files) {
      SplitAges(files, i, a, b);
    }
  }

  /** A file that was written and deleted again, under a name the index does not have. */
  lemma TakenBack(s: State, s': State, name: string, c: Content)
    requires Indexed(s) && s' == s.(disk := s.disk[name := c] - {name})
    requires forall j :: 0 <= j < |s.files| ==> s.files[j].name != name
    ensures Indexed(s') && Items(s') == Items(s)
  {
    hide Stem, Body;
    forall j | 0 <= j < |s.files| ensures Backed(s'.disk, s.files[j]) && s'.disk[s.files[j].name] == s.disk[s.files[j].name] {
      assert Backed(s.disk, s.files[j]);
    }
    assert Items(s') == Items(s);
  }

  lemma SameNames(s: State, s': State, t: nat)
    requires Named(s, t) && s'.files == s.files && s'.puts == s.puts
    ensures Named(s', t)
  {}
}
