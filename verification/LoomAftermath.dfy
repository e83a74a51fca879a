/** The start after a crash inside Split: exactly which queue OpenSpool finds for every point the split may have stopped
    at, what still holds of it, and what no longer does (internal/exporters/loom/spool.go). */
module LoomAftermath {
  import opened Decimals
  import opened LoomNames
  import opened LoomQueues
  import opened LoomSpool
  import opened LoomSpoolLaws
  import opened LoomSpoolOps
  import opened LoomReopen
  import opened LoomRestart
  import opened LoomCrash

  // ---- what the directory holds ---------------------------------------------------------------------------

  /** The directory after the first k file operations of a split: the first half is there from the third on, the second from
      the sixth, and the original goes with the seventh. */
  lemma SplitCutExactly(d: Dir, name: string, a: string, b: string, docs: seq<Doc>, k: nat, x: string)
    requires k <= 7 && a != b && a != name && b != name
    requires IsSpoolFile(name) && IsSpoolFile(a) && IsSpoolFile(b) && IsSpoolFile(x)
    ensures var e := AfterOps(d, SplitOps(name, a, b, docs), k);
      && (x in e <==> (x in d && (x != name || k < 7)) || (x == a && k >= 3) || (x == b && k >= 6))
      && (x in e ==> e[x] == if x == a && k >= 3 then Whole(FirstHalf(docs))
                             else if x == b && k >= 6 then Whole(SecondHalf(docs)) else d[x])
  {
    hide IsSpoolFile, WriteOps, FirstHalf, SecondHalf;
    var x1, x2 := WriteOps(a, FirstHalf(docs)), WriteOps(b, SecondHalf(docs));
    var last := [Delete(name)];
    OpsTwoParts(d, x1, x2 + last, k);
    WriteCutOff(d, a, FirstHalf(docs), if k <= 3 then k else 3, x);
    if k > 3 {
      var d1 := AfterOps(d, x1, 3);
      var m := k - 3;
      OpsTwoParts(d1, x2, last, m);
      WriteCutOff(d1, b, SecondHalf(docs), if m <= 3 then m else 3, x);
      if m > 3 {
        var d2 := AfterOps(d1, x2, 3);
        assert AfterOps(d2, last, 0) == d2;
        assert AfterOps(d2, last, 1) == d2 - {name};
      }
    }
  }

  function HalfOf(e: Entry, half: char, docs: seq<Doc>): Entry {
    HalfEntry(e.name, half, if half == 'a' then FirstHalf(docs) else SecondHalf(docs), e.born)
  }

  /** The entries that stand in the place of e when its split stopped after k operations. */
  function Left(e: Entry, docs: seq<Doc>, k: nat): (r: seq<Entry>)
    ensures 1 <= |r| <= 3
  {
    var a, b := HalfOf(e, 'a', docs), HalfOf(e, 'b', docs);
    if k < 3 then [e] else if k < 6 then [e, a] else if k == 6 then [e, a, b] else [a, b]
  }

  function FilesLeft(files: seq<Entry>, i: nat, docs: seq<Doc>, k: nat): (r: seq<Entry>)
    requires i < |files|
  {
    files[..i] + Left(files[i], docs, k) + files[i + 1..]
  }

  /** Which entry of the index an entry left comes from, and the letter behind its stem, if it is a half. */
  function OriginAt(i: nat, len: nat, p: nat): nat
    requires len >= 1
  {
    if p < i then p else if p < i + len then i else p - len + 1
  }

  function PathAt(i: nat, k: nat, p: nat): string {
    if p < i then ""
    else
      var at := if k < 7 then p - i else p - i + 1;
      if at == 1 && k >= 3 then "a" else if at == 2 && k >= 6 then "b" else ""
  }

  /** A run's spool, and a batch of it that is being split. */
  ghost predicate Splitting(s: State, t: nat, i: nat, docs: seq<Doc>, k: nat) {
    && RunInv(s, t) && i < |s.files| && |docs| >= 2 && k <= 7
    && s.files[i].name in s.disk && s.disk[s.files[i].name] == Whole(docs)
  }

  ghost function DirLeft(s: State, i: nat, docs: seq<Doc>, k: nat): Dir
    requires i < |s.files| && k <= 7
  {
    var e := s.files[i];
    AfterOps(s.disk, SplitOps(e.name, HalfOf(e, 'a', docs).name, HalfOf(e, 'b', docs).name, docs), k)
  }

  lemma LeftAt(files: seq<Entry>, i: nat, docs: seq<Doc>, k: nat, p: nat)
    requires i < |files| && k <= 7 && p < |FilesLeft(files, i, docs, k)|
    ensures var m := OriginAt(i, |Left(files[i], docs, k)|, p);
            var path := PathAt(i, k, p);
      && m < |files| && (path != "" ==> m == i) && (path == "" || path == "a" || path == "b")
      && (path == "" && m == i ==> k < 7) && (path == "a" ==> k >= 3) && (path == "b" ==> k >= 6)
      && FilesLeft(files, i, docs, k)[p] == if path == "" then files[m] else HalfOf(files[i], path[0], docs)
  {
    hide HalfOf;
  }

  lemma SplittingHalves(s: State, t: nat, i: nat, docs: seq<Doc>, k: nat, half: char)
    requires Splitting(s, t, i, docs, k) && (half == 'a' || half == 'b')
    ensures var h := HalfOf(s.files[i], half, docs);
      && NamedBefore(h, t, s.puts + 1) && h.n < INT64_LIMIT && Stem(h.name) == Stem(s.files[i].name) + [half]
      && h.n == |if half == 'a' then FirstHalf(docs) else SecondHalf(docs)|
      && h.size == |Body(if half == 'a' then FirstHalf(docs) else SecondHalf(docs))|
  {
    hide Indexed, Stem, Body, NamedBefore, HalfName;
    NamedAt(s, t, i);
    SplitCounts(s, i, docs, t);
    HalfKeyed(s.files[i], half, if half == 'a' then FirstHalf(docs) else SecondHalf(docs), t, s.puts + 1);
  }

  lemma SplittingNames(s: State, t: nat, i: nat, docs: seq<Doc>, k: nat)
    requires Splitting(s, t, i, docs, k)
    ensures var name, a, b := s.files[i].name, HalfOf(s.files[i], 'a', docs).name, HalfOf(s.files[i], 'b', docs).name;
      && a != b && a != name && b != name && a !in s.disk && b !in s.disk
      && IsSpoolFile(name) && IsSpoolFile(a) && IsSpoolFile(b)
  {
    hide RunInv, IsSpoolFile, HalfName;
    var name, a, b := s.files[i].name, HalfOf(s.files[i], 'a', docs).name, HalfOf(s.files[i], 'b', docs).name;
    RebornEntry(s, t, i);
    SplitCounts(s, i, docs, t) by { HeldBody(s, t, i, docs); }
    HalfIsSpoolFile(s, t, i, 'a', FirstHalf(docs));
    HalfIsSpoolFile(s, t, i, 'b', SecondHalf(docs));
    forall x | x in s.disk ensures a != b && a != name && b != name && x != a && x != b {
      NewHalves(s, t, i, docs, x);
    }
  }

  lemma HeldBody(s: State, t: nat, i: nat, docs: seq<Doc>)
    requires RunInv(s, t) && i < |s.files| && s.files[i].name in s.disk && s.disk[s.files[i].name] == Whole(docs)
    ensures AllBacked(s) && HoldsBody(s, s.files[i].name, docs)
  {
    hide Backed, Named;
  }

  function HalfDocs(docs: seq<Doc>, half: char): seq<Doc> {
    if half == 'a' then FirstHalf(docs) else SecondHalf(docs)
  }

  lemma OldEntry(s: State, t: nat, m: nat)
    requires RunInv(s, t) && m < |s.files|
    ensures Backed(s.disk, s.files[m]) && NamedBefore(s.files[m], t, s.puts + 1) && s.files[m].n < INT64_LIMIT && IsSpoolFile(s.files[m].name)
  {
    hide IsSpoolFile, NamedBefore;
    RebornEntry(s, t, m);
    NamedAt(s, t, m);
  }

  lemma OldIsOther(s: State, t: nat, i: nat, m: nat)
    requires RunInv(s, t) && m < |s.files| && i < |s.files| && m != i
    ensures s.files[m].name != s.files[i].name
  {
    hide Backed, Named;
  }

  /** An entry whose file is there as it was. */
  lemma OldLeft(s: State, t: nat, i: nat, docs: seq<Doc>, k: nat, m: nat)
    requires Splitting(s, t, i, docs, k) && m < |s.files| && (m != i || k < 7)
    ensures var dir := DirLeft(s, i, docs, k);
            Backed(dir, s.files[m]) && dir[s.files[m].name] == s.disk[s.files[m].name]
  {
    hide RunInv, IsSpoolFile, Body, HalfOf, SplitOps, AfterOps, NamedBefore;
    OldEntry(s, t, m);
    SplittingNames(s, t, i, docs, k);
    if m != i {
      OldIsOther(s, t, i, m);
    }
    SplitCutExactly(s.disk, s.files[i].name, HalfOf(s.files[i], 'a', docs).name, HalfOf(s.files[i], 'b', docs).name, docs, k,
                    s.files[m].name);
  }

  /** A half that has been written. */
  lemma HalfLeft(s: State, t: nat, i: nat, docs: seq<Doc>, k: nat, half: char)
    requires Splitting(s, t, i, docs, k) && ((half == 'a' && k >= 3) || (half == 'b' && k >= 6))
    ensures var h, dir := HalfOf(s.files[i], half, docs), DirLeft(s, i, docs, k);
            Backed(dir, h) && dir[h.name] == Whole(HalfDocs(docs, half)) && IsSpoolFile(h.name)
  {
    hide RunInv, IsSpoolFile, Body, HalfOf, SplitOps, AfterOps, NamedBefore, Stem;
    SplittingNames(s, t, i, docs, k);
    SplittingHalves(s, t, i, docs, k, half);
    SplitCutExactly(s.disk, s.files[i].name, HalfOf(s.files[i], 'a', docs).name, HalfOf(s.files[i], 'b', docs).name, docs, k,
                    HalfOf(s.files[i], half, docs).name);
  }

  ghost predicate GoodEntry(dir: Dir, f: Entry, t: nat, number: nat) {
    Backed(dir, f) && NamedBefore(f, t, number) && f.n < INT64_LIMIT && IsSpoolFile(f.name)
  }

  /** Every entry left has its file, whole and as the entry says. */
  lemma LeftBacked(s: State, t: nat, i: nat, docs: seq<Doc>, k: nat, p: nat)
    requires Splitting(s, t, i, docs, k) && p < |FilesLeft(s.files, i, docs, k)|
    ensures GoodEntry(DirLeft(s, i, docs, k), FilesLeft(s.files, i, docs, k)[p], t, s.puts + 1)
  {
    var m, path := OriginAt(i, |Left(s.files[i], docs, k)|, p), PathAt(i, k, p);
    hide Splitting, IsSpoolFile, Stem, Body, FilesLeft, OriginAt, PathAt, Left, HalfOf, DirLeft, NamedBefore, Backed;
    SplittingIs(s, t, i, docs, k);
    LeftAt(s.files, i, docs, k, p);
    if path == "" {
      OldEntry(s, t, m);
      OldLeft(s, t, i, docs, k, m);
    } else {
      SplittingHalves(s, t, i, docs, k, path[0]);
      HalfLeft(s, t, i, docs, k, path[0]);
    }
  }

  lemma SplittingIs(s: State, t: nat, i: nat, docs: seq<Doc>, k: nat)
    requires Splitting(s, t, i, docs, k)
    ensures RunInv(s, t) && i < |s.files| && |docs| >= 2 && k <= 7
  {
    hide RunInv;
  }

  // ---- the order a start finds ----------------------------------------------------------------------------

  /** e's stem is f's, with a letter behind it. */
  lemma WholeBeforeHalf(e: Entry, f: Entry, half: char, t: nat, number: nat)
    requires NamedBefore(e, t, number) && NamedBefore(f, t, number) && Stem(f.name) == Stem(e.name) + [half] && half > '-'
    ensures Less(e.name, f.name)
  {
    hide StemOf, Stem, Less, Decimal;
    var k :| KeyedBy(e, k) && Earlier(k, t, number);
    var l :| KeyedBy(f, l) && Earlier(l, t, number);
    StemOfName(StemOf(k), e.n);
    StemOfName(StemOf(l), f.n);
    var x := StemOf(k);
    assert StemOf(l) == x + [half];
    assert e.name[..|x|] == x && e.name[|x|] == '-';
    assert f.name[..|x|] == x && f.name[|x|] == half;
    assert DivergesAt(e.name, f.name, |x|);
    DivergesIsLess(e.name, f.name);
  }

  lemma StemsInOrder(e: Entry, f: Entry, x: string, y: string, u: string, v: string, t: nat, number: nat)
    requires NamedBefore(e, t, number) && NamedBefore(f, t, number) && Diverges(x, y)
    requires Stem(e.name) == x + u && Stem(f.name) == y + v
    ensures Less(e.name, f.name)
  {
    hide Diverges, NamedBefore, Stem, Less;
    DivergesExtends(x, y, u, v);
    NamesInOrder(e, f, t, number);
  }

  lemma LeftInOrder(s: State, t: nat, i: nat, docs: seq<Doc>, k: nat, p: nat, q: nat)
    requires Splitting(s, t, i, docs, k) && p < q < |FilesLeft(s.files, i, docs, k)|
    ensures Less(FilesLeft(s.files, i, docs, k)[p].name, FilesLeft(s.files, i, docs, k)[q].name)
  {
    var e, f := FilesLeft(s.files, i, docs, k)[p], FilesLeft(s.files, i, docs, k)[q];
    var m, u := OriginAt(i, |Left(s.files[i], docs, k)|, p), PathAt(i, k, p);
    var n, v := OriginAt(i, |Left(s.files[i], docs, k)|, q), PathAt(i, k, q);
    hide Splitting, FilesLeft, OriginAt, PathAt, Left, Less, Stem, NamedBefore, Diverges;
    LeftStem(s, t, i, docs, k, p);
    LeftStem(s, t, i, docs, k, q);
    LeftLength(s.files[i], docs, k);
    SplittingIs(s, t, i, docs, k);
    OriginsInOrder(i, |Left(s.files[i], docs, k)|, k, p, q);
    if m < n {
      OrderedStems(s, t, m, n);
      StemsInOrder(e, f, Stem(s.files[m].name), Stem(s.files[n].name), u, v, t, s.puts + 1);
    } else if u == "" {
      assert Stem(s.files[m].name) + "" == Stem(s.files[m].name) && v == [v[0]];
      WholeBeforeHalf(e, f, v[0], t, s.puts + 1);
    } else {
      HalvesDiverge(Stem(s.files[m].name));
      NamesInOrder(e, f, t, s.puts + 1);
    }
  }

  lemma LeftLength(e: Entry, docs: seq<Doc>, k: nat)
    requires k <= 7
    ensures |Left(e, docs, k)| == if k < 3 then 1 else if k < 6 then 2 else if k == 6 then 3 else 2
  {
    hide HalfOf;
  }

  lemma OrderedStems(s: State, t: nat, m: nat, n: nat)
    requires RunInv(s, t) && m < n < |s.files|
    ensures Diverges(Stem(s.files[m].name), Stem(s.files[n].name))
  {
    hide Indexed, Stem, Diverges, NamedBefore;
  }

  lemma OriginsInOrder(i: nat, len: nat, k: nat, p: nat, q: nat)
    requires p < q && k <= 7 && len == if k < 3 then 1 else if k < 6 then 2 else if k == 6 then 3 else 2
    ensures var m, n, u, v := OriginAt(i, len, p), OriginAt(i, len, q), PathAt(i, k, p), PathAt(i, k, q);
            m < n || (m == n && ((u == "" && (v == "a" || v == "b")) || (u == "a" && v == "b")))
  {}

  lemma LeftStem(s: State, t: nat, i: nat, docs: seq<Doc>, k: nat, p: nat)
    requires Splitting(s, t, i, docs, k) && p < |FilesLeft(s.files, i, docs, k)|
    ensures var f := FilesLeft(s.files, i, docs, k)[p];
            var m, path := OriginAt(i, |Left(s.files[i], docs, k)|, p), PathAt(i, k, p);
      && NamedBefore(f, t, s.puts + 1) && m < |s.files| && Stem(f.name) == Stem(s.files[m].name) + path
  {
    var m, path := OriginAt(i, |Left(s.files[i], docs, k)|, p), PathAt(i, k, p);
    hide Splitting, IsSpoolFile, Stem, Body, FilesLeft, OriginAt, PathAt, Left, HalfOf, NamedBefore, RunInv, Backed;
    SplittingIs(s, t, i, docs, k);
    LeftAt(s.files, i, docs, k, p);
    if path == "" {
      OldEntry(s, t, m);
      NoPath(Stem(s.files[m].name));
    } else if path == "a" {
      HalfStem(s, t, i, docs, k, 'a');
    } else {
      HalfStem(s, t, i, docs, k, 'b');
    }
  }

  lemma NoPath(x: string)
    ensures x + "" == x
  {}

  lemma HalfStem(s: State, t: nat, i: nat, docs: seq<Doc>, k: nat, half: char)
    requires Splitting(s, t, i, docs, k) && (half == 'a' || half == 'b')
    ensures NamedBefore(HalfOf(s.files[i], half, docs), t, s.puts + 1)
    ensures Stem(HalfOf(s.files[i], half, docs).name) == Stem(s.files[i].name) + [half]
  {
    hide Splitting, Stem, Body, HalfOf, NamedBefore;
    SplittingHalves(s, t, i, docs, k, half);
  }

  // ---- what the start finds ---------------------------------------------------------------------------------

  /** A sorted list of exactly the spool files is what a start finds. */
  lemma FoundIs(found: seq<Entry>, files: seq<Entry>, disk: Dir)
    requires Lists(found, disk) && Sorted(found) && Sorted(files)
    requires forall name :: name in disk && IsSpoolFile(name) ==> exists i :: 0 <= i < |files| && files[i].name == name
    requires forall i :: 0 <= i < |files| ==> files[i].name in disk && IsSpoolFile(files[i].name) && files[i] == EntryOf(files[i].name, disk[files[i].name])
    ensures found == files
  {
    hide IsSpoolFile, Sorted, EntryOf;
    forall e ensures e in found <==> e in files {
      if e in found {
        var i :| 0 <= i < |found| && found[i] == e;
        var j :| 0 <= j < |files| && files[j].name == e.name;
        assert files[j] == e;
      }
      if e in files {
        var j :| 0 <= j < |files| && files[j] == e;
        var i :| 0 <= i < |found| && found[i].name == e.name;
        assert found[i] == e;
      }
    }
    SortedUnique(found, files);
  }

  /** Every spool file of the directory is the file of an entry left. */
  lemma NothingElse(s: State, t: nat, i: nat, docs: seq<Doc>, k: nat, x: string) returns (p: nat)
    requires Splitting(s, t, i, docs, k) && x in DirLeft(s, i, docs, k) && IsSpoolFile(x)
    ensures p < |FilesLeft(s.files, i, docs, k)| && FilesLeft(s.files, i, docs, k)[p].name == x
  {
    hide RunInv, IsSpoolFile, HalfOf, SplitOps, AfterOps;
    var e, left := s.files[i], Left(s.files[i], docs, k);
    var a, b := HalfOf(e, 'a', docs).name, HalfOf(e, 'b', docs).name;
    SplittingNames(s, t, i, docs, k);
    SplitCutExactly(s.disk, e.name, a, b, docs, k, x);
    if x == a && k >= 3 {
      p := if k < 7 then i + 1 else i;
    } else if x == b && k >= 6 {
      p := if k < 7 then i + 2 else i + 1;
    } else {
      var m := IndexOf(s, t, x);
      p := if m <= i then m else m - 1 + |left|;
    }
  }

  lemma IndexOf(s: State, t: nat, x: string) returns (m: nat)
    requires RunInv(s, t) && x in s.disk
    ensures m < |s.files| && s.files[m].name == x
  {
    hide Indexed, Named;
    assert x in NamesOf(s.files);
    var f :| f in s.files && f.name == x;
    m :| 0 <= m < |s.files| && s.files[m] == f;
  }

  lemma RebornGood(dir: Dir, f: Entry, t: nat, number: nat)
    requires GoodEntry(dir, f, t, number)
    ensures f.name in dir && EntryOf(f.name, dir[f.name]) == Reborn(f) && IsSpoolFile(f.name)
  {
    hide ParseName, Body, NamedBefore;
    var k := SpoolNameReads(f, t, number);
  }

  /** The start after the crash finds exactly the entries left, in this order. */
  lemma CrashFinds(s: State, t: nat, i: nat, docs: seq<Doc>, k: nat, s': State)
    requires Splitting(s, t, i, docs, k) && Restarted(s.(disk := DirLeft(s, i, docs, k)), s')
    ensures s'.files == RebornAll(FilesLeft(s.files, i, docs, k))
  {
    var dir, left := DirLeft(s, i, docs, k), FilesLeft(s.files, i, docs, k);
    var files := RebornAll(left);
    hide Splitting, FilesLeft, DirLeft, Lists, IsSpoolFile, EntryOf, Reborn, GoodEntry, WithoutTemporary, SizeSum;
    forall p | 0 <= p < |files| ensures files[p].name in dir && IsSpoolFile(files[p].name) && files[p] == EntryOf(files[p].name, dir[files[p].name]) {
      LeftBacked(s, t, i, docs, k, p);
      RebornGood(dir, left[p], t, s.puts + 1);
      RebornName(left[p]);
    }
    forall name | name in dir && IsSpoolFile(name) ensures exists p :: 0 <= p < |files| && files[p].name == name {
      var p := NothingElse(s, t, i, docs, k, name);
      RebornName(left[p]);
      assert files[p].name == name;
    }
    assert Sorted(files) by {
      forall p, q | 0 <= p < q < |files| ensures Less(files[p].name, files[q].name) {
        LeftInOrder(s, t, i, docs, k, p, q);
        RebornName(left[p]);
        RebornName(left[q]);
      }
    }
    FoundIs(s'.files, files, dir);
  }

  lemma RebornName(e: Entry)
    ensures Reborn(e).name == e.name && Reborn(e).n == e.n && Reborn(e).size == e.size
  {
    hide ParseName;
  }

  /** What stands in the place of a batch whose split stopped after k operations: the batch; the batch and its first half;
      the batch and both halves; or the halves. */
  function LeftItems(it: Item, k: nat): (r: seq<Item>) {
    var h := Halves(it);
    if k < 3 then [it] else if k < 6 then [it, h[0]] else if k == 6 then [it, h[0], h[1]] else h
  }

  function ItemsLeft(q: seq<Item>, i: nat, k: nat): (r: seq<Item>)
    requires i < |q|
  {
    q[..i] + LeftItems(q[i], k) + q[i + 1..]
  }

  lemma ItemsLeftAt(q: seq<Item>, i: nat, k: nat, p: nat, len: nat)
    requires i < |q| && k <= 7 && p < |q| - 1 + len && len == if k < 3 then 1 else if k < 6 then 2 else if k == 6 then 3 else 2
    ensures |ItemsLeft(q, i, k)| == |q| - 1 + len
    ensures var m, path := OriginAt(i, len, p), PathAt(i, k, p);
      && m < |q|
      && ItemsLeft(q, i, k)[p] == if path == "" then q[m] else if path == "a" then Halves(q[i])[0] else Halves(q[i])[1]
  {
    hide FirstHalf, SecondHalf;
  }

  /** The file of the entry is the batch. */
  ghost predicate StandsFor(dir: Dir, f: Entry, it: Item) {
    f.name in dir && dir[f.name].Whole? && it == Item(Stem(f.name), dir[f.name].docs)
  }

  lemma LeftItem(s: State, t: nat, i: nat, docs: seq<Doc>, k: nat, p: nat)
    requires Splitting(s, t, i, docs, k) && AllBacked(s) && p < |FilesLeft(s.files, i, docs, k)|
    ensures var f, dir := FilesLeft(s.files, i, docs, k)[p], DirLeft(s, i, docs, k);
      p < |ItemsLeft(Items(s), i, k)| && StandsFor(dir, f, ItemsLeft(Items(s), i, k)[p])
  {
    var len := |Left(s.files[i], docs, k)|;
    var m, path := OriginAt(i, len, p), PathAt(i, k, p);
    LeftCount(s.files, i, docs, k);
    hide Splitting, IsSpoolFile, Stem, Body, FilesLeft, ItemsLeft, OriginAt, PathAt, Left, HalfOf, NamedBefore, RunInv, DirLeft,
         FirstHalf, SecondHalf, Backed;
    SplittingIs(s, t, i, docs, k);
    LeftLength(s.files[i], docs, k);
    LeftAt(s.files, i, docs, k, p);
    ItemsLeftAt(Items(s), i, k, p, len);
    ItemOfSplit(s, t, i, docs, k);
    if path == "" {
      OldLeft(s, t, i, docs, k, m);
      BackedWhole(DirLeft(s, i, docs, k), s.files[m]);
    } else {
      var half := path[0];
      HalfStem(s, t, i, docs, k, half);
      HalfLeft(s, t, i, docs, k, half);
      BackedWhole(DirLeft(s, i, docs, k), HalfOf(s.files[i], half, docs));
      assert path == [half];
    }
  }

  lemma BackedWhole(dir: Dir, e: Entry)
    requires Backed(dir, e)
    ensures e.name in dir && dir[e.name].Whole?
  {
    hide Body;
  }

  lemma LeftCount(files: seq<Entry>, i: nat, docs: seq<Doc>, k: nat)
    requires i < |files|
    ensures |FilesLeft(files, i, docs, k)| == |files| - 1 + |Left(files[i], docs, k)|
  {
    hide Left;
  }

  lemma ItemOfSplit(s: State, t: nat, i: nat, docs: seq<Doc>, k: nat)
    requires Splitting(s, t, i, docs, k) && AllBacked(s)
    ensures Items(s)[i] == Item(Stem(s.files[i].name), docs)
  {
    hide RunInv, Stem, Backed;
  }

  /** Names that a start finds in order are of ages in order. */
  lemma AgesInOrder(e: Entry, f: Entry, t: nat, number: nat)
    requires NamedBefore(e, t, number) && NamedBefore(f, t, number) && e.n < INT64_LIMIT && f.n < INT64_LIMIT && Less(e.name, f.name)
    ensures Reborn(e).born <= Reborn(f).born
  {
    hide Less, StemOf, NameOf, ParseName, NamedBefore, Diverges;
    var k := SpoolNameReads(e, t, number);
    var l := SpoolNameReads(f, t, number);
    if l.nanos < k.nanos {
      LaterStemDiverges(l, k);
      NamesSortLikeStems(StemOf(l), StemOf(k), f.n, e.n);
      LessAsymmetric(e.name, f.name);
    }
  }

  /** After a crash at any point of a split, the start finds the queue as it was, with the batch, the batch and what had been
      written of its halves, or its halves in its place: every document at least once, in order, and the ages in order. */
  lemma CrashReopens(s: State, t: nat, i: nat, docs: seq<Doc>, k: nat, s': State)
    requires Splitting(s, t, i, docs, k) && Restarted(s.(disk := DirLeft(s, i, docs, k)), s')
    ensures AllBacked(s) && Indexed(s') && AllBacked(s') && i < |Items(s)|
    ensures Items(s') == ItemsLeft(Items(s), i, k) && AgeOrdered(s'.files)
  {
    var dir, left := DirLeft(s, i, docs, k), FilesLeft(s.files, i, docs, k);
    hide Splitting, FilesLeft, ItemsLeft, DirLeft, Lists, SizeSum, WithoutTemporary, GoodEntry, StandsFor, AllBacked, AgeOrdered, Items,
         DistinctNames, Sorted, RebornAll;
    CrashFinds(s, t, i, docs, k, s');
    SplittingBacked(s, t, i, docs, k);
    ItemsLeftCount(s, t, i, docs, k);
    forall p | 0 <= p < |left| ensures GoodEntry(dir, left[p], t, s.puts + 1) && StandsFor(dir, left[p], ItemsLeft(Items(s), i, k)[p]) {
      LeftBacked(s, t, i, docs, k, p);
      LeftItem(s, t, i, docs, k, p);
    }
    FoundItems(dir, left, s', ItemsLeft(Items(s), i, k), t, s.puts + 1);
    LeftDistinct(s, t, i, docs, k, s');
    LeftAges(s, t, i, docs, k, s');
  }

  lemma ItemsLeftCount(s: State, t: nat, i: nat, docs: seq<Doc>, k: nat)
    requires Splitting(s, t, i, docs, k) && AllBacked(s) && |Items(s)| == |s.files|
    ensures |ItemsLeft(Items(s), i, k)| == |FilesLeft(s.files, i, docs, k)|
  {
    hide RunInv, Items, HalfOf, AllBacked;
    LeftCount(s.files, i, docs, k);
    LeftLength(s.files[i], docs, k);
    ItemsLeftAt(Items(s), i, k, 0, |Left(s.files[i], docs, k)|);
  }

  /** A start that finds these entries has the batches their files hold. */
  lemma FoundItems(dir: Dir, left: seq<Entry>, s': State, q: seq<Item>, t: nat, number: nat)
    requires s'.files == RebornAll(left) && s'.disk == WithoutTemporary(dir, {}) && |q| == |left|
    requires forall p :: 0 <= p < |left| ==> GoodEntry(dir, left[p], t, number) && StandsFor(dir, left[p], q[p])
    ensures AllBacked(s') && Items(s') == q
  {
    hide GoodEntry, StandsFor, WithoutTemporary, Reborn, Stem, Backed;
    forall p | 0 <= p < |left| ensures Backed(s'.disk, s'.files[p]) {
      FoundEntry(dir, left[p], s'.disk, q[p], t, number);
    }
    forall p | 0 <= p < |left| ensures Items(s')[p] == q[p] {
      FoundEntry(dir, left[p], s'.disk, q[p], t, number);
    }
  }

  lemma FoundEntry(dir: Dir, f: Entry, disk: Dir, it: Item, t: nat, number: nat)
    requires GoodEntry(dir, f, t, number) && StandsFor(dir, f, it) && disk == WithoutTemporary(dir, {})
    ensures Reborn(f).name == f.name && Backed(disk, Reborn(f)) && it == Item(Stem(f.name), disk[f.name].docs)
  {
    hide IsSpoolFile, Body, Stem, HasSuffix, NamedBefore, Reborn;
    RebornName(f);
    NotTemporaryFile(f.name);
  }

  lemma SplittingBacked(s: State, t: nat, i: nat, docs: seq<Doc>, k: nat)
    requires Splitting(s, t, i, docs, k)
    ensures AllBacked(s) && |Items(s)| == |s.files|
  {
    hide Backed, Named, Tidy, Stem;
  }

  lemma NotTemporaryFile(name: string)
    requires IsSpoolFile(name)
    ensures !HasSuffix(name, ".tmp")
  {
    hide ParseName, HasSuffix;
  }

  lemma LeftDistinct(s: State, t: nat, i: nat, docs: seq<Doc>, k: nat, s': State)
    requires Splitting(s, t, i, docs, k) && s'.files == RebornAll(FilesLeft(s.files, i, docs, k))
    ensures DistinctNames(s'.files)
  {
    var left := FilesLeft(s.files, i, docs, k);
    hide Splitting, FilesLeft, Reborn, Less;
    forall p, q | 0 <= p < q < |left| ensures s'.files[p].name != s'.files[q].name {
      LeftInOrder(s, t, i, docs, k, p, q);
      LessAsymmetric(left[p].name, left[q].name);
      RebornName(left[p]);
      RebornName(left[q]);
    }
  }

  lemma LeftAges(s: State, t: nat, i: nat, docs: seq<Doc>, k: nat, s': State)
    requires Splitting(s, t, i, docs, k) && s'.files == RebornAll(FilesLeft(s.files, i, docs, k))
    ensures AgeOrdered(s'.files)
  {
    var left := FilesLeft(s.files, i, docs, k);
    hide Splitting, FilesLeft, Reborn, Less, DirLeft, Backed, IsSpoolFile, NamedBefore;
    forall p, q | 0 <= p < q < |left| ensures s'.files[p].born <= s'.files[q].born {
      LeftBacked(s, t, i, docs, k, p);
      LeftBacked(s, t, i, docs, k, q);
      LeftInOrder(s, t, i, docs, k, p, q);
      AgesInOrder(left[p], left[q], t, s.puts + 1);
    }
  }
}
