/** Restarting on a spool directory: OpenSpool of internal/exporters/loom/spool.go, and the index it rebuilds from
    sorted names. */
module LoomReopen {
  import opened Options
  import opened LoomNames
  import opened LoomQueues
  import opened LoomSpool
  import opened LoomSpoolLaws

  // ---- Go's string order is a strict total order --------------------------------------------

  lemma {:induction false} LessAsymmetric(s: string, t: string)
    requires Less(s, t)
    ensures !Less(t, s) && s != t
    decreases |s|
  {
    if s != "" && s[0] == t[0] {
      LessAsymmetric(s[1..], t[1..]);
    }
  }

  lemma {:induction false} LessTotal(s: string, t: string)
    ensures s == t || Less(s, t) || Less(t, s)
    decreases |s|
  {
    if s != "" && t != "" && s[0] == t[0] {
      LessTotal(s[1..], t[1..]);
      assert s == [s[0]] + s[1..] && t == [t[0]] + t[1..];
    }
  }

  lemma {:induction false} LessTransitive(s: string, t: string, u: string)
    requires Less(s, t) && Less(t, u)
    ensures Less(s, u)
    decreases |s|
  {
    if s != "" && s[0] == t[0] && t[0] == u[0] {
      LessTransitive(s[1..], t[1..], u[1..]);
    }
  }

  // ---- sorting entries by name --------------------------------------------------------------

  ghost predicate Sorted(files: seq<Entry>) {
    forall i, j :: 0 <= i < j < |files| ==> Less(files[i].name, files[j].name)
  }

  function InsertByName(files: seq<Entry>, e: Entry): (r: seq<Entry>)
    ensures multiset(r) == multiset(files) + multiset{e}
  {
    if files == [] || Less(e.name, files[0].name) then
      [e] + files
    else
      assert files == [files[0]] + files[1..];
      [files[0]] + InsertByName(files[1..], e)
  }

  /** sort.Slice by name. */
  function SortByName(files: seq<Entry>): (r: seq<Entry>)
    ensures multiset(r) == multiset(files)
  {
    if files == [] then []
    else
      assert files == files[..|files| - 1] + [files[|files| - 1]];
      InsertByName(SortByName(files[..|files| - 1]), files[|files| - 1])
  }

  lemma {:induction false} InsertSorted(files: seq<Entry>, e: Entry)
    requires Sorted(files) && forall i :: 0 <= i < |files| ==> files[i].name != e.name
    ensures Sorted(InsertByName(files, e))
  {
    if files == [] {
    } else if Less(e.name, files[0].name) {
      forall j | 0 < j < |files| ensures Less(e.name, files[j].name) {
        LessTransitive(e.name, files[0].name, files[j].name);
      }
    } else {
      var rest := InsertByName(files[1..], e);
      InsertSorted(files[1..], e);
      LessTotal(e.name, files[0].name);
      forall j | 0 <= j < |rest| ensures Less(files[0].name, rest[j].name) {
        assert rest[j] in multiset(rest);
        assert rest[j] in multiset(files[1..]) || rest[j] == e;
      }
    }
  }

  lemma {:induction false} SortSorts(files: seq<Entry>)
    requires DistinctNames(files)
    ensures Sorted(SortByName(files))
  {
    if files != [] {
      var front, e := files[..|files| - 1], files[|files| - 1];
      SortSorts(front);
      var r := SortByName(front);
      forall i | 0 <= i < |r| ensures r[i].name != e.name {
        assert r[i] in multiset(r);
        assert r[i] in multiset(front);
        var j :| 0 <= j < |front| && front[j] == r[i];
        assert files[j].name != files[|front|].name;
      }
      InsertSorted(r, e);
    }
  }

  lemma SameFirst(x: seq<Entry>, y: seq<Entry>)
    requires x != [] && y != [] && Sorted(x) && Sorted(y) && forall e :: e in x <==> e in y
    ensures x[0] == y[0]
  {
    hide Less;
    assert x[0] in y && y[0] in x;
    var i :| 0 <= i < |y| && y[i] == x[0];
    var j :| 0 <= j < |x| && x[j] == y[0];
    if i > 0 {
      LessAsymmetric(y[0].name, x[0].name);
    }
  }

  lemma NotAgain(x: seq<Entry>)
    requires x != [] && Sorted(x)
    ensures x[0] !in x[1..] && Sorted(x[1..])
  {
    hide Less;
    forall i | 0 < i < |x| ensures x[i] != x[0] {
      LessAsymmetric(x[0].name, x[i].name);
    }
  }

  /** There is only one sorted arrangement of a set of entries. */
  lemma {:induction false} SortedUnique(x: seq<Entry>, y: seq<Entry>)
    requires Sorted(x) && Sorted(y) && forall e :: e in x <==> e in y
    ensures x == y
    decreases |x|
  {
    hide Less, Sorted;
    assert x != [] ==> x[0] in x;
    assert y != [] ==> y[0] in y;
    if x != [] && y != [] {
      SameFirst(x, y);
      NotAgain(x);
      NotAgain(y);
      assert x == [x[0]] + x[1..] && y == [y[0]] + y[1..];
      forall e ensures e in x[1..] <==> e in y[1..] {
        assert e in x <==> e == x[0] || e in x[1..];
        assert e in y <==> e == y[0] || e in y[1..];
      }
      SortedUnique(x[1..], y[1..]);
    }
  }

  // ---- OpenSpool --------------------------------------------------------------------------------

  function FileSize(c: Content): nat {
    if c.Whole? then |Body(c.docs)| else 0
  }

  predicate IsSpoolFile(name: string) {
    !HasSuffix(name, ".tmp") && ParseName(name).Some?
  }

  function EntryOf(name: string, c: Content): Entry
    requires IsSpoolFile(name)
  {
    var p := ParseName(name).value;
    Entry(name, FileSize(c), p.n, p.nanos)
  }

  /** Exactly one entry for each spool file of the directory. */
  ghost predicate Lists(files: seq<Entry>, disk: map<string, Content>) {
    && DistinctNames(files)
    && (forall i :: 0 <= i < |files| ==> files[i].name in disk && IsSpoolFile(files[i].name)
                                         && files[i] == EntryOf(files[i].name, disk[files[i].name]))
    && (forall name :: name in disk && IsSpoolFile(name) ==> exists i :: 0 <= i < |files| && files[i].name == name)
  }

  /** The directory without its temporary files, as far as names outside todo are concerned. */
  function WithoutTemporary(disk: map<string, Content>, todo: set<string>): map<string, Content> {
    map name | name in disk && (name in todo || !HasSuffix(name, ".tmp")) :: disk[name]
  }

  /** The loop of OpenSpool over the directory, in any order. */
  method ReadDirectory(disk: map<string, Content>) returns (files: seq<Entry>, kept: map<string, Content>)
    ensures Lists(files, disk) && kept == WithoutTemporary(disk, {})
  {
    hide Lists, WithoutTemporary, ParseName, HasSuffix, Body;
    files, kept := [], disk;
    var todo := disk.Keys;
    NothingRead(disk);
    while todo != {}
      invariant todo <= disk.Keys
      invariant kept == WithoutTemporary(disk, todo)
      invariant Lists(files, disk - todo)
      decreases |todo|
    {
      var name :| name in todo;
      ghost var before := disk - todo;
      assert disk - (todo - {name}) == before[name := disk[name]];
      OneMoreRead(disk, todo, name);
      todo := todo - {name};
      if HasSuffix(name, ".tmp") {
        kept := kept - {name};
        ListsForeign(files, before, name, disk[name]);
      } else {
        var p := ParseName(name);
        if p.Some? {
          ListsOneMore(files, before, name, disk[name]);
          files := files + [Entry(name, FileSize(disk[name]), p.value.n, p.value.nanos)];
        } else {
          ListsForeign(files, before, name, disk[name]);
        }
      }
    }
    assert disk - {} == disk;
  }

  lemma NothingRead(disk: map<string, Content>)
    ensures WithoutTemporary(disk, disk.Keys) == disk && Lists([], disk - disk.Keys)
  {
    assert disk - disk.Keys == map[];
  }

  lemma OneMoreRead(disk: map<string, Content>, todo: set<string>, name: string)
    requires name in todo && todo <= disk.Keys
    ensures WithoutTemporary(disk, todo - {name})
            == if HasSuffix(name, ".tmp") then WithoutTemporary(disk, todo) - {name} else WithoutTemporary(disk, todo)
  {
    hide HasSuffix;
  }

  /** OpenSpool: a fresh object over an existing directory; temporary files go, foreign files stay unseen. */
  method OpenSpool(l: Limits, disk: map<string, Content>) returns (s: Spool)
    ensures fresh(s) && s.l == l
    ensures Lists(s.files, disk) && Sorted(s.files)
    ensures s.total == SizeSum(s.files) && s.puts == 0 && s.drops == []
    ensures s.disk == WithoutTemporary(disk, {})
    ensures forall name :: name in s.disk <==> name in disk && !HasSuffix(name, ".tmp")
    ensures forall name :: name in s.disk ==> s.disk[name] == disk[name]
  {
    FilesKept(disk);
    hide Lists, WithoutTemporary;
    s := new Spool(l);
    var files, kept := ReadDirectory(disk);
    s.disk := kept;
    DistinctList(files, disk);
    SortSorts(files);
    s.files := SortByName(files);
    ListsSorted(files, s.files, disk);
    var total := SumSizes(s.files);
    s.total := total;
  }

  lemma FilesKept(disk: map<string, Content>)
    ensures var kept := WithoutTemporary(disk, {});
      && (forall name :: name in kept <==> name in disk && !HasSuffix(name, ".tmp"))
      && (forall name :: name in kept ==> kept[name] == disk[name])
  {}

  lemma DistinctList(files: seq<Entry>, disk: map<string, Content>)
    requires Lists(files, disk)
    ensures DistinctNames(files)
  {}

  lemma ListsForeign(files: seq<Entry>, disk: map<string, Content>, name: string, c: Content)
    requires Lists(files, disk) && name !in disk && !IsSpoolFile(name)
    ensures Lists(files, disk[name := c])
  {
    hide ParseName, HasSuffix, Body;
  }

  lemma ListsOneMore(files: seq<Entry>, disk: map<string, Content>, name: string, c: Content)
    requires Lists(files, disk) && name !in disk && IsSpoolFile(name)
    ensures Lists(files + [EntryOf(name, c)], disk[name := c])
  {
    hide ParseName, HasSuffix, Body;
    var r := files + [EntryOf(name, c)];
    forall x | x in disk[name := c] && IsSpoolFile(x) ensures exists i :: 0 <= i < |r| && r[i].name == x {
      if x == name {
        assert r[|files|].name == x;
      } else {
        var i :| 0 <= i < |files| && files[i].name == x;
        assert r[i].name == x;
      }
    }
  }

  lemma ListsSorted(files: seq<Entry>, sorted: seq<Entry>, disk: map<string, Content>)
    requires Lists(files, disk) && Sorted(sorted) && multiset(sorted) == multiset(files)
    ensures Lists(sorted, disk)
  {
    hide ParseName, HasSuffix, Body, Less;
    forall i, j | 0 <= i < j < |sorted| ensures sorted[i].name != sorted[j].name {
      LessAsymmetric(sorted[i].name, sorted[j].name);
    }
    forall i | 0 <= i < |sorted| ensures sorted[i] in files {
      assert sorted[i] in multiset(sorted);
    }
    forall x | x in disk && IsSpoolFile(x) ensures exists i :: 0 <= i < |sorted| && sorted[i].name == x {
      var i :| 0 <= i < |files| && files[i].name == x;
      assert files[i] in multiset(files);
      assert files[i] in sorted;
    }
  }

  method SumSizes(files: seq<Entry>) returns (n: nat)
    ensures n == SizeSum(files)
  {
    n := 0;
    var i := |files|;
    while i > 0
      invariant 0 <= i <= |files| && n == SizeSum(files[i..])
    {
      i := i - 1;
      assert files[i..][1..] == files[i + 1..];
      n := n + files[i].size;
    }
    assert files[0..] == files;
  }
}
