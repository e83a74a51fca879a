/** A crash between any two file operations of a spool write or a split
    (internal/exporters/loom/spool.go), and what the next start reads back. */
module LoomCrash {
  import opened LoomNames
  import opened LoomQueues
  import opened LoomSpool
  import opened LoomSpoolLaws
  import opened LoomSpoolOps
  import opened LoomReopen
  import opened LoomRestart

  type Dir = map<string, Content>

  datatype FileOp =
    | Create(name: string)
    | Fill(name: string, docs: seq<Doc>)
    | Rename(from: string, to: string)
    | Delete(name: string)

  function Apply(d: Dir, op: FileOp): Dir {
    match op
    case Create(name) => d[name := Partial]
    case Fill(name, docs) => d[name := Whole(docs)]
    case Rename(from, to) => if from in d then (d - {from})[to := d[from]] else d
    case Delete(name) => d - {name}
  }

  /** The directory after the first k operations. */
  function AfterOps(d: Dir, ops: seq<FileOp>, k: nat): Dir
    requires k <= |ops|
  {
    if k == 0 then d else Apply(AfterOps(d, ops, k - 1), ops[k - 1])
  }

  lemma {:induction false} OpsTwoParts(d: Dir, x: seq<FileOp>, y: seq<FileOp>, k: nat)
    requires k <= |x + y|
    ensures AfterOps(d, x + y, k) == if k <= |x| then AfterOps(d, x, k) else AfterOps(AfterOps(d, x, |x|), y, k - |x|)
    decreases k
  {
    if k > 0 {
      OpsTwoParts(d, x, y, k - 1);
      assert k <= |x| ==> (x + y)[k - 1] == x[k - 1];
      assert k > |x| ==> (x + y)[k - 1] == y[k - 1 - |x|];
    }
  }

  function Temporary(name: string): string {
    name + ".tmp"
  }

  /** write: a temporary file is made, filled and synced, and then takes the name. */
  function WriteOps(name: string, docs: seq<Doc>): (ops: seq<FileOp>)
    ensures |ops| == 3
  {
    [Create(Temporary(name)), Fill(Temporary(name), docs), Rename(Temporary(name), name)]
  }

  lemma TemporaryIsNoSpoolFile(name: string)
    ensures !IsSpoolFile(Temporary(name))
  {
    hide ParseName;
    var t := Temporary(name);
    assert t[|t| - 4..] == ".tmp";
  }

  /** At whatever point a write is cut off, the directory a restart reads is the old one, or the old one with the
      whole batch added: no name it reads is ever partly written. */
  lemma WriteCutOff(d: Dir, name: string, docs: seq<Doc>, k: nat, x: string)
    requires k <= 3 && IsSpoolFile(x) && IsSpoolFile(name)
    ensures var e := AfterOps(d, WriteOps(name, docs), k);
      && (x != name || k < 3 ==> (x in e <==> x in d) && (x in d ==> e[x] == d[x]))
      && (k == 3 ==> name in e && e[name] == Whole(docs))
  {
    hide IsSpoolFile;
    TemporaryIsNoSpoolFile(name);
    var t, ops := Temporary(name), WriteOps(name, docs);
    var d1 := Apply(d, ops[0]);
    var d2 := Apply(d1, ops[1]);
    assert k >= 1 ==> AfterOps(d, ops, 1) == d1 by { assert AfterOps(d, ops, 0) == d; }
    assert k >= 2 ==> AfterOps(d, ops, 2) == d2;
    assert k >= 3 ==> AfterOps(d, ops, 3) == Apply(d2, ops[2]);
  }

  /** The whole write amounts to setting the name. */
  lemma WriteDone(d: Dir, name: string, docs: seq<Doc>)
    requires Temporary(name) !in d
    ensures AfterOps(d, WriteOps(name, docs), 3) == d[name := Whole(docs)]
  {
    var t, ops := Temporary(name), WriteOps(name, docs);
    var d1 := Apply(d, ops[0]);
    var d2 := Apply(d1, ops[1]);
    assert AfterOps(d, ops, 0) == d;
    assert AfterOps(d, ops, 1) == d1;
    assert AfterOps(d, ops, 2) == d2;
    assert d2 - {t} == d;
  }

  // ---- Split ------------------------------------------------------------------------------------

  /** The file operations of a split that works: first half, second half, and only then the original goes. */
  function SplitOps(name: string, a: string, b: string, docs: seq<Doc>): (ops: seq<FileOp>)
    ensures |ops| == 7
  {
    WriteOps(a, FirstHalf(docs)) + (WriteOps(b, SecondHalf(docs)) + [Delete(name)])
  }

  ghost predicate Has(d: Dir, name: string, docs: seq<Doc>) {
    name in d && d[name] == Whole(docs)
  }

  lemma SplitCutOff(d: Dir, name: string, a: string, b: string, docs: seq<Doc>, k: nat, x: string)
    requires k <= 7 && Has(d, name, docs) && a != b && a != name && b != name
    requires IsSpoolFile(name) && IsSpoolFile(a) && IsSpoolFile(b) && IsSpoolFile(x)
    ensures var e := AfterOps(d, SplitOps(name, a, b, docs), k);
      && (Has(e, name, docs) || (Has(e, a, FirstHalf(docs)) && Has(e, b, SecondHalf(docs))))
      && (x != name && x != a && x != b && x in d ==> x in e && e[x] == d[x])
  {
    hide IsSpoolFile, WriteOps, FirstHalf, SecondHalf;
    var x1, x2 := WriteOps(a, FirstHalf(docs)), WriteOps(b, SecondHalf(docs));
    var last := [Delete(name)];
    OpsTwoParts(d, x1, x2 + last, k);
    WriteCutOff(d, a, FirstHalf(docs), if k <= 3 then k else 3, x);
    WriteCutOff(d, a, FirstHalf(docs), if k <= 3 then k else 3, name);
    if k > 3 {
      var d1 := AfterOps(d, x1, 3);
      var m := k - 3;
      OpsTwoParts(d1, x2, last, m);
      WriteCutOff(d1, b, SecondHalf(docs), if m <= 3 then m else 3, x);
      WriteCutOff(d1, b, SecondHalf(docs), if m <= 3 then m else 3, name);
      WriteCutOff(d1, b, SecondHalf(docs), if m <= 3 then m else 3, a);
      if m > 3 {
        var d2 := AfterOps(d1, x2, 3);
        assert AfterOps(d2, last, 0) == d2;
        assert AfterOps(d2, last, 1) == d2 - {name};
      }
    }
  }

  /** When nothing is cut off, these operations leave the directory Split is said to leave. */
  lemma SplitDone(d: Dir, name: string, a: string, b: string, docs: seq<Doc>)
    requires Temporary(a) !in d && Temporary(b) !in d && Temporary(b) != a
    ensures AfterOps(d, SplitOps(name, a, b, docs), 7)
            == d[a := Whole(FirstHalf(docs))][b := Whole(SecondHalf(docs))] - {name}
  {
    hide WriteOps, FirstHalf, SecondHalf;
    var x1, x2 := WriteOps(a, FirstHalf(docs)), WriteOps(b, SecondHalf(docs));
    var last := [Delete(name)];
    OpsTwoParts(d, x1, x2 + last, 7);
    WriteDone(d, a, FirstHalf(docs));
    var d1 := d[a := Whole(FirstHalf(docs))];
    OpsTwoParts(d1, x2, last, 4);
    WriteDone(d1, b, SecondHalf(docs));
    var d2 := d1[b := Whole(SecondHalf(docs))];
    assert AfterOps(d2, last, 0) == d2;
    assert AfterOps(d2, last, 1) == d2 - {name};
  }

  /** A document is in some file that OpenSpool reads. */
  ghost predicate Readable(d: Dir, doc: Doc) {
    exists x :: x in d && IsSpoolFile(x) && d[x].Whole? && doc in d[x].docs
  }

  lemma ReadableIn(d: Dir, x: string, docs: seq<Doc>, doc: Doc)
    requires Has(d, x, docs) && IsSpoolFile(x) && doc in docs
    ensures Readable(d, doc)
  {}

  lemma HalfIsSpoolFile(s: State, t: nat, i: nat, half: char, docs: seq<Doc>)
    requires RunInv(s, t) && i < |s.files| && (half == 'a' || half == 'b') && |docs| < INT64_LIMIT
    ensures IsSpoolFile(HalfName(s.files[i].name, half, |docs|))
  {
    hide ParseName, Indexed, Stem, Body;
    NamedAt(s, t, i);
    HalfKeyed(s.files[i], half, docs, t, s.puts + 1);
    var k := SpoolNameReads(HalfEntry(s.files[i].name, half, docs, s.files[i].born), t, s.puts + 1);
  }

  /** In any state a run of the spool reaches, a crash between any two file operations of a split leaves every
      document of the queue in a file the next start reads back. */
  lemma SplitCrashLosesNothing(s: State, t: nat, i: nat, docs: seq<Doc>, k: nat, doc: Doc)
    requires RunInv(s, t) && i < |s.files| && s.files[i].name in s.disk && s.disk[s.files[i].name] == Whole(docs)
    requires |docs| >= 2 && k <= 7 && Readable(s.disk, doc)
    ensures var name := s.files[i].name;
            var a, b := HalfName(name, 'a', |FirstHalf(docs)|), HalfName(name, 'b', |SecondHalf(docs)|);
            Readable(AfterOps(s.disk, SplitOps(name, a, b, docs), k), doc)
  {
    var x :| x in s.disk && IsSpoolFile(x) && s.disk[x].Whole? && doc in s.disk[x].docs;
    hide Indexed, Named, Stem, HalfName, IsSpoolFile, SplitOps, NamedBefore, Readable, AfterOps, Body;
    var name := s.files[i].name;
    var a, b := HalfName(name, 'a', |FirstHalf(docs)|), HalfName(name, 'b', |SecondHalf(docs)|);
    var e := AfterOps(s.disk, SplitOps(name, a, b, docs), k);
    SplitCounts(s, i, docs, t);
    HalfIsSpoolFile(s, t, i, 'a', FirstHalf(docs));
    HalfIsSpoolFile(s, t, i, 'b', SecondHalf(docs));
    RebornEntry(s, t, i);
    NewHalves(s, t, i, docs, x);
    SplitCutOff(s.disk, name, a, b, docs, k, x);
    if x != name {
      ReadableIn(e, x, s.disk[x].docs, doc);
    } else if Has(e, name, docs) {
      ReadableIn(e, name, docs, doc);
    } else {
      HalvesAddOneByte(docs);
      if doc in FirstHalf(docs) {
        ReadableIn(e, a, FirstHalf(docs), doc);
      } else {
        assert doc in FirstHalf(docs) + SecondHalf(docs);
        ReadableIn(e, b, SecondHalf(docs), doc);
      }
    }
  }

  /** No file of the directory has a half's name yet. */
  lemma NewHalves(s: State, t: nat, i: nat, docs: seq<Doc>, x: string)
    requires RunInv(s, t) && i < |s.files| && x in s.disk
    ensures var name := s.files[i].name;
            var a, b := HalfName(name, 'a', |FirstHalf(docs)|), HalfName(name, 'b', |SecondHalf(docs)|);
            a != b && a != name && b != name && x != a && x != b
  {
    hide Indexed, Stem, HalfName, NamedBefore, Body;
    var e := s.files[i];
    NamedAt(s, t, i);
    HalfKeyed(e, 'a', FirstHalf(docs), t, s.puts + 1);
    HalfKeyed(e, 'b', SecondHalf(docs), t, s.puts + 1);
    HalvesAreNew(s, i, HalfEntry(e.name, 'a', FirstHalf(docs), e.born), HalfEntry(e.name, 'b', SecondHalf(docs), e.born), t);
    assert x in NamesOf(s.files);
    var f :| f in s.files && f.name == x;
    var j :| 0 <= j < |s.files| && s.files[j] == f;
  }
}
