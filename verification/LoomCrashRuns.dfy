/** What a run may do after a crash inside Split: names stay unique exactly when the crash left no batch beside a half of it;
    otherwise a half can be queued twice, reported as corrupt after it was delivered, or posted again
    (internal/exporters/loom/spool.go). */
module LoomCrashRuns {
  import opened Options
  import opened LoomNames
  import opened LoomQueues
  import opened LoomSpool
  import opened LoomSpoolLaws
  import opened LoomReopen
  import opened LoomRestart
  import opened LoomAftermath
  import opened LoomDeliveryLaws
  import opened LoomCollide
  import D = LoomDelivery
  import LoomLink

  /** Identities that differ at a place both have. */
  ghost predicate Apart(q: seq<Item>) {
    forall m, n :: 0 <= m < n < |q| ==> Diverges(q[m].id, q[n].id)
  }

  lemma RunIsApart(s: State, t: nat)
    requires RunInv(s, t)
    ensures AllBacked(s) && Apart(Items(s))
  {
    hide Stem, Backed, NamedBefore, Diverges, Tidy;
    forall m, n | 0 <= m < n < |s.files| ensures Diverges(Items(s)[m].id, Items(s)[n].id) {
      OrderedStems(s, t, m, n);
    }
  }

  lemma LeftId(q: seq<Item>, i: nat, k: nat, p: nat, len: nat)
    requires i < |q| && k <= 7 && p < |q| - 1 + len && len == if k < 3 then 1 else if k < 6 then 2 else if k == 6 then 3 else 2
    ensures |ItemsLeft(q, i, k)| == |q| - 1 + len && OriginAt(i, len, p) < |q|
    ensures ItemsLeft(q, i, k)[p].id == q[OriginAt(i, len, p)].id + PathAt(i, k, p)
  {
    hide ItemsLeft, OriginAt, FirstHalf, SecondHalf;
    ItemsLeftAt(q, i, k, p, len);
    PathMeansHere(i, k, p, len);
    NoPath(q[OriginAt(i, len, p)].id);
  }

  lemma PathMeansHere(i: nat, k: nat, p: nat, len: nat)
    requires k <= 7 && len == if k < 3 then 1 else if k < 6 then 2 else if k == 6 then 3 else 2
    ensures var path := PathAt(i, k, p);
      (path == "" || path == "a" || path == "b") && (path != "" && p < i + len ==> OriginAt(i, len, p) == i)
    ensures PathAt(i, k, p) != "" ==> p < i + len
  {}

  /** Of two batches left, the later is not halved into the earlier, and the earlier into the later only as a whole into its
      half. */
  lemma LeftPair(q: seq<Item>, i: nat, k: nat, p: nat, r: nat, len: nat)
    requires Apart(q) && i < |q| && k <= 7 && p < r < |q| - 1 + len
    requires len == if k < 3 then 1 else if k < 6 then 2 else if k == 6 then 3 else 2
    ensures |ItemsLeft(q, i, k)| == |q| - 1 + len
    ensures var x, y := ItemsLeft(q, i, k)[p].id, ItemsLeft(q, i, k)[r].id;
      x != y && !D.Descends(y, x) && ((k < 3 || k == 7) ==> !D.Descends(x, y))
  {
    var m, n, u, v := OriginAt(i, len, p), OriginAt(i, len, r), PathAt(i, k, p), PathAt(i, k, r);
    assert (k < 3 || k == 7) && m == n ==> u != "" by { WholeOnlyAlone(i, k, p, r, len); }
    hide ItemsLeft, OriginAt, PathAt, Diverges;
    LeftId(q, i, k, p, len);
    LeftId(q, i, k, r, len);
    OriginsInOrder(i, len, k, p, r);
    var x, y := q[m].id + u, q[n].id + v;
    if m < n {
      DivergesExtends(q[m].id, q[n].id, u, v);
      LoomLink.DivergesUnrelated(x, y);
    } else {
      SameOrigin(q[m].id, u, v);
    }
  }

  lemma WholeOnlyAlone(i: nat, k: nat, p: nat, r: nat, len: nat)
    requires p < r && k <= 7 && len == if k < 3 then 1 else if k < 6 then 2 else if k == 6 then 3 else 2
    ensures (k < 3 || k == 7) && OriginAt(i, len, p) == OriginAt(i, len, r) ==> PathAt(i, k, p) != ""
  {}

  lemma SameOrigin(x: string, u: string, v: string)
    requires (u == "" && (v == "a" || v == "b")) || (u == "a" && v == "b")
    ensures x + u != x + v && !D.Descends(x + v, x + u) && (u != "" ==> !D.Descends(x + u, x + v))
  {
    if u != "" {
      assert (x + u)[|x|] != (x + v)[|x|];
    }
  }

  /** What a crash leaves is a start of the protocol, and its names are unrelated exactly when the crash came before the first
      half was written or after the original was gone. */
  lemma LeftStarts(q: seq<Item>, i: nat, k: nat)
    requires Apart(q) && i < |q| && k <= 7 && |q[i].docs| >= 2
    ensures var s := LoomLink.StartOn(ItemsLeft(q, i, k));
      D.Start(s) && HalvesBehind(s.spool.items) && (D.Unrelated(s.spool) <==> k < 3 || k == 7)
  {
    var len := if k < 3 then 1 else if k < 6 then 2 else if k == 6 then 3 else 2;
    var items := ItemsLeft(q, i, k);
    var s := LoomLink.StartOn(items);
    if 3 <= k < 7 {
      assert items[i] == q[i] && items[i + 1] == Halves(q[i])[0];
    }
    hide Apart, ItemsLeft, D.Descends, D.Reaches, DocsOf;
    LeftId(q, i, k, 0, len);
    forall p, r | 0 <= p < r < |items| ensures items[p].id != items[r].id && !D.Descends(items[r].id, items[p].id) {
      LeftPair(q, i, k, p, r, len);
    }
    if k < 3 || k == 7 {
      forall p, u | 0 <= p < |items| && u in D.IdsOf(items) ensures !D.Reaches(items[p].id, |items[p].docs|, u) {
        NotReached(q, i, k, len, p, u);
      }
    } else {
      ReachesOwnHalves(q[i].id, |q[i].docs|);
      assert items[i + 1] in items;
      assert items[i + 1].id in s.spool.used;
    }
  }

  lemma NotReached(q: seq<Item>, i: nat, k: nat, len: nat, p: nat, u: string)
    requires Apart(q) && i < |q| && (k < 3 || k == 7) && len == (if k < 3 then 1 else 2)
    requires |ItemsLeft(q, i, k)| == |q| - 1 + len && p < |ItemsLeft(q, i, k)| && u in D.IdsOf(ItemsLeft(q, i, k))
    ensures var it := ItemsLeft(q, i, k)[p]; !D.Reaches(it.id, |it.docs|, u)
  {
    var items := ItemsLeft(q, i, k);
    hide Apart, ItemsLeft, D.Descends, D.Reaches;
    var it :| it in items && it.id == u;
    var r :| 0 <= r < |items| && items[r] == it;
    if p < r {
      LeftPair(q, i, k, p, r, len);
    } else if r < p {
      LeftPair(q, i, k, r, p, len);
    } else {
      NoSelfDescent(u);
    }
    if D.Reaches(items[p].id, |items[p].docs|, u) {
      ReachesDescends(items[p].id, |items[p].docs|, u);
    }
  }

  /** After a crash inside a split, the runs from the start that follows keep names unique if and only if the crash came
      before the first half had its name or after the original was deleted. */
  lemma CrashStart(s: State, t: nat, i: nat, docs: seq<Doc>, k: nat, s': State)
    requires Splitting(s, t, i, docs, k) && Restarted(s.(disk := DirLeft(s, i, docs, k)), s')
    ensures AllBacked(s')
    ensures var start := LoomLink.StartOn(Items(s'));
      && D.Start(start)
      && ((forall u :: Reachable(start, u) ==> Distinct(u.spool.items)) <==> k < 3 || k == 7)
  {
    hide RunInv, DirLeft, Restarted, Apart, ItemsLeft, Items, Reachable, Distinct, D.Start, D.Unrelated, HalvesBehind;
    CrashReopens(s, t, i, docs, k, s');
    RunIsApart(s, t);
    ItemOfSplit(s, t, i, docs, k);
    LeftStarts(Items(s), i, k);
    UniqueExactlyWhenUnrelated(LoomLink.StartOn(Items(s')));
  }

  /** A name the spool reads has a dash behind its stem. */
  lemma DashBehindStem(name: string)
    requires IsSpoolFile(name)
    ensures |Stem(name)| < |name| && name[..|Stem(name)|] == Stem(name) && name[|Stem(name)|] == '-'
  {
    hide ParseNatural;
    var t := TrimSuffix(name, ".json");
    assert t == name[..|t|];
    if LastIndex(t, '-') < 0 {
      SplitNone(t, '-');
    }
  }

  /** In a queue sorted by name no batch stands before one it is a half of. */
  lemma SortedHalvesBehind(s: State)
    requires Sorted(s.files) && AllBacked(s) && forall i :: 0 <= i < |s.files| ==> IsSpoolFile(s.files[i].name)
    ensures HalvesBehind(Items(s))
  {
    hide IsSpoolFile, Stem, Less, Backed;
    forall i, j | 0 <= i < j < |s.files| ensures !D.Descends(Stem(s.files[j].name), Stem(s.files[i].name)) {
      var e, f := s.files[i].name, s.files[j].name;
      DashBehindStem(e);
      DashBehindStem(f);
      if D.Descends(Stem(f), Stem(e)) {
        assert e[..|Stem(f)|] == Stem(e)[..|Stem(f)|] && e[|Stem(f)|] == Stem(e)[|Stem(f)|..][0];
        assert DivergesAt(f, e, |Stem(f)|);
        DivergesIsLess(f, e);
        LessAsymmetric(f, e);
      }
    }
  }

  // ---- what the code then does ------------------------------------------------------------------------------

  /** With a half of it in the index already, splitting a batch lists one name twice, for one file. */
  lemma SplitListsTwice(s: State, i: nat, j: nat, docs: seq<Doc>)
    requires i < |s.files| && j < |s.files| && i != j && |docs| >= 2
    requires Find(s.files, s.files[i].name) == i && s.files[j].name == HalfOf(s.files[i], 'a', docs).name
    ensures var (s', r) := AfterSplit(s, s.files[i].name, docs, true, true);
      r == Split && !DistinctNames(s'.files)
  {
    hide HalfName, Body;
    var s' := AfterSplit(s, s.files[i].name, docs, true, true).0;
    var at := if j < i then j else j + 1;
    assert s'.files[i].name == s.files[j].name && s'.files[at] == s.files[j];
  }

  /** The spool a crash leaves when the batch was alone and only its first half was written. */
  ghost predicate HalfWritten(s: State, e: Entry, docs: seq<Doc>) {
    && |docs| >= 2 && s.files == [e, HalfOf(e, 'a', docs)] && e.name != HalfOf(e, 'a', docs).name
    && HalfOf(e, 'b', docs).name != HalfOf(e, 'a', docs).name && HalfOf(e, 'b', docs).name != e.name
    && s.disk == map[e.name := Whole(docs), HalfOf(e, 'a', docs).name := Whole(FirstHalf(docs))]
  }

  /** The split after the restart: the first half is listed twice, around the second, with one file each. */
  lemma SplitAfterCrash(s: State, e: Entry, docs: seq<Doc>)
    requires HalfWritten(s, e, docs)
    ensures var a, b := HalfOf(e, 'a', docs), HalfOf(e, 'b', docs);
            var (s', r) := AfterSplit(s, e.name, docs, true, true);
      && r == Split && s'.files == [a, b, a] && s'.drops == s.drops
      && s'.disk == map[a.name := Whole(FirstHalf(docs)), b.name := Whole(SecondHalf(docs))]
  {
    hide HalfName, Body;
    FindIs(s.files, e.name, 0);
  }

  /** Both halves are delivered and deleted; the second listing of the first half has no file, and is then dropped and
      reported as corrupt although its documents were delivered. */
  lemma DeliveredThenCorrupt(s: State, a: Entry, b: Entry, x: seq<Doc>, y: seq<Doc>, l: Limits, now: Time, readable: string -> bool)
    requires s.files == [a, b, a] && a.name != b.name && s.disk == map[a.name := Whole(x), b.name := Whole(y)] && l.maxAge <= 0
    ensures var s1 := AfterRemove(s, a.name, true).0;
            var s2 := AfterRemove(s1, b.name, true).0;
            var (s3, r) := AfterOldest(s2, l, now, readable);
      && s1.files == [b, a] && s2.files == [a] && r.None? && s3.files == [] && s3.drops == s.drops + [Drop(Corrupt, a.n)]
  {
    FindIs(s.files, a.name, 0);
    var s1 := AfterRemove(s, a.name, true).0;
    assert s1.files == [b, a] && s1.disk == map[b.name := Whole(y)];
    FindIs(s1.files, b.name, 0);
    var s2 := AfterRemove(s1, b.name, true).0;
    assert s2.files == [a] && s2.disk == map[];
    assert !Good(s2, a.name, readable);
    assert SkipCorrupt(DropFront(s2, Corrupt), readable) == DropFront(s2, Corrupt);
  }

  /** When the delivered first half could not be deleted, its second listing is read, and it is posted again after its
      2xx. */
  lemma DeliveredThenPostedAgain(s: State, a: Entry, b: Entry, x: seq<Doc>, y: seq<Doc>, l: Limits, now: Time, readable: string -> bool)
    requires s.files == [a, b, a] && a.name != b.name && s.disk == map[a.name := Whole(x), b.name := Whole(y)] && l.maxAge <= 0
    requires readable(a.name)
    ensures var s1 := AfterRemove(s, a.name, false).0;
            var s2 := AfterRemove(s1, b.name, true).0;
            AfterOldest(s2, l, now, readable).1 == Some(Batch(a.name, x, a.n))
  {
    FindIs(s.files, a.name, 0);
    var s1 := AfterRemove(s, a.name, false).0;
    assert s1.files == [b, a] && s1.disk == s.disk;
    FindIs(s1.files, b.name, 0);
    var s2 := AfterRemove(s1, b.name, true).0;
    assert s2.files == [a] && a.name in s2.disk && s2.disk[a.name] == Whole(x);
    assert Good(s2, a.name, readable);
  }
}
