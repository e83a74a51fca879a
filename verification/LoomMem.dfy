/** The memory queue that stands in for the spool: memQueue of internal/exporters/loom/shipper.go. */
module LoomMem {
  import opened Decimals
  import opened LoomQueues

  datatype MemItem = MemItem(name: string, docs: seq<Doc>, n: nat)

  /** `dropped` counts the documents onDrop was told about. */
  datatype State = State(items: seq<MemItem>, total: int, puts: nat, dropped: nat)

  datatype Oldest = Empty | Oldest(name: string, docs: seq<Doc>, n: nat)

  function Capped(s: State, max: int): (t: State)
    decreases |s.items|
  {
    if s.total > max && |s.items| > 1 then
      var e := s.items[0];
      Capped(State(s.items[1..], s.total - |Body(e.docs)|, s.puts, s.dropped + e.n), max)
    else s
  }

  function AfterPut(s: State, max: int, docs: seq<Doc>): (t: State) {
    var name := Decimal(s.puts + 1);
    Capped(State(s.items + [MemItem(name, docs, |docs|)], s.total + |Body(docs)|, s.puts + 1, s.dropped), max)
  }

  function Find(items: seq<MemItem>, name: string): (i: nat)
    ensures i <= |items|
    ensures i < |items| ==> items[i].name == name
    ensures forall j :: 0 <= j < i ==> items[j].name != name
  {
    if items == [] || items[0].name == name then 0 else 1 + Find(items[1..], name)
  }

  function AfterRemove(s: State, name: string): (t: State) {
    var i := Find(s.items, name);
    if i == |s.items| then s
    else s.(items := s.items[..i] + s.items[i + 1..], total := s.total - |Body(s.items[i].docs)|)
  }

  /** Split; false for a batch that cannot be halved. */
  function AfterSplit(s: State, name: string, docs: seq<Doc>): (r: (State, bool)) {
    var i := Find(s.items, name);
    if |docs| < 2 then (s, false)
    else if i == |s.items| then (s, true)
    else
      var a := MemItem(name + "a", FirstHalf(docs), |FirstHalf(docs)|);
      var b := MemItem(name + "b", SecondHalf(docs), |SecondHalf(docs)|);
      (s.(items := s.items[..i] + [a, b] + s.items[i + 1..],
          total := s.total + (|Body(a.docs)| + |Body(b.docs)|) - |Body(s.items[i].docs)|), true)
  }

  class MemQueue {
    const max: int
    var items: seq<MemItem>
    var total: int
    var puts: nat
    var dropped: nat

    ghost function View(): State
      reads this
    {
      State(items, total, puts, dropped)
    }

    constructor (max: int)
      ensures this.max == max && View() == State([], 0, 0, 0)
    {
      this.max := max;
      items, total, puts, dropped := [], 0, 0, 0;
    }

    method Put(docs: seq<Doc>)
      modifies this
      ensures View() == AfterPut(old(View()), max, docs)
    {
      hide Body;
      var body := JoinDocs(docs);
      puts := puts + 1;
      items := items + [MemItem(Decimal(puts), docs, |docs|)];
      total := total + |body|;
      while total > max && |items| > 1
        invariant Capped(View(), max) == AfterPut(old(View()), max, docs)
        decreases |items|
      {
        var e := items[0];
        items := items[1..];
        total := total - |Body(e.docs)|;
        dropped := dropped + e.n;
      }
    }

    method First() returns (r: Oldest)
      ensures r == if items == [] then Empty else Oldest(items[0].name, items[0].docs, items[0].n)
    {
      if |items| == 0 {
        return Empty;
      }
      var it := items[0];
      return Oldest(it.name, it.docs, it.n);
    }

    method Remove(name: string)
      modifies this
      ensures View() == AfterRemove(old(View()), name)
    {
      var i := 0;
      while i < |items|
        invariant 0 <= i <= |items| && View() == old(View())
        invariant forall j :: 0 <= j < i ==> items[j].name != name
      {
        var it := items[i];
        if it.name == name {
          FindIs(items, name, i);
          items := items[..i] + items[i + 1..];
          total := total - |Body(it.docs)|;
          return;
        }
        i := i + 1;
      }
      FindIs(items, name, i);
    }

    method SplitBatch(name: string, docs: seq<Doc>) returns (split: bool)
      modifies this
      ensures (View(), split) == AfterSplit(old(View()), name, docs)
    {
      hide Body;
      if |docs| < 2 {
        return false;
      }
      var i := 0;
      while i < |items|
        invariant 0 <= i <= |items| && View() == old(View())
        invariant forall j :: 0 <= j < i ==> items[j].name != name
      {
        if items[i].name != name {
          i := i + 1;
          continue;
        }
        FindIs(items, name, i);
        var it, mid := items[i], |docs| / 2;
        var a := MemItem(name + "a", docs[..mid], mid);
        var b := MemItem(name + "b", docs[mid..], |docs| - mid);
        items := items[..i] + [a, b] + items[i + 1..];
        total := total + (|Body(a.docs)| + |Body(b.docs)|) - |Body(it.docs)|;
        return true;
      }
      FindIs(items, name, i);
      return true;
    }
  }

  lemma {:induction false} FindIs(items: seq<MemItem>, name: string, i: nat)
    requires i <= |items| && (forall j :: 0 <= j < i ==> items[j].name != name)
    requires i < |items| ==> items[i].name == name
    ensures Find(items, name) == i
    decreases i
  {
    if i > 0 {
      FindIs(items[1..], name, i - 1);
    }
  }

  // ---- as operations on the plain queue ---------------------------------------------------------

  function Items(items: seq<MemItem>): (q: seq<Item>)
    ensures |q| == |items| && forall i :: 0 <= i < |q| ==> q[i] == Item(items[i].name, items[i].docs)
  {
    seq(|items|, i requires 0 <= i < |items| => Item(items[i].name, items[i].docs))
  }

  function Bytes(items: seq<MemItem>): (n: nat) {
    if items == [] then 0 else |Body(items[0].docs)| + Bytes(items[1..])
  }

  lemma {:induction false} BytesTwoParts(x: seq<MemItem>, y: seq<MemItem>)
    ensures Bytes(x + y) == Bytes(x) + Bytes(y)
    decreases |x|
  {
    hide Body;
    if x == [] {
      assert x + y == y;
    } else {
      BytesTwoParts(x[1..], y);
      assert (x + y)[1..] == x[1..] + y;
    }
  }

  lemma BytesCons(e: MemItem, y: seq<MemItem>)
    ensures Bytes([e] + y) == |Body(e.docs)| + Bytes(y)
  {
    assert ([e] + y)[1..] == y;
  }

  /** The documents the items say they hold. */
  function CountOf(items: seq<MemItem>): (n: nat) {
    if items == [] then 0 else items[0].n + CountOf(items[1..])
  }

  ghost predicate Counted(items: seq<MemItem>) {
    forall i :: 0 <= i < |items| ==> items[i].n == |items[i].docs|
  }

  lemma CountCons(e: MemItem, y: seq<MemItem>)
    ensures CountOf([e] + y) == e.n + CountOf(y)
  {
    assert ([e] + y)[1..] == y;
  }

  /** Counted right, the items hold as many documents as the queue. */
  lemma {:induction false} CountIsDocs(items: seq<MemItem>)
    requires Counted(items)
    ensures CountOf(items) == |DocsOf(Items(items))|
    decreases |items|
  {
    hide DocsOf;
    if items == [] {
      assert Items(items) == [] && DocsOf([]) == [] by { NoDocs(); }
    } else {
      CountIsDocs(items[1..]);
      var it := Item(items[0].name, items[0].docs);
      assert Items(items) == [it] + Items(items[1..]);
      DocsOfTwoParts([it], Items(items[1..]));
      DocsOfOne(it);
    }
  }

  lemma NoDocs()
    ensures DocsOf([]) == []
  {}

  lemma NothingCounted()
    ensures CountOf([]) == 0
  {}

  lemma BehindFirst(q: seq<MemItem>, i: nat)
    requires 0 < i <= |q|
    ensures q[1..][i - 1..] == q[i..] && q[..i] == [q[0]] + q[1..][..i - 1]
  {}

  lemma {:induction false} CappedShortest(s: State, max: int) returns (d: nat)
    requires s.total == Bytes(s.items)
    ensures var t := Capped(s, max);
      && t.total == Bytes(t.items) && t.puts == s.puts && (t.total <= max || |t.items| <= 1)
      && d <= |s.items| && (s.items != [] ==> d < |s.items|) && t.items == s.items[d..]
      && t.dropped == s.dropped + CountOf(s.items[..d])
      && forall i :: 0 <= i < d ==> Bytes(s.items[i..]) > max
    decreases |s.items|
  {
    hide Body, Bytes, CountOf;
    NothingCounted();
    d := 0;
    assert s.items[0..] == s.items && s.items[..0] == [];
    if s.total > max && |s.items| > 1 {
      var e := s.items[0];
      var next := State(s.items[1..], s.total - |Body(e.docs)|, s.puts, s.dropped + e.n);
      assert s.items == [e] + next.items;
      BytesCons(e, next.items);
      d := CappedShortest(next, max);
      BehindFirst(s.items, d + 1);
      CountCons(e, next.items[..d]);
      forall i | 0 < i < d + 1 ensures Bytes(s.items[i..]) > max {
        BehindFirst(s.items, i);
      }
      d := d + 1;
    }
  }

  /** Put appends last and then gives up, and reports, the shortest prefix that brings the bytes under the cap, never the
      new batch. */
  lemma PutRefines(s: State, max: int, docs: seq<Doc>) returns (d: nat)
    requires s.total == Bytes(s.items)
    ensures var t := AfterPut(s, max, docs);
            var q := Items(s.items) + [Item(Decimal(s.puts + 1), docs)];
      && d <= |s.items| && Items(t.items) == q[d..] && t.puts == s.puts + 1
      && (Counted(s.items) ==> Counted(t.items) && t.dropped == s.dropped + |DocsOf(Items(s.items)[..d])|)
      && t.total == Bytes(t.items) && (t.total <= max || |t.items| == 1)
  {
    hide Body, Bytes, Capped, Decimal, Items, DocsOf, CountOf, Counted;
    var it := MemItem(Decimal(s.puts + 1), docs, |docs|);
    var u := State(s.items + [it], s.total + |Body(docs)|, s.puts + 1, s.dropped);
    BytesTwoParts(s.items, [it]);
    BytesOne(it);
    d := CappedShortest(u, max);
    ItemsSnoc(s.items, it, d);
    if Counted(s.items) {
      CountIsDocs(s.items[..d]);
    }
  }

  lemma ItemsSnoc(items: seq<MemItem>, it: MemItem, d: nat)
    requires d <= |items|
    ensures var u := items + [it];
      && Items(u[d..]) == (Items(items) + [Item(it.name, it.docs)])[d..]
      && u[..d] == items[..d] && Items(items[..d]) == Items(items)[..d]
    ensures Counted(items) ==> Counted(items[..d]) && (it.n == |it.docs| ==> Counted((items + [it])[d..]))
  {}

  lemma BytesOne(e: MemItem)
    ensures Bytes([e]) == |Body(e.docs)|
  {
    assert [e][1..] == [];
  }

  lemma ItemsCut(items: seq<MemItem>, i: nat, mid: seq<MemItem>)
    requires i < |items|
    ensures Items(items[..i] + mid + items[i + 1..]) == Items(items)[..i] + Items(mid) + Items(items)[i + 1..]
  {}

  lemma RemoveRefines(s: State, name: string)
    requires s.total == Bytes(s.items)
    ensures var t := AfterRemove(s, name);
            Items(t.items) == Without(Items(s.items), name) && t.total == Bytes(t.items)
  {
    hide Body, Bytes, Without, Items, Find;
    var i := Find(s.items, name);
    FoundItem(s.items, name);
    WithoutAt(Items(s.items), name, i);
    if i < |s.items| {
      ItemsWithout(s.items, i);
      RemoveBytes(s.items[..i], s.items[i], s.items[i + 1..]);
    }
  }

  lemma FoundItem(items: seq<MemItem>, name: string)
    ensures var i, q := Find(items, name), Items(items);
      i <= |q| == |items| && (forall j :: 0 <= j < i ==> q[j].id != name) && (i < |q| ==> q[i].id == name)
  {}

  lemma ItemsWithout(items: seq<MemItem>, i: nat)
    requires i < |items|
    ensures |Items(items)| == |items| && Items(items[..i] + items[i + 1..]) == Items(items)[..i] + Items(items)[i + 1..]
    ensures items == items[..i] + ([items[i]] + items[i + 1..])
  {}

  lemma RemoveBytes(x: seq<MemItem>, e: MemItem, y: seq<MemItem>)
    ensures Bytes(x + y) == Bytes(x + ([e] + y)) - |Body(e.docs)|
  {
    hide Body, Bytes;
    BytesTwoParts(x, [e] + y);
    BytesCons(e, y);
    BytesTwoParts(x, y);
  }

  /** Split halves the named batch in its place, for one byte more, or does nothing when the batch is gone. */
  lemma SplitRefines(s: State, name: string, docs: seq<Doc>)
    requires s.total == Bytes(s.items)
    requires forall i :: 0 <= i < |s.items| && s.items[i].name == name ==> s.items[i].docs == docs
    ensures var (t, split) := AfterSplit(s, name, docs);
      && (split <==> |docs| >= 2) && t.total == Bytes(t.items)
      && Items(t.items) == (if split then Halved(Items(s.items), Item(name, docs)) else Items(s.items))
      && t.total == s.total + if split && Find(s.items, name) < |s.items| then 1 else 0
  {
    hide Body, Bytes, Halved;
    var i := Find(s.items, name);
    HalvedAt(Items(s.items), Item(name, docs), i);
    if |docs| >= 2 && i < |s.items| {
      HalvesAddOneByte(docs);
      var a := MemItem(name + "a", FirstHalf(docs), |FirstHalf(docs)|);
      var b := MemItem(name + "b", SecondHalf(docs), |SecondHalf(docs)|);
      SplitBytes(s.items, i, a, b);
      ItemsCut(s.items, i, [a, b]);
      assert Items([a, b]) == Halves(Item(name, docs));
    }
  }

  lemma SplitBytes(items: seq<MemItem>, i: nat, a: MemItem, b: MemItem)
    requires i < |items|
    ensures Bytes(items[..i] + [a, b] + items[i + 1..])
            == Bytes(items) - |Body(items[i].docs)| + |Body(a.docs)| + |Body(b.docs)|
  {
    hide Body;
    var x, e, y := items[..i], items[i], items[i + 1..];
    assert items == x + ([e] + y);
    BytesTwoParts(x, [e] + y);
    assert ([e] + y)[1..] == y;
    assert x + [a, b] + y == x + ([a] + ([b] + y));
    BytesTwoParts(x, [a] + ([b] + y));
    assert ([a] + ([b] + y))[1..] == [b] + y;
    assert ([b] + y)[1..] == y;
  }
}
