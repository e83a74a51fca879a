/** Batches and queues of batches, as the spool and the memory queue have them in common
    (internal/exporters/loom). A body is represented by the documents it joins. */
module LoomQueues {

  /** One encoded record: JSON text. */
  type Doc = string

  /** The documents' bytes with a separator each, the batcher's running size. */
  function Weighed(docs: seq<Doc>): (n: nat)
    ensures n >= |docs|
  {
    if docs == [] then 0 else Weighed(docs[..|docs| - 1]) + |docs[|docs| - 1]| + 1
  }

  function Joined(docs: seq<Doc>): (s: string) {
    if docs == [] then ""
    else if |docs| == 1 then docs[0]
    else Joined(docs[..|docs| - 1]) + "," + docs[|docs| - 1]
  }

  /** joinDocs: a JSON array of the documents, unchanged. */
  function Body(docs: seq<Doc>): (s: string) {
    "[" + Joined(docs) + "]"
  }

  method JoinDocs(docs: seq<Doc>) returns (b: string)
    ensures b == Body(docs)
  {
    b := "[";
    var i := 0;
    while i < |docs|
      invariant 0 <= i <= |docs|
      invariant b == "[" + Joined(docs[..i])
    {
      assert docs[..i + 1][..i] == docs[..i];
      if i > 0 {
        b := b + ",";
      }
      b := b + docs[i];
      i := i + 1;
    }
    assert docs[..|docs|] == docs;
    b := b + "]";
  }

  lemma {:induction false} JoinedSize(docs: seq<Doc>)
    ensures docs != [] ==> |Joined(docs)| == Weighed(docs) - 1
    ensures docs == [] ==> |Joined(docs)| == 0
  {
    if |docs| == 1 {
      assert docs[..0] == [];
    } else if |docs| > 1 {
      JoinedSize(docs[..|docs| - 1]);
    }
  }

  /** The size of a body; 2 for an empty array. */
  lemma BodySize(docs: seq<Doc>)
    ensures |Body(docs)| == if docs == [] then 2 else Weighed(docs) + 1
  {
    JoinedSize(docs);
  }

  /** Each document stands in the body unchanged, behind the ones before it and a byte for each. */
  lemma {:induction false} JoinedAt(docs: seq<Doc>, i: nat)
    requires i < |docs|
    ensures var at := Weighed(docs[..i]);
      && at + |docs[i]| <= |Joined(docs)| && Joined(docs)[at..at + |docs[i]|] == docs[i]
      && (i + 1 < |docs| ==> at + |docs[i]| < |Joined(docs)| && Joined(docs)[at + |docs[i]|] == ',')
      && (i + 1 == |docs| ==> at + |docs[i]| == |Joined(docs)|)
    decreases |docs|
  {
    JoinedSize(docs);
    var front := docs[..|docs| - 1];
    JoinedSize(front);
    if |docs| == 1 {
      assert docs[..0] == [];
    } else if i < |front| {
      JoinedAt(front, i);
      assert front[..i] == docs[..i];
    }
  }

  /** A body is a bracket, the documents with a comma between any two, and a bracket. */
  lemma BodyLayout(docs: seq<Doc>, i: nat)
    requires i < |docs|
    ensures var b, at := Body(docs), 1 + Weighed(docs[..i]);
      && b[0] == '[' && b[|b| - 1] == ']'
      && at + |docs[i]| < |b| && b[at..at + |docs[i]|] == docs[i]
      && b[at + |docs[i]|] == (if i + 1 < |docs| then ',' else ']')
      && (i + 1 == |docs| ==> at + |docs[i]| == |b| - 1)
  {
    JoinedAt(docs, i);
    hide Joined, Weighed;
    var at := Weighed(docs[..i]);
    assert Body(docs)[1 + at..1 + at + |docs[i]|] == Joined(docs)[at..at + |docs[i]|];
  }

  lemma {:induction false} WeighedTwoParts(x: seq<Doc>, y: seq<Doc>)
    ensures Weighed(x + y) == Weighed(x) + Weighed(y)
  {
    if y == [] {
      assert x + y == x;
    } else {
      WeighedTwoParts(x, y[..|y| - 1]);
      assert (x + y)[..|x + y| - 1] == x + y[..|y| - 1];
    }
  }

  function FirstHalf(docs: seq<Doc>): seq<Doc> {
    docs[..|docs| / 2]
  }

  function SecondHalf(docs: seq<Doc>): seq<Doc> {
    docs[|docs| / 2..]
  }

  /** Halving a batch of two or more makes the two bodies together one byte longer than the one. */
  lemma HalvesAddOneByte(docs: seq<Doc>)
    requires |docs| >= 2
    ensures FirstHalf(docs) + SecondHalf(docs) == docs && FirstHalf(docs) != [] && SecondHalf(docs) != []
    ensures |FirstHalf(docs)| <= |SecondHalf(docs)| <= |FirstHalf(docs)| + 1
    ensures |Body(FirstHalf(docs))| + |Body(SecondHalf(docs))| == |Body(docs)| + 1
  {
    assert FirstHalf(docs) + SecondHalf(docs) == docs;
    WeighedTwoParts(FirstHalf(docs), SecondHalf(docs));
    BodySize(docs);
    BodySize(FirstHalf(docs));
    BodySize(SecondHalf(docs));
  }

  // ---- queues of batches ---------------------------------------------------------------------

  /** A queued batch: what identifies it, and its documents. */
  datatype Item = Item(id: string, docs: seq<Doc>)

  function DocsOf(items: seq<Item>): (d: seq<Doc>) {
    if items == [] then [] else DocsOf(items[..|items| - 1]) + items[|items| - 1].docs
  }

  lemma DocsOfSnoc(items: seq<Item>, it: Item)
    ensures DocsOf(items + [it]) == DocsOf(items) + it.docs
  {
    assert (items + [it])[..|items|] == items;
  }

  lemma {:induction false} DocsOfTwoParts(x: seq<Item>, y: seq<Item>)
    ensures DocsOf(x + y) == DocsOf(x) + DocsOf(y)
  {
    if y == [] {
      assert x + y == x;
    } else {
      hide DocsOf;
      var front, last := y[..|y| - 1], y[|y| - 1];
      assert y == front + [last] && x + y == (x + front) + [last];
      DocsOfTwoParts(x, front);
      DocsOfSnoc(front, last);
      DocsOfSnoc(x + front, last);
      assert DocsOf(x) + (DocsOf(front) + last.docs) == (DocsOf(x) + DocsOf(front)) + last.docs;
    }
  }

  lemma DocsOfOne(it: Item)
    ensures DocsOf([it]) == it.docs
  {
    assert [it][..0] == [];
  }

  /** The queue without the first batch of that identity; unchanged when there is none. */
  function Without(items: seq<Item>, id: string): (r: seq<Item>) {
    if items == [] then []
    else if items[0].id == id then items[1..]
    else [items[0]] + Without(items[1..], id)
  }

  function Halves(it: Item): seq<Item> {
    [Item(it.id + "a", FirstHalf(it.docs)), Item(it.id + "b", SecondHalf(it.docs))]
  }

  /** The queue with the first batch of that identity replaced, in place, by its two halves. */
  function Halved(items: seq<Item>, it: Item): (r: seq<Item>) {
    if items == [] then []
    else if items[0].id == it.id then Halves(it) + items[1..]
    else [items[0]] + Halved(items[1..], it)
  }

  lemma {:induction false} WithoutAt(q: seq<Item>, id: string, i: nat)
    requires i <= |q| && (forall j :: 0 <= j < i ==> q[j].id != id) && (i < |q| ==> q[i].id == id)
    ensures Without(q, id) == if i == |q| then q else q[..i] + q[i + 1..]
    decreases i
  {
    if i > 0 {
      WithoutAt(q[1..], id, i - 1);
    }
  }

  lemma {:induction false} HalvedBehind(x: seq<Item>, y: seq<Item>, it: Item)
    requires forall j :: 0 <= j < |x| ==> x[j].id != it.id
    ensures Halved(x + y, it) == x + Halved(y, it)
    decreases |x|
  {
    hide Halves;
    if x == [] {
      assert x + y == y && x + Halved(y, it) == Halved(y, it);
    } else {
      HalvedBehind(x[1..], y, it);
      assert (x + y)[1..] == x[1..] + y;
      assert x + Halved(y, it) == [x[0]] + (x[1..] + Halved(y, it));
    }
  }

  lemma HalvedAt(q: seq<Item>, it: Item, i: nat)
    requires i <= |q| && (forall j :: 0 <= j < i ==> q[j].id != it.id) && (i < |q| ==> q[i].id == it.id)
    ensures Halved(q, it) == if i == |q| then q else q[..i] + Halves(it) + q[i + 1..]
  {
    assert q == q[..i] + q[i..];
    HalvedBehind(q[..i], q[i..], it);
    hide Halves;
    if i < |q| {
      assert q[i..][1..] == q[i + 1..];
      assert q[..i] + (Halves(it) + q[i + 1..]) == q[..i] + Halves(it) + q[i + 1..];
    }
  }

  /** Halving the batch that is there changes neither the documents nor their order. */
  lemma {:induction false} HalvedKeepsDocs(items: seq<Item>, it: Item)
    requires |it.docs| >= 2 && forall i :: 0 <= i < |items| && items[i].id == it.id ==> items[i] == it
    ensures DocsOf(Halved(items, it)) == DocsOf(items)
  {
    if items != [] {
      var rest := items[1..];
      assert items == [items[0]] + rest;
      DocsOfTwoParts([items[0]], rest);
      if items[0].id == it.id {
        var a, b := Halves(it)[0], Halves(it)[1];
        HalvesAddOneByte(it.docs);
        assert Halves(it) == [a] + [b];
        DocsOfTwoParts([a], [b]);
        DocsOfOne(a);
        DocsOfOne(b);
        DocsOfOne(it);
        DocsOfTwoParts(Halves(it), rest);
      } else {
        HalvedKeepsDocs(rest, it);
        DocsOfTwoParts([items[0]], Halved(rest, it));
      }
    }
  }

  /** What a batch can still cost: a batch of n documents at most 2n - 1 posts. */
  function Posts(n: nat): nat {
    if n <= 1 then 1 else 2 * n - 1
  }

  function PostsOf(items: seq<Item>): (n: nat)
    ensures n >= |items|
  {
    if items == [] then 0 else Posts(|items[0].docs|) + PostsOf(items[1..])
  }

  lemma {:induction false} PostsAreTwoPerDocument(items: seq<Item>)
    requires forall i :: 0 <= i < |items| ==> items[i].docs != []
    ensures PostsOf(items) == 2 * |DocsOf(items)| - |items|
  {
    if items != [] {
      PostsAreTwoPerDocument(items[1..]);
      assert items == [items[0]] + items[1..];
      DocsOfTwoParts([items[0]], items[1..]);
      DocsOfOne(items[0]);
    }
  }

  lemma {:induction false} PostsOfTail(items: seq<Item>, k: nat)
    requires k <= |items|
    ensures PostsOf(items[k..]) <= PostsOf(items)
    decreases k
  {
    if k > 0 {
      PostsOfTail(items[1..], k - 1);
      assert items[1..][k - 1..] == items[k..];
    } else {
      assert items[0..] == items;
    }
  }
}
