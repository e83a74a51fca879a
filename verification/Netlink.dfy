/** Netlink attributes: the builder and the walker of pkg/conntrack/message.go, in the byte order of the machine. */
module Netlink {
  import opened Bytes

  datatype Endian = Little | Big

  datatype Error = MalformedAttribute | MalformedMessage | ShortError | NotFound | Errno(n: int) | ShortMessage | NoDestination

  datatype Result<+T> = Ok(value: T) | Err(error: Error)

  // ---- fixed-width numbers ------------------------------------------------------------------------

  function Put16(e: Endian, v: nat): (b: seq<byte>)
    ensures |b| == 2
  {
    if e.Little? then [v % 256, v / 256 % 256] else [v / 256 % 256, v % 256]
  }

  function Get16(e: Endian, b: seq<byte>): (v: nat)
    requires |b| == 2
    ensures v < 0x1_0000
  {
    var x: int, y: int := b[0], b[1];
    if e.Little? then x + 256 * y else y + 256 * x
  }

  function Put32(e: Endian, v: nat): (b: seq<byte>)
    ensures |b| == 4
  {
    if e.Little? then Put16(e, v) + Put16(e, v / 0x1_0000) else Put16(e, v / 0x1_0000) + Put16(e, v)
  }

  function Get32(e: Endian, b: seq<byte>): (v: nat)
    requires |b| == 4
    ensures v < 0x1_0000_0000
  {
    if e.Little? then Get16(e, b[..2]) + 0x1_0000 * Get16(e, b[2..]) else Get16(e, b[2..]) + 0x1_0000 * Get16(e, b[..2])
  }

  lemma ReadBack16(e: Endian, v: nat)
    ensures Get16(e, Put16(e, v)) == v % 0x1_0000
  {
    var d := v / 256;
    assert v == 256 * d + v % 256 && d == 256 * (d / 256) + d % 256;
    assert v % 256 + 256 * (d % 256) + 0x1_0000 * (d / 256) == v;
  }

  lemma ReadBack32(e: Endian, v: nat)
    ensures Get32(e, Put32(e, v)) == v % 0x1_0000_0000
  {
    hide Get16, Put16;
    var low, high := v, v / 0x1_0000;
    ReadBack16(e, low);
    ReadBack16(e, high);
    var b := Put32(e, v);
    assert b[..2] == (if e.Little? then Put16(e, low) else Put16(e, high));
    assert b[2..] == (if e.Little? then Put16(e, high) else Put16(e, low));
    assert v == 0x1_0000 * high + v % 0x1_0000 && high == 0x1_0000 * (high / 0x1_0000) + high % 0x1_0000;
    assert v % 0x1_0000 + 0x1_0000 * (high % 0x1_0000) + 0x1_0000_0000 * (high / 0x1_0000) == v;
  }

  // ---- attributes -----------------------------------------------------------------------------------

  const NESTED: nat := 0x8000
  const TYPE_MASK: nat := 0x3fff

  /** `& 0x3fff`. */
  function Masked(typ: nat): (t: nat)
    ensures t <= TYPE_MASK
  {
    typ % (TYPE_MASK + 1)
  }

  /** `(l + 3) &^ 3`. */
  function Aligned(l: nat): (r: nat)
    ensures r % 4 == 0 && l <= r < l + 4
  {
    (l + 3) / 4 * 4
  }

  function Padding(l: nat): (z: seq<byte>)
    ensures |z| == Aligned(l) - l
  {
    seq(Aligned(l) - l, _ => 0)
  }

  function Attr(e: Endian, typ: nat, payload: seq<byte>): (b: seq<byte>)
    ensures |b| == Aligned(4 + |payload|)
  {
    Put16(e, 4 + |payload|) + Put16(e, typ) + payload + Padding(4 + |payload|)
  }

  method BuildAttr(e: Endian, typ: nat, payload: seq<byte>) returns (b: seq<byte>)
    ensures b == Attr(e, typ, payload)
  {
    b := Put16(e, 4 + |payload|) + Put16(e, typ);
    b := b + payload;
    ghost var start, l := b, |b|;
    while |b| % 4 != 0
      invariant l <= |b| <= Aligned(l)
      invariant b == start + Padding(l)[..|b| - l]
      decreases Aligned(l) - |b|
    {
      assert Padding(l)[..|b| - l + 1] == Padding(l)[..|b| - l] + [0];
      b := b + [0];
    }
    assert |b| == Aligned(l);
    assert Padding(l)[..|b| - l] == Padding(l);
  }

  /** One level of attributes given to `fn` one by one, with what it makes of them; the first error ends the walk. */
  function Attrs<S>(e: Endian, b: seq<byte>, fn: (S, nat, seq<byte>) -> Result<S>, st: S): (r: Result<S>)
    decreases |b|
  {
    if |b| < 4 then Ok(st)
    else
      var l := Get16(e, b[..2]);
      if l < 4 || l > |b| then Err(MalformedAttribute)
      else
        var next := fn(st, Masked(Get16(e, b[2..4])), b[4..l]);
        if next.Err? then next
        else if Aligned(l) > |b| then next
        else Attrs(e, b[Aligned(l)..], fn, next.value)
  }

  method WalkAttrs<S>(e: Endian, b0: seq<byte>, fn: (S, nat, seq<byte>) -> Result<S>, st0: S) returns (r: Result<S>)
    ensures r == Attrs(e, b0, fn, st0)
  {
    hide Get16;
    var b, st := b0, st0;
    while |b| >= 4
      invariant Attrs(e, b, fn, st) == Attrs(e, b0, fn, st0)
      decreases |b|
    {
      var l := Get16(e, b[..2]);
      if l < 4 || l > |b| {
        return Err(MalformedAttribute);
      }
      var next := fn(st, Masked(Get16(e, b[2..4])), b[4..l]);
      if next.Err? {
        return next;
      }
      st := next.value;
      l := Aligned(l);
      if l > |b| {
        return Ok(st);
      }
      b := b[l..];
    }
    return Ok(st);
  }

  // ---- what the walk visits -------------------------------------------------------------------------

  /** A type and a payload. */
  type Pair = (nat, seq<byte>)

  function Fold<S>(pairs: seq<Pair>, fn: (S, nat, seq<byte>) -> Result<S>, st: S): (r: Result<S>) {
    if pairs == [] then Ok(st)
    else
      var next := fn(st, pairs[0].0, pairs[0].1);
      if next.Err? then next else Fold(pairs[1..], fn, next.value)
  }

  /** The callback that only notes what it is given. */
  function Note(seen: seq<Pair>, typ: nat, val: seq<byte>): (r: Result<seq<Pair>>) {
    Ok(seen + [(typ, val)])
  }

  /** Everything a walk visits, in order. */
  function Visits(e: Endian, b: seq<byte>): (r: Result<seq<Pair>>) {
    Attrs(e, b, Note, [])
  }

  function EncodeAll(e: Endian, pairs: seq<Pair>): (b: seq<byte>) {
    if pairs == [] then [] else Attr(e, pairs[0].0, pairs[0].1) + EncodeAll(e, pairs[1..])
  }

  /** The length field has 16 bits. */
  predicate AllShort(pairs: seq<Pair>) {
    forall i :: 0 <= i < |pairs| ==> 4 + |pairs[i].1| < 0x1_0000
  }

  function AllMasked(pairs: seq<Pair>): (r: seq<Pair>)
    ensures |r| == |pairs| && forall i :: 0 <= i < |r| ==> r[i] == (Masked(pairs[i].0), pairs[i].1)
  {
    seq(|pairs|, i requires 0 <= i < |pairs| => (Masked(pairs[i].0), pairs[i].1))
  }

  lemma AttrParts(e: Endian, typ: nat, payload: seq<byte>, rest: seq<byte>)
    requires 4 + |payload| < 0x1_0000
    ensures var b, l := Attr(e, typ, payload) + rest, 4 + |payload|;
      && Aligned(l) <= |b|
      && Get16(e, b[..2]) == l
      && Masked(Get16(e, b[2..4])) == Masked(typ)
      && b[4..l] == payload
      && b[Aligned(l)..] == rest
  {
    hide Get16, Put16, Padding;
    var b, l := Attr(e, typ, payload) + rest, 4 + |payload|;
    assert b[..2] == Put16(e, l);
    assert b[2..4] == Put16(e, typ);
    ReadBack16(e, l);
    ReadBack16(e, typ);
    MaskOfLow(typ);
  }

  lemma MaskOfLow(typ: nat)
    ensures Masked(typ % 0x1_0000) == Masked(typ)
  {
    var q := typ / 0x1_0000;
    assert typ == typ % 0x1_0000 + 0x4000 * (4 * q);
  }

  /** The walk over attributes that were built gives each to the callback, in order, and then walks what follows them. */
  lemma {:induction false} WalksWhatWasBuilt<S>(e: Endian, pairs: seq<Pair>, rest: seq<byte>, fn: (S, nat, seq<byte>) -> Result<S>, st: S)
    requires AllShort(pairs)
    ensures Attrs(e, EncodeAll(e, pairs) + rest, fn, st)
            == (var r := Fold(AllMasked(pairs), fn, st); if r.Err? then r else Attrs(e, rest, fn, r.value))
    decreases |pairs|
  {
    hide Get16, Put16, Attr, Masked;
    if pairs == [] {
      assert EncodeAll(e, pairs) + rest == rest;
    } else {
      var tail := EncodeAll(e, pairs[1..]) + rest;
      assert EncodeAll(e, pairs) + rest == Attr(e, pairs[0].0, pairs[0].1) + tail;
      AttrParts(e, pairs[0].0, pairs[0].1, tail);
      assert AllMasked(pairs)[1..] == AllMasked(pairs[1..]);
      var next := fn(st, Masked(pairs[0].0), pairs[0].1);
      if next.Ok? {
        WalksWhatWasBuilt(e, pairs[1..], rest, fn, next.value);
      }
    }
  }

  lemma {:induction false} NotesAll(pairs: seq<Pair>, seen: seq<Pair>)
    ensures Fold(pairs, Note, seen) == Ok(seen + pairs)
    decreases |pairs|
  {
    if pairs == [] {
      assert seen + pairs == seen;
    } else {
      NotesAll(pairs[1..], seen + [pairs[0]]);
      assert seen + [pairs[0]] + pairs[1..] == seen + pairs;
    }
  }

  lemma {:induction false} VisitsAreShort(e: Endian, b: seq<byte>, seen: seq<Pair>)
    requires AllShort(seen)
    ensures var r := Attrs(e, b, Note, seen); r.Ok? ==> AllShort(r.value)
    decreases |b|
  {
    hide Masked;
    if |b| >= 4 {
      var l := Get16(e, b[..2]);
      if 4 <= l <= |b| {
        var more := seen + [(Masked(Get16(e, b[2..4])), b[4..l])];
        assert AllShort(more);
        if Aligned(l) <= |b| {
          VisitsAreShort(e, b[Aligned(l)..], more);
        }
      }
    }
  }

  /** Round trip: walking attributes that were built visits exactly their types and payloads, in order, if and only if
      every payload's length fits the 16-bit field. */
  lemma VisitsExactlyWhatFits(e: Endian, pairs: seq<Pair>)
    ensures Visits(e, EncodeAll(e, pairs)) == Ok(AllMasked(pairs)) <==> AllShort(pairs)
  {
    hide Attrs;
    if AllShort(pairs) {
      WalksWhatWasBuilt(e, pairs, [], Note, []);
      assert EncodeAll(e, pairs) + [] == EncodeAll(e, pairs);
      NotesAll(AllMasked(pairs), []);
      assert [] + AllMasked(pairs) == AllMasked(pairs);
      NothingToWalk(e, Note, AllMasked(pairs));
    } else {
      VisitsAreShort(e, EncodeAll(e, pairs), []);
      var i :| 0 <= i < |pairs| && !(4 + |pairs[i].1| < 0x1_0000);
      assert !AllShort(AllMasked(pairs)) by {
        assert AllMasked(pairs)[i].1 == pairs[i].1;
      }
    }
  }

  lemma NothingToWalk<S>(e: Endian, fn: (S, nat, seq<byte>) -> Result<S>, st: S)
    ensures Attrs(e, [], fn, st) == Ok(st)
  {}

  // ---- nesting ----------------------------------------------------------------------------------------

  /** Attributes as a tree: a value, or attributes in an attribute. */
  datatype Node = Value(typ: nat, payload: seq<byte>) | Nest(typ: nat, inner: seq<Node>)

  function PairOf(e: Endian, n: Node): (p: Pair)
    decreases n
  {
    match n
    case Value(typ, payload) => (typ, payload)
    case Nest(typ, inner) => (typ + NESTED, EncodeNodes(e, inner))
  }

  function EncodeNodes(e: Endian, nodes: seq<Node>): (b: seq<byte>)
    decreases nodes
  {
    if nodes == [] then []
    else
      var p := PairOf(e, nodes[0]);
      Attr(e, p.0, p.1) + EncodeNodes(e, nodes[1..])
  }

  function PairsOf(e: Endian, nodes: seq<Node>): (r: seq<Pair>)
    ensures |r| == |nodes| && forall i :: 0 <= i < |r| ==> r[i] == PairOf(e, nodes[i])
  {
    seq(|nodes|, i requires 0 <= i < |nodes| => PairOf(e, nodes[i]))
  }

  lemma {:induction false} NodesArePairs(e: Endian, nodes: seq<Node>)
    ensures EncodeNodes(e, nodes) == EncodeAll(e, PairsOf(e, nodes))
  {
    hide Attr;
    if nodes != [] {
      NodesArePairs(e, nodes[1..]);
      assert PairsOf(e, nodes)[1..] == PairsOf(e, nodes[1..]);
    }
  }

  /** Types below the mask, and every payload, at every level, within the 16-bit length. */
  ghost predicate Sound(e: Endian, nodes: seq<Node>)
    decreases nodes
  {
    forall i :: 0 <= i < |nodes| ==>
      nodes[i].typ <= TYPE_MASK && 4 + |PairOf(e, nodes[i]).1| < 0x1_0000
      && (nodes[i].Nest? ==> Sound(e, nodes[i].inner))
  }

  /** A byte string walks as the tree: the same types in order, each value as it is, each nest walking as its own tree. */
  ghost predicate WalksAs(e: Endian, b: seq<byte>, nodes: seq<Node>)
    decreases nodes
  {
    var r := Visits(e, b);
    && r.Ok? && |r.value| == |nodes|
    && forall i :: 0 <= i < |nodes| ==>
         r.value[i].0 == nodes[i].typ
         && (nodes[i].Value? ==> r.value[i].1 == nodes[i].payload)
         && (nodes[i].Nest? ==> WalksAs(e, r.value[i].1, nodes[i].inner))
  }

  lemma MaskOfNested(typ: nat)
    requires typ <= TYPE_MASK
    ensures Masked(typ) == typ && Masked(typ + NESTED) == typ
  {}

  /** Round trip at every nesting level. */
  lemma {:induction false} TreeWalks(e: Endian, nodes: seq<Node>)
    requires Sound(e, nodes)
    ensures WalksAs(e, EncodeNodes(e, nodes), nodes)
    decreases nodes
  {
    hide Visits, Masked;
    var pairs := PairsOf(e, nodes);
    NodesArePairs(e, nodes);
    VisitsExactlyWhatFits(e, pairs);
    forall i | 0 <= i < |nodes|
      ensures AllMasked(pairs)[i].0 == nodes[i].typ
      ensures nodes[i].Nest? ==> WalksAs(e, AllMasked(pairs)[i].1, nodes[i].inner)
    {
      MaskOfNested(nodes[i].typ);
      if nodes[i].Nest? {
        TreeWalks(e, nodes[i].inner);
      }
    }
  }
}
