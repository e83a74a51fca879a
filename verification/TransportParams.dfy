/** QUIC transport parameters and their description: parseTransportParams, describeParams and describeVersions of
    internal/quic/hello.go (sections 18 and 18.1 of RFC 9000, and RFC 9368). */
module TransportParams {
  import opened Options
  import opened Bytes
  import opened Decimals
  import opened Texts
  import Varint

  datatype Param = Param(id: nat, value: seq<byte>)

  const MAX_PARAMS: nat := 128
  const INITIAL_SOURCE_CID: nat := 0x0f
  const VERSION_INFO: nat := 0x11
  const VERSION_INFO_DRAFT: nat := 0xff73db
  const VERSION_1: nat := 1
  const VERSION_2: nat := 0x6b3343cf

  predicate IsInteger(id: nat) {
    id in {0x01, 0x03, 0x04, 0x05, 0x06, 0x07, 0x08, 0x09, 0x0a, 0x0b, 0x0e, 0x20, 0xff04de1b}
  }

  predicate IsVersionInfo(id: nat) {
    id == VERSION_INFO || id == VERSION_INFO_DRAFT
  }

  /** Reserved to exercise the requirement that unknown parameters be ignored: 31 * N + 27. */
  predicate IsGrease(id: nat) {
    id >= 27 && (id - 27) % 31 == 0
  }

  lemma GreaseIsReserved(id: nat)
    ensures IsGrease(id) <==> exists n: nat :: id == 31 * n + 27
  {
    if IsGrease(id) {
      assert id == 31 * ((id - 27) / 31) + 27;
    }
  }

  // ---- parsing ------------------------------------------------------------------------------------------

  datatype ParamError = TooMany | ShortVarint | BeyondExtension

  datatype Parsed = Parsed(params: seq<Param>, error: Option<ParamError>)

  function ParseFrom(b: seq<byte>, out: seq<Param>): (r: Parsed)
    decreases |b|
  {
    if b == [] then Parsed(out, None)
    else if |out| == MAX_PARAMS then Parsed(out, Some(TooMany))
    else
      var id := Varint.Decode(b);
      if id.None? then Parsed(out, Some(ShortVarint))
      else
        var n1 := id.value.size;
        var ln := Varint.Decode(b[n1..]);
        if ln.None? then Parsed(out, Some(ShortVarint))
        else
          var start := n1 + ln.value.size;
          if ln.value.value > |b| - start then Parsed(out, Some(BeyondExtension))
          else
            var end := start + ln.value.value;
            ParseFrom(b[end..], out + [Param(id.value.value, b[start..end])])
  }

  method ParseParams(b0: seq<byte>) returns (r: Parsed)
    ensures r == ParseFrom(b0, [])
  {
    hide Varint.Decode;
    var b, out := b0, [];
    while |b| > 0
      invariant ParseFrom(b, out) == ParseFrom(b0, [])
      decreases |b|
    {
      if |out| == MAX_PARAMS {
        return Parsed(out, Some(TooMany));
      }
      var id := Varint.ReadVarint(b);
      if id.None? {
        return Parsed(out, Some(ShortVarint));
      }
      var n1 := id.value.size;
      var ln := Varint.ReadVarint(b[n1..]);
      if ln.None? {
        return Parsed(out, Some(ShortVarint));
      }
      var start := n1 + ln.value.size;
      if ln.value.value > |b| - start {
        return Parsed(out, Some(BeyondExtension));
      }
      var end := start + ln.value.value;
      out := out + [Param(id.value.value, b[start..end])];
      b := b[end..];
    }
    return Parsed(out, None);
  }

  /** Number and length fit a variable-length integer. */
  predicate InRange(p: Param) {
    p.id < Varint.LIMIT && |p.value| < Varint.LIMIT
  }

  predicate Printable(ps: seq<Param>) {
    forall i :: 0 <= i < |ps| ==> InRange(ps[i])
  }

  function EncodeParam(p: Param): (b: seq<byte>)
    requires InRange(p)
  {
    Varint.Encode(p.id) + Varint.Encode(|p.value|) + p.value
  }

  function EncodeParams(ps: seq<Param>): (b: seq<byte>)
    requires Printable(ps)
  {
    if ps == [] then [] else EncodeParam(ps[0]) + EncodeParams(ps[1..])
  }

  lemma ParamParts(p: Param, rest: seq<byte>)
    requires InRange(p)
    ensures var b := EncodeParam(p) + rest;
            var id := Varint.Decode(b);
      && b != [] && id.Some? && id.value.value == p.id
      && var ln := Varint.Decode(b[id.value.size..]);
         var start := id.value.size + |Varint.Encode(|p.value|)|;
      && ln == Some(Varint.Read(|p.value|, |Varint.Encode(|p.value|)|))
      && |p.value| <= |b| - start && b[start..start + |p.value|] == p.value && b[start + |p.value|..] == rest
  {
    hide Varint.Decode, Varint.Encode;
    var id, ln, tail := Varint.Encode(p.id), Varint.Encode(|p.value|), p.value + rest;
    var b := EncodeParam(p) + rest;
    Varint.RoundTrip(p.id, ln + tail);
    Varint.RoundTrip(|p.value|, tail);
    assert b == id + (ln + tail);
    assert b[|id|..] == ln + tail;
    assert b == (id + ln) + tail;
    SliceParts(id + ln, p.value, rest);
  }

  lemma SliceParts(x: seq<byte>, y: seq<byte>, z: seq<byte>)
    ensures (x + (y + z))[|x|..|x| + |y|] == y && (x + (y + z))[|x| + |y|..] == z
  {}

  lemma ParseOne(p: Param, rest: seq<byte>, out: seq<Param>)
    requires InRange(p) && |out| < MAX_PARAMS
    ensures ParseFrom(EncodeParam(p) + rest, out) == ParseFrom(rest, out + [p])
  {
    hide Varint.Decode, Varint.Encode, EncodeParam;
    ParamParts(p, rest);
  }

  /** Round trip: what was printed is parsed, all of it up to 128 parameters, and the first 128 with an error beyond that. */
  lemma {:induction false} ParseRoundTrip(ps: seq<Param>, out: seq<Param>)
    requires Printable(ps) && |out| <= MAX_PARAMS
    ensures var all := out + ps;
      ParseFrom(EncodeParams(ps), out)
      == if |all| <= MAX_PARAMS then Parsed(all, None) else Parsed(all[..MAX_PARAMS], Some(TooMany))
    decreases |ps|
  {
    hide EncodeParam, Varint.Decode, InRange;
    if ps == [] {
      assert out + ps == out;
    } else if |out| < MAX_PARAMS {
      hide ParseFrom;
      ParseOne(ps[0], EncodeParams(ps[1..]), out);
      ParseRoundTrip(ps[1..], out + [ps[0]]);
      assert out + [ps[0]] + ps[1..] == out + ps;
    } else {
      FirstNotEmpty(ps[0]);
      assert EncodeParams(ps) != [];
      assert (out + ps)[..MAX_PARAMS] == out;
    }
  }

  lemma FirstNotEmpty(p: Param)
    requires InRange(p)
    ensures EncodeParam(p) != []
  {
    ParamParts(p, []);
    assert EncodeParam(p) + [] == EncodeParam(p);
  }

  // ---- what a description is about ------------------------------------------------------------------------

  /** What is kept of version_information: its length when that is wrong; otherwise the chosen version, the versions
      behind it that are not reserved, and whether there was a reserved one. */
  datatype VersionShape = BadLength(n: nat) | Offered(chosen: nat, others: seq<nat>, grease: bool)

  /** What is kept of a parameter. */
  datatype Shape =
    | Presence(id: nat)
    | Length(id: nat, n: nat)
    | Number(id: nat, v: Option<nat>)
    | Versions(id: nat, s: VersionShape)

  function Word(v: seq<byte>, i: nat): (x: nat)
    requires i + 4 <= |v|
  {
    var a: int, b: int, c: int, d: int := v[i], v[i + 1], v[i + 2], v[i + 3];
    a * 0x100_0000 + b * 0x1_0000 + c * 0x100 + d
  }

  /** `x & 0x0f0f0f0f == 0x0a0a0a0a`. */
  predicate GreaseVersion(x: nat) {
    x % 16 == 10 && x / 0x100 % 16 == 10 && x / 0x1_0000 % 16 == 10 && x / 0x100_0000 % 16 == 10
  }

  /** The number a version is shown as: version 2 is shown as 2. */
  function Shown(x: nat): nat {
    if x == VERSION_2 then 2 else x
  }

  predicate LengthOk(n: nat) {
    4 <= n <= 64 && n % 4 == 0
  }

  /** The versions from word k on that are not reserved, as they are shown. */
  function Others(v: seq<byte>, k: nat): (r: seq<nat>)
    decreases |v| / 4 - k
  {
    if k >= |v| / 4 then []
    else if GreaseVersion(Word(v, 4 * k)) then Others(v, k + 1)
    else [Shown(Word(v, 4 * k))] + Others(v, k + 1)
  }

  predicate AnyGrease(v: seq<byte>, k: nat)
    decreases |v| / 4 - k
  {
    k < |v| / 4 && (GreaseVersion(Word(v, 4 * k)) || AnyGrease(v, k + 1))
  }

  function VersionShapeOf(v: seq<byte>): (s: VersionShape) {
    if !LengthOk(|v|) then BadLength(|v|) else Offered(Shown(Word(v, 0)), Others(v, 1), AnyGrease(v, 0))
  }

  function NumberIn(value: seq<byte>): (v: Option<nat>) {
    var r := Varint.Decode(value);
    if r.Some? && r.value.size == |value| then Some(r.value.value) else None
  }

  function ShapeOf(p: Param): (s: Shape)
    ensures s.id == p.id
  {
    if IsInteger(p.id) then Number(p.id, NumberIn(p.value))
    else if IsVersionInfo(p.id) then Versions(p.id, VersionShapeOf(p.value))
    else if p.id == INITIAL_SOURCE_CID then Length(p.id, |p.value|)
    else Presence(p.id)
  }

  // ---- the code -------------------------------------------------------------------------------------------

  function NameOf(x: nat): (s: string) {
    if x == VERSION_1 then "1" else if x == VERSION_2 then "2" else Hex(x)
  }

  lemma NameIsHex(x: nat)
    ensures NameOf(x) == Hex(Shown(x))
  {}

  function Marker(grease: bool): seq<string> {
    if grease then ["grease"] else []
  }

  function Hexes(xs: seq<nat>): (r: seq<string>)
    ensures |r| == |xs| && forall i :: 0 <= i < |r| ==> r[i] == Hex(xs[i])
  {
    seq(|xs|, i requires 0 <= i < |xs| => Hex(xs[i]))
  }

  function VersionText(s: VersionShape): (t: string) {
    match s
    case BadLength(n) => "?" + Decimal(n)
    case Offered(chosen, others, grease) => Join(Hexes([chosen] + others) + Marker(grease), ';')
  }

  method DescribeVersions(v: seq<byte>) returns (s: string)
    ensures s == VersionText(VersionShapeOf(v))
  {
    hide Word, Hex, GreaseVersion;
    if |v| < 4 || |v| % 4 != 0 || |v| > 64 {
      return "?" + Decimal(|v|);
    }
    var chosen := Word(v, 0);
    var grease := GreaseVersion(chosen);
    NameIsHex(chosen);
    ghost var shown := [Shown(chosen)];
    var parts := [NameOf(chosen)];
    assert parts == Hexes(shown);
    var i := 4;
    while i < |v|
      invariant 4 <= i <= |v| && i % 4 == 0
      invariant parts == Hexes(shown) && shown + Others(v, i / 4) == [Shown(chosen)] + Others(v, 1)
      invariant (grease || AnyGrease(v, i / 4)) == AnyGrease(v, 0)
    {
      var x := Word(v, i);
      assert 4 * (i / 4) == i && (i + 4) / 4 == i / 4 + 1;
      i := i + 4;
      if GreaseVersion(x) {
        grease := true;
        continue;
      }
      NameIsHex(x);
      parts := parts + [NameOf(x)];
      shown := shown + [Shown(x)];
    }
    assert Others(v, i / 4) == [] && shown + [] == shown;
    if grease {
      parts := parts + ["grease"];
    }
    assert parts == Hexes([Shown(chosen)] + Others(v, 1)) + Marker(grease);
    return Join(parts, ';');
  }

  /** What is written behind the number of a parameter. */
  function Suffix(s: Shape): (t: string) {
    match s
    case Presence(_) => ""
    case Length(_, n) => "/" + Decimal(n)
    case Number(_, v) => "=" + if v.Some? then Decimal(v.value) else "?"
    case Versions(_, vs) => "=" + VersionText(vs)
  }

  datatype Item = Item(id: nat, txt: string)

  function ItemOf(s: Shape): (it: Item) {
    Item(s.id, Hex(s.id) + Suffix(s))
  }

  method TextOf(p: Param) returns (txt: string)
    ensures txt == ItemOf(ShapeOf(p)).txt
  {
    hide Varint.Decode, Hex, VersionText, VersionShapeOf;
    txt := Hex(p.id);
    if IsInteger(p.id) {
      var r := Varint.ReadVarint(p.value);
      if r.Some? && r.value.size == |p.value| {
        txt := txt + ("=" + Decimal(r.value.value));
      } else {
        txt := txt + "=?";
      }
    } else if p.id == VERSION_INFO || p.id == VERSION_INFO_DRAFT {
      var v := DescribeVersions(p.value);
      txt := txt + ("=" + v);
    } else if p.id == INITIAL_SOURCE_CID {
      txt := txt + ("/" + Decimal(|p.value|));
    }
  }

  /** The parameters that are not reserved, in the order they came. */
  function Shapes(params: seq<Param>): (r: seq<Shape>) {
    if params == [] then []
    else
      var last := params[|params| - 1];
      if IsGrease(last.id) then Shapes(params[..|params| - 1]) else Shapes(params[..|params| - 1]) + [ShapeOf(last)]
  }

  predicate HasGrease(params: seq<Param>) {
    exists i :: 0 <= i < |params| && IsGrease(params[i].id)
  }

  function ItemsOf(shapes: seq<Shape>): (r: seq<Item>)
    ensures |r| == |shapes| && forall i :: 0 <= i < |r| ==> r[i] == ItemOf(shapes[i])
  {
    seq(|shapes|, i requires 0 <= i < |shapes| => ItemOf(shapes[i]))
  }

  ghost predicate SortedById(items: seq<Item>) {
    forall i, j :: 0 <= i < j < |items| ==> items[i].id <= items[j].id
  }

  function TextsOf(items: seq<Item>): (r: seq<string>)
    ensures |r| == |items| && forall i :: 0 <= i < |r| ==> r[i] == items[i].txt
  {
    seq(|items|, i requires 0 <= i < |items| => items[i].txt)
  }

  function Rendered(items: seq<Item>, grease: bool): (s: string) {
    Join(TextsOf(items) + Marker(grease), ',')
  }

  /** sort.Slice promises an order by id and nothing about items with the same id, so a description is any string that
      some such order gives. */
  ghost predicate Describes(params: seq<Param>, s: string) {
    exists items :: IsArrangement(items, params) && s == Rendered(items, HasGrease(params))
  }

  ghost predicate IsArrangement(items: seq<Item>, params: seq<Param>) {
    SortedById(items) && multiset(items) == multiset(ItemsOf(Shapes(params)))
  }

  method DescribeParams(params: seq<Param>) returns (s: string)
    ensures Describes(params, s)
  {
    hide ItemOf, ShapeOf, IsGrease;
    var items: seq<Item>, grease := [], false;
    for i := 0 to |params|
      invariant items == ItemsOf(Shapes(params[..i]))
      invariant grease == HasGrease(params[..i])
    {
      var p := params[i];
      assert params[..i + 1] == params[..i] + [p];
      ShapesSnoc(params[..i], p);
      if IsGrease(p.id) {
        grease := true;
        continue;
      }
      var txt := TextOf(p);
      items := items + [Item(p.id, txt)];
      ItemIs(p, txt);
    }
    assert params[..|params|] == params;
    var sorted := SortItems(items);
    var parts: seq<string> := [];
    for i := 0 to |sorted|
      invariant parts == TextsOf(sorted[..i])
    {
      parts := parts + [sorted[i].txt];
    }
    assert sorted[..|sorted|] == sorted;
    if grease {
      parts := parts + ["grease"];
    }
    assert parts == TextsOf(sorted) + Marker(grease);
    assert IsArrangement(sorted, params);
    return Join(parts, ',');
  }

  lemma ItemIs(p: Param, txt: string)
    requires txt == ItemOf(ShapeOf(p)).txt
    ensures Item(p.id, txt) == ItemOf(ShapeOf(p))
  {
    hide Hex, Suffix;
  }

  lemma ShapesSnoc(params: seq<Param>, p: Param)
    ensures Shapes(params + [p]) == Shapes(params) + if IsGrease(p.id) then [] else [ShapeOf(p)]
    ensures HasGrease(params + [p]) <==> HasGrease(params) || IsGrease(p.id)
  {
    hide IsGrease, ShapeOf;
    var all := params + [p];
    assert all[..|all| - 1] == params;
    if HasGrease(params) {
      var i :| 0 <= i < |params| && IsGrease(params[i].id);
      assert all[i] == params[i];
    }
    assert all[|params|] == p;
  }

  method SortItems(items: seq<Item>) returns (r: seq<Item>)
    ensures SortedById(r) && multiset(r) == multiset(items)
  {
    r := [];
    for i := 0 to |items|
      invariant SortedById(r) && multiset(r) == multiset(items[..i])
    {
      assert items[..i + 1] == items[..i] + [items[i]];
      r := Insert(r, items[i]);
    }
    assert items[..|items|] == items;
  }

  method Insert(r: seq<Item>, it: Item) returns (s: seq<Item>)
    requires SortedById(r)
    ensures SortedById(s) && multiset(s) == multiset(r) + multiset{it}
  {
    var k := |r|;
    while k > 0 && it.id < r[k - 1].id
      invariant 0 <= k <= |r| && forall j :: k <= j < |r| ==> it.id < r[j].id
      decreases k
    {
      k := k - 1;
    }
    s := r[..k] + [it] + r[k..];
    Inserted(r, it, k);
  }

  lemma Inserted(r: seq<Item>, it: Item, k: nat)
    requires SortedById(r) && k <= |r|
    requires (k > 0 ==> r[k - 1].id <= it.id) && forall j :: k <= j < |r| ==> it.id < r[j].id
    ensures SortedById(r[..k] + [it] + r[k..]) && multiset(r[..k] + [it] + r[k..]) == multiset(r) + multiset{it}
  {
    assert r[..k] + r[k..] == r;
    OneMore(r[..k], it, r[k..]);
    StillSorted(r, it, k);
  }

  lemma OneMore(x: seq<Item>, it: Item, y: seq<Item>)
    ensures multiset(x + [it] + y) == multiset(x + y) + multiset{it}
  {}

  lemma StillSorted(r: seq<Item>, it: Item, k: nat)
    requires SortedById(r) && k <= |r|
    requires (k > 0 ==> r[k - 1].id <= it.id) && forall j :: k <= j < |r| ==> it.id < r[j].id
    ensures SortedById(r[..k] + [it] + r[k..])
  {
    var s := r[..k] + [it] + r[k..];
    forall i, j | 0 <= i < j < |s| ensures s[i].id <= s[j].id {
      InsertedAt(r, it, k, i);
      InsertedAt(r, it, k, j);
    }
  }

  lemma InsertedAt(r: seq<Item>, it: Item, k: nat, j: nat)
    requires k <= |r| && j <= |r|
    ensures (r[..k] + [it] + r[k..])[j] == if j < k then r[j] else if j == k then it else r[j - 1]
  {}
}
