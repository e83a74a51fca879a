/** Transport parameters as they may arrive: the extension as a grammar that parseTransportParams of internal/quic/hello.go
    reads exactly, and what each number and version is described as (section 18 of RFC 9000, RFC 9368). */
module TransportGrammar {
  import opened Options
  import opened Bytes
  import opened Decimals
  import opened Texts
  import opened TransportParams
  import opened FrameGrammar
  import Varint

  // ---- the extension -----------------------------------------------------------------------------

  /** Two integers, the first in b[..i] and the second in b[i..j]. */
  ghost predicate TwoVarints(b: seq<byte>, x: nat, y: nat, i: int, j: int) {
    0 <= i <= j <= |b| && IsVarint(b[..i], x) && IsVarint(b[i..j], y)
  }

  /** The parameter is at the front of b, in n bytes: its number, its length and its value. */
  ghost predicate ParamFirst(b: seq<byte>, p: Param, n: int) {
    0 < n <= |b| && exists i, j :: TwoVarints(b, p.id, |p.value|, i, j) && j + |p.value| == n && b[j..n] == p.value
  }

  ghost predicate AreParams(b: seq<byte>, ps: seq<Param>)
    decreases |ps|
  {
    if ps == [] then b == []
    else exists n :: 0 < n <= |b| && ParamFirst(b, ps[0], n) && AreParams(b[n..], ps[1..])
  }

  /** Why parsing stops in front of b, with so many parameters taken: there are 128 already; there are not two integers; or the
      second says more than is left. */
  ghost predicate StopsAt(b: seq<byte>, taken: nat, e: ParamError) {
    b != [] && match e
      case TooMany => taken == 128
      case ShortVarint => taken < 128 && forall x: nat, y: nat, i, j :: !TwoVarints(b, x, y, i, j)
      case BeyondExtension => taken < 128 && exists x: nat, y: nat, i, j :: TwoVarints(b, x, y, i, j) && y > |b| - j
  }

  lemma TwoRead(b: seq<byte>, x: nat, y: nat, i: int, j: int)
    requires TwoVarints(b, x, y, i, j)
    ensures Varint.Decode(b) == Some(Varint.Read(x, i)) && Varint.Decode(b[i..]) == Some(Varint.Read(y, j - i))
  {
    hide IsVarint, Varint.Decode;
    DecodeExactly(b, x, i);
    assert b[i..][..j - i] == b[i..j];
    DecodeExactly(b[i..], y, j - i);
  }

  lemma TwoMeant(b: seq<byte>)
    requires Varint.Decode(b).Some? && Varint.Decode(b[Varint.Decode(b).value.size..]).Some?
    ensures var x := Varint.Decode(b).value;
            var y := Varint.Decode(b[x.size..]).value;
            TwoVarints(b, x.value, y.value, x.size, x.size + y.size)
  {
    hide IsVarint, Varint.Decode;
    var x := Varint.Decode(b).value;
    var y := Varint.Decode(b[x.size..]).value;
    DecodeExactly(b, x.value, x.size);
    DecodeExactly(b[x.size..], y.value, y.size);
    assert b[x.size..][..y.size] == b[x.size..x.size + y.size];
  }

  lemma ParamIsRead(b: seq<byte>, p: Param, n: nat, out: seq<Param>)
    requires ParamFirst(b, p, n) && |out| < 128
    ensures ParseFrom(b, out) == ParseFrom(b[n..], out + [p])
  {
    hide IsVarint, Varint.Decode;
    var i, j :| TwoVarints(b, p.id, |p.value|, i, j) && j + |p.value| == n && b[j..n] == p.value;
    TwoRead(b, p.id, |p.value|, i, j);
  }

  lemma StopIsRead(b: seq<byte>, out: seq<Param>, e: ParamError)
    requires StopsAt(b, |out|, e)
    ensures ParseFrom(b, out) == Parsed(out, Some(e))
  {
    hide TwoVarints, Varint.Decode;
    if e.BeyondExtension? {
      var x: nat, y: nat, i, j :| TwoVarints(b, x, y, i, j) && y > |b| - j;
      TwoRead(b, x, y, i, j);
    } else if e.ShortVarint? && Varint.Decode(b).Some? && Varint.Decode(b[Varint.Decode(b).value.size..]).Some? {
      TwoMeant(b);
    }
  }

  /** Every input has a parameter at its front or a reason to stop there. */
  lemma ParamOrStop(b: seq<byte>, taken: nat) returns (p: Param, n: nat, e: Option<ParamError>)
    requires b != [] && taken <= 128
    ensures if e.None? then taken < 128 && ParamFirst(b, p, n) else StopsAt(b, taken, e.value)
  {
    hide IsVarint, Varint.Decode;
    p, n := Param(0, []), 0;
    var x := Varint.Decode(b);
    if taken == 128 {
      e := Some(TooMany);
    } else if x.None? || Varint.Decode(b[x.value.size..]).None? {
      e := Some(ShortVarint);
      forall x: nat, y: nat, i, j ensures !TwoVarints(b, x, y, i, j) {
        if TwoVarints(b, x, y, i, j) {
          TwoRead(b, x, y, i, j);
        }
      }
    } else {
      TwoMeant(b);
      var y := Varint.Decode(b[x.value.size..]).value;
      var j := x.value.size + y.size;
      if y.value > |b| - j {
        e := Some(BeyondExtension);
      } else {
        p, n, e := Param(x.value.value, b[j..j + y.value]), j + y.value, None;
        assert TwoVarints(b, p.id, |p.value|, x.value.size, j);
      }
    }
  }

  ghost predicate LedByParams(b: seq<byte>, n: int, r: Parsed, taken: nat) {
    && 0 <= n <= |b| && AreParams(b[..n], r.params) && taken + |r.params| <= 128
    && (if n == |b| then r.error == None else r.error.Some? && StopsAt(b[n..], taken + |r.params|, r.error.value))
  }

  lemma {:induction false} LedIsRead(b: seq<byte>, n: nat, r: Parsed, out: seq<Param>)
    requires LedByParams(b, n, r, |out|)
    ensures ParseFrom(b, out) == Parsed(out + r.params, r.error)
    decreases |r.params|
  {
    hide ParamFirst, StopsAt, ParseFrom;
    if r.params == [] {
      assert b[n..] == b && out + r.params == out;
      if b == [] {
        NothingLeft(out);
      } else {
        StopIsRead(b, out, r.error.value);
      }
    } else {
      var m :| 0 < m <= n && ParamFirst(b[..n], r.params[0], m) && AreParams(b[..n][m..], r.params[1..]);
      ParamWithin(b, r.params[0], m, n);
      ParamIsRead(b, r.params[0], m, out);
      assert b[..n][m..] == b[m..][..n - m];
      assert b[m..][n - m..] == b[n..];
      LedIsRead(b[m..], n - m, Parsed(r.params[1..], r.error), out + [r.params[0]]);
      assert out + [r.params[0]] + r.params[1..] == out + r.params;
    }
  }

  lemma NothingLeft(out: seq<Param>)
    ensures ParseFrom([], out) == Parsed(out, None)
  {}

  lemma ParamWithin(b: seq<byte>, p: Param, m: nat, n: nat)
    requires m <= n <= |b|
    ensures ParamFirst(b[..n], p, m) <==> ParamFirst(b, p, m)
  {
    hide IsVarint;
    forall i, j | 0 <= i <= j <= m ensures b[..n][..i] == b[..i] && b[..n][i..j] == b[i..j] && b[..n][j..m] == b[j..m] {}
    if ParamFirst(b[..n], p, m) {
      var i, j :| TwoVarints(b[..n], p.id, |p.value|, i, j) && j + |p.value| == m && b[..n][j..m] == p.value;
      assert TwoVarints(b, p.id, |p.value|, i, j);
    }
    if ParamFirst(b, p, m) {
      var i, j :| TwoVarints(b, p.id, |p.value|, i, j) && j + |p.value| == m && b[j..m] == p.value;
      assert TwoVarints(b[..n], p.id, |p.value|, i, j);
    }
  }

  lemma {:induction false} ParamsOf(b: seq<byte>, taken: nat) returns (n: nat, r: Parsed)
    requires taken <= 128
    ensures LedByParams(b, n, r, taken)
    decreases |b|
  {
    hide ParamFirst, StopsAt;
    n, r := 0, Parsed([], None);
    if b != [] {
      assert b[0..] == b;
      var p, m, e := ParamOrStop(b, taken);
      if e.Some? {
        r := Parsed([], e);
      } else {
        ParamSize(b, p, m);
        var k, t := ParamsOf(b[m..], taken + 1);
        n, r := m + k, Parsed([p] + t.params, t.error);
        ParamWithin(b, p, m, n);
        assert b[..n][m..] == b[m..][..k];
        assert b[m..][k..] == b[n..];
        assert r.params[1..] == t.params;
      }
    }
  }

  lemma ParamSize(b: seq<byte>, p: Param, n: nat)
    requires ParamFirst(b, p, n)
    ensures 0 < n <= |b|
  {
    hide TwoVarints;
  }

  /** parseTransportParams over every input: the parameters it is led by, at most 128 of them, and no error exactly when they
      are all of it, or else the reason it cannot go on. */
  lemma ParamsExactly(b: seq<byte>, r: Parsed)
    ensures r == ParseFrom(b, []) <==> exists n :: LedByParams(b, n, r, 0)
  {
    hide ParseFrom, AreParams, StopsAt;
    var m, t := ParamsOf(b, 0);
    LedIsRead(b, m, t, []);
    assert [] + t.params == t.params;
    if n :| LedByParams(b, n, r, 0) {
      LedIsRead(b, n, r, []);
      assert [] + r.params == r.params;
    }
  }

  // ---- what is described ------------------------------------------------------------------------------

  /** The four bytes of version number k, read as one number. */
  function VersionAt(v: seq<byte>, k: nat): nat
    requires 4 * k + 4 <= |v|
  {
    BigEndian(v[4 * k..4 * k + 4])
  }

  /** 0x?a?a?a?a: the low half of each of its bytes is ten. */
  predicate ReservedAt(v: seq<byte>, k: nat)
    requires 4 * k + 4 <= |v|
  {
    forall i :: 4 * k <= i < 4 * k + 4 ==> v[i] % 16 == 10
  }

  lemma WordIs(v: seq<byte>, k: nat)
    requires 4 * k + 4 <= |v|
    ensures Word(v, 4 * k) == VersionAt(v, k)
  {
    var w := v[4 * k..4 * k + 4];
    assert w == [w[0]] + [w[1]] + [w[2]] + [w[3]];
    hide BigEndian;
    BigEndianOne(w[0]);
    BigEndianSnoc([w[0]], w[1]);
    BigEndianSnoc([w[0]] + [w[1]], w[2]);
    BigEndianSnoc([w[0]] + [w[1]] + [w[2]], w[3]);
  }

  /** A number of two parts, the lower below 0x100 times a power of 0x100. */
  lemma LowByte(y: nat, d: byte)
    ensures var x := y * 0x100 + d as int; x / 0x100 == y && x % 16 == d % 16
  {
    var d': int := d;
    Sixteens(y * 16 + d' / 16, d' % 16);
  }

  lemma Sixteens(q: nat, r: nat)
    requires r < 16
    ensures (16 * q + r) % 16 == r
  {}

  lemma Shifts(x: nat)
    ensures x / 0x1_0000 == x / 0x100 / 0x100 && x / 0x100_0000 == x / 0x100 / 0x100 / 0x100
  {}

  lemma GreaseBytes(a: byte, b: byte, c: byte, d: byte)
    ensures var x := a as int * 0x100_0000 + b as int * 0x1_0000 + c as int * 0x100 + d as int;
            GreaseVersion(x) <==> a % 16 == 10 && b % 16 == 10 && c % 16 == 10 && d % 16 == 10
  {
    var ab := a as int * 0x100 + b as int;
    var abc := ab * 0x100 + c as int;
    LowByte(a as int, b);
    LowByte(ab, c);
    LowByte(abc, d);
    Shifts(abc * 0x100 + d as int);
  }

  lemma GreaseIs(v: seq<byte>, k: nat)
    requires 4 * k + 4 <= |v|
    ensures GreaseVersion(Word(v, 4 * k)) <==> ReservedAt(v, k)
  {
    hide GreaseVersion;
    GreaseBytes(v[4 * k], v[4 * k + 1], v[4 * k + 2], v[4 * k + 3]);
    if ReservedAt(v, k) {
      assert v[4 * k] % 16 == 10 && v[4 * k + 1] % 16 == 10 && v[4 * k + 2] % 16 == 10 && v[4 * k + 3] % 16 == 10;
    }
  }

  /** The versions of the list, from number k on, that are not reserved: where they are, and what is shown of them. Version 2 is
      shown as 2. */
  ghost predicate Picks(v: seq<byte>, k: nat, at: seq<nat>, shown: seq<nat>) {
    && |at| == |shown|
    && (forall i :: 0 <= i < |at| ==> k <= at[i] < |v| / 4 && !ReservedAt(v, at[i])
                                      && shown[i] == if VersionAt(v, at[i]) == 0x6b3343cf then 2 else VersionAt(v, at[i]))
    && (forall i, j :: 0 <= i < j < |at| ==> at[i] < at[j])
    && (forall m :: k <= m < |v| / 4 && !ReservedAt(v, m) ==> m in at)
  }

  lemma {:induction false} OthersArePicked(v: seq<byte>, k: nat) returns (at: seq<nat>)
    ensures Picks(v, k, at, Others(v, k))
    decreases |v| / 4 - k
  {
    hide VersionAt, ReservedAt, GreaseVersion, Word;
    if k >= |v| / 4 {
      at := [];
    } else {
      at := OthersArePicked(v, k + 1);
      WordIs(v, k);
      GreaseIs(v, k);
      if !ReservedAt(v, k) {
        PickOne(v, k, at, Others(v, k + 1));
        at := [k] + at;
      }
    }
  }

  lemma PickOne(v: seq<byte>, k: nat, at: seq<nat>, shown: seq<nat>)
    requires k < |v| / 4 && Picks(v, k + 1, at, shown) && !ReservedAt(v, k)
    ensures Picks(v, k, [k] + at, [if VersionAt(v, k) == 0x6b3343cf then 2 else VersionAt(v, k)] + shown)
  {
    hide VersionAt, ReservedAt;
  }

  lemma {:induction false} MarkerIs(v: seq<byte>, k: nat)
    ensures AnyGrease(v, k) <==> exists m :: k <= m < |v| / 4 && ReservedAt(v, m)
    decreases |v| / 4 - k
  {
    hide ReservedAt, GreaseVersion, Word;
    if k < |v| / 4 {
      GreaseIs(v, k);
      MarkerIs(v, k + 1);
    }
  }

  /** What is kept of version_information: of a length other than 4, 8, and so on to 64, that length; otherwise the chosen version,
      the others in order without the reserved ones, and whether any was reserved. */
  ghost predicate VersionsKept(v: seq<byte>, s: VersionShape) {
    if |v| == 0 || |v| % 4 != 0 || |v| > 64 then s == BadLength(|v|)
    else
      && s.Offered? && s.chosen == (if VersionAt(v, 0) == 0x6b3343cf then 2 else VersionAt(v, 0))
      && (exists at :: Picks(v, 1, at, s.others))
      && (s.grease <==> exists m :: 0 <= m < |v| / 4 && ReservedAt(v, m))
  }

  lemma VersionsExactly(v: seq<byte>)
    ensures VersionsKept(v, VersionShapeOf(v))
  {
    hide VersionAt, ReservedAt, GreaseVersion, Word, Others, AnyGrease, Picks;
    if LengthOk(|v|) {
      WordIs(v, 0);
      MarkerIs(v, 0);
      var at := OthersArePicked(v, 1);
    }
  }

  lemma NumberExactly(value: seq<byte>, v: nat)
    ensures NumberIn(value) == Some(v) <==> IsVarint(value, v)
  {
    hide IsVarint, Varint.Decode;
    assert value[..|value|] == value;
    DecodeExactly(value, v, |value|);
  }

  /** The parameters whose value is an integer, by number: max_idle_timeout, the sizes and limits from 3 to 11,
      active_connection_id_limit, max_datagram_frame_size and min_ack_delay. */
  predicate HasInteger(id: nat) {
    id == 1 || 3 <= id <= 11 || id == 14 || id == 32 || id == 0xff04de1b
  }

  /** What is kept of a parameter, by its number. */
  ghost predicate Kept(p: Param, s: Shape) {
    if HasInteger(p.id) then s.Number? && s.id == p.id && forall v: nat :: s.v == Some(v) <==> IsVarint(p.value, v)
    else if p.id == 0x11 || p.id == 0xff73db then s.Versions? && s.id == p.id && VersionsKept(p.value, s.s)
    else s == if p.id == 0x0f then Length(p.id, |p.value|) else Presence(p.id)
  }

  lemma KeptExactly(p: Param)
    ensures Kept(p, ShapeOf(p))
  {
    hide IsVarint, NumberIn, VersionsKept, VersionShapeOf;
    VersionsExactly(p.value);
    forall v: nat ensures NumberIn(p.value) == Some(v) <==> IsVarint(p.value, v) {
      NumberExactly(p.value, v);
    }
    assert IsInteger(p.id) <==> HasInteger(p.id);
  }

  /** The text of each kind. */
  lemma TextLayout(id: nat, n: nat)
    ensures ItemOf(Presence(id)).txt == Hex(id)
    ensures ItemOf(Length(id, n)).txt == Hex(id) + "/" + Decimal(n)
    ensures ItemOf(Number(id, Some(n))).txt == Hex(id) + "=" + Decimal(n)
    ensures ItemOf(Number(id, None)).txt == Hex(id) + "=?"
    ensures ItemOf(Versions(id, BadLength(n))).txt == Hex(id) + "=?" + Decimal(n)
  {
    hide Hex, Decimal, Join;
    assert Hex(id) + "" == Hex(id);
    assert Hex(id) + ("=" + ("?" + Decimal(n))) == Hex(id) + "=?" + Decimal(n);
  }

  /** Versions are joined by semicolons and parameters by commas, with the marker last. */
  lemma ListLayout(a: nat, b: nat, x: Item, y: Item)
    ensures VersionText(Offered(a, [b], true)) == Hex(a) + ";" + Hex(b) + ";" + "grease"
    ensures VersionText(Offered(a, [], false)) == Hex(a)
    ensures Rendered([x, y], true) == x.txt + "," + y.txt + "," + "grease" && Rendered([], false) == ""
  {
    hide Hex;
    assert Hexes([a] + [b]) + Marker(true) == [Hex(a), Hex(b), "grease"];
    assert Hexes([a] + []) + Marker(false) == [Hex(a)];
    assert TextsOf([x, y]) + Marker(true) == [x.txt, y.txt, "grease"];
    assert TextsOf([]) + Marker(false) == [];
    JoinThree(Hex(a), Hex(b), "grease", ';');
    JoinThree(x.txt, y.txt, "grease", ',');
  }

  lemma JoinThree(a: string, b: string, c: string, sep: char)
    ensures Join([a, b, c], sep) == a + [sep] + b + [sep] + c
  {
    assert [a, b, c][1..] == [b, c] && [b, c][1..] == [c];
    assert Join([b, c], sep) == b + [sep] + c;
  }
}
