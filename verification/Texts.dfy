/** Hexadecimal numerals and joined lists, as strconv.FormatUint(n, 16) and strings.Join make them, and how far they can be
    read back. */
module Texts {
  import opened Decimals

  predicate IsHex(c: char) {
    '0' <= c <= '9' || 'a' <= c <= 'f'
  }

  predicate AllHex(s: string) {
    forall i :: 0 <= i < |s| ==> IsHex(s[i])
  }

  function HexDigit(d: nat): (c: char)
    requires d < 16
    ensures IsHex(c)
  {
    if d < 10 then '0' + d as char else 'a' + (d - 10) as char
  }

  function Hex(n: nat): (s: string)
    ensures |s| > 0 && AllHex(s)
  {
    if n < 16 then [HexDigit(n)] else Hex(n / 16) + [HexDigit(n % 16)]
  }

  /** The number a text of hexadecimal digits stands for. */
  function HexValue(s: string): (v: nat)
    requires AllHex(s)
  {
    if s == "" then 0
    else
      var c := s[|s| - 1];
      HexValue(s[..|s| - 1]) * 16 + if c <= '9' then c as int - '0' as int else c as int - 'a' as int + 10
  }

  /** The numeral stands for its number, and does not begin with a zero unless it is one. */
  lemma {:induction false} HexNumeral(n: nat)
    ensures HexValue(Hex(n)) == n && (Hex(n)[0] == '0' <==> n == 0)
  {
    if n >= 16 {
      HexNumeral(n / 16);
      assert Hex(n)[..|Hex(n)| - 1] == Hex(n / 16);
    } else {
      assert Hex(n)[..0] == "";
    }
  }

  lemma HexInjective(a: nat, b: nat)
    requires Hex(a) == Hex(b)
    ensures a == b
  {
    HexNumeral(a);
    HexNumeral(b);
  }

  lemma DecimalInjective(a: nat, b: nat)
    requires Decimal(a) == Decimal(b)
    ensures a == b
  {
    DecimalValue(a);
    DecimalValue(b);
  }

  /** Empty, or beginning with what is no hexadecimal digit. */
  predicate EndsHex(s: string) {
    s != "" ==> !IsHex(s[0])
  }

  lemma HexEnds(x: string, s: string, k: nat)
    requires EndsHex(s) && k <= |x + s| && forall i :: 0 <= i < k ==> IsHex((x + s)[i])
    ensures k <= |x|
  {
    assert s != "" ==> (x + s)[|x|] == s[0] && !IsHex((x + s)[|x|]);
  }

  /** A number and what follows it can be told apart. */
  lemma HexThen(a: nat, s: string, b: nat, t: string)
    requires EndsHex(s) && EndsHex(t) && Hex(a) + s == Hex(b) + t
    ensures a == b && s == t
  {
    hide Hex;
    var x, y := Hex(a), Hex(b);
    HexEnds(x, s, |y|);
    HexEnds(y, t, |x|);
    assert x == (x + s)[..|x|] && y == (y + t)[..|y|];
    assert s == (x + s)[|x|..] && t == (y + t)[|y|..];
    HexInjective(a, b);
  }

  // ---- lists -------------------------------------------------------------------------------------------

  function Join(parts: seq<string>, sep: char): (s: string) {
    if parts == [] then ""
    else if |parts| == 1 then parts[0]
    else parts[0] + [sep] + Join(parts[1..], sep)
  }

  predicate Plain(s: string, sep: char) {
    s != "" && sep !in s
  }

  predicate AllPlain(parts: seq<string>, sep: char) {
    forall i :: 0 <= i < |parts| ==> Plain(parts[i], sep)
  }

  /** What is behind the first part, its separator included. */
  function Behind(parts: seq<string>, sep: char): (s: string)
    requires parts != []
    ensures Join(parts, sep) == parts[0] + s
    ensures s == "" || s[0] == sep
  {
    if |parts| == 1 then "" else [sep] + Join(parts[1..], sep)
  }

  lemma PartEnds(x: string, s: string, y: string, t: string, sep: char)
    requires Plain(x, sep) && Plain(y, sep) && (s == "" || s[0] == sep) && (t == "" || t[0] == sep) && x + s == y + t
    ensures x == y && s == t
  {
    assert |y| <= |x| by { NoSeparator(x, s, y, t, sep); }
    assert |x| <= |y| by { NoSeparator(y, t, x, s, sep); }
    assert x == (x + s)[..|x|] && y == (y + t)[..|y|];
    assert s == (x + s)[|x|..] && t == (y + t)[|y|..];
  }

  lemma NoSeparator(x: string, s: string, y: string, t: string, sep: char)
    requires sep !in y && (s == "" || s[0] == sep) && x + s == y + t
    ensures |y| <= |x|
  {
    assert s != "" ==> (x + s)[|x|] == sep;
    assert forall i :: 0 <= i < |y| ==> (y + t)[i] == y[i];
  }

  /** A joined list of parts without the separator can be read back. */
  lemma {:induction false} JoinInjective(x: seq<string>, y: seq<string>, sep: char)
    requires AllPlain(x, sep) && AllPlain(y, sep) && Join(x, sep) == Join(y, sep)
    ensures x == y
    decreases |x|
  {
    JoinNotEmpty(x, sep);
    JoinNotEmpty(y, sep);
    if x != [] && y != [] {
      PartEnds(x[0], Behind(x, sep), y[0], Behind(y, sep), sep);
      SameBehind(x, y, sep);
      JoinInjective(x[1..], y[1..], sep);
      assert x == [x[0]] + x[1..] && y == [y[0]] + y[1..];
    }
  }

  lemma JoinNotEmpty(x: seq<string>, sep: char)
    requires AllPlain(x, sep)
    ensures Join(x, sep) == "" <==> x == []
  {
    if x != [] {
      assert Join(x, sep) == x[0] + Behind(x, sep);
    }
  }

  lemma SameBehind(x: seq<string>, y: seq<string>, sep: char)
    requires x != [] && y != [] && Behind(x, sep) == Behind(y, sep)
    ensures Join(x[1..], sep) == Join(y[1..], sep) && (|x| == 1 <==> |y| == 1)
  {
    assert |x| > 1 ==> Behind(x, sep)[1..] == Join(x[1..], sep);
    assert |y| > 1 ==> Behind(y, sep)[1..] == Join(y[1..], sep);
  }
}
