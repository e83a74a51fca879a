/** Spool file names: how internal/exporters/loom/spool.go prints, splits, parses and sorts them. */
module LoomNames {
  import opened Options
  import opened Decimals

  // ---- padded numbers ----------------------------------------------------------------

  function Zeros(k: nat): (s: string)
    ensures |s| == k && AllDigits(s)
  {
    if k == 0 then "" else "0" + Zeros(k - 1)
  }

  /** %0wd of a natural number: at least w digits. */
  function Pad(n: nat, w: nat): (s: string)
    ensures |s| >= w && |s| > 0 && AllDigits(s)
  {
    var d := Decimal(n);
    if |d| < w then Zeros(w - |d|) + d else d
  }

  /** strconv.ParseInt for the numbers that occur: an optional plus sign, then digits, below 2^63. */
  const INT64_LIMIT: nat := 0x8000_0000_0000_0000

  function ParseNatural(s: string): (v: Option<nat>) {
    var t := if s != "" && s[0] == '+' then s[1..] else s;
    if t == "" || !AllDigits(t) || DigitsValue(t) >= INT64_LIMIT then None else Some(DigitsValue(t))
  }

  lemma {:induction false} LeadingZero(s: string)
    requires AllDigits(s)
    ensures AllDigits("0" + s) && DigitsValue("0" + s) == DigitsValue(s)
  {
    if s == "" {
      DigitsSnoc("", 0);
      assert "" + [Digit(0)] == "0" + s;
    } else {
      LeadingZero(s[..|s| - 1]);
      assert ("0" + s)[..|s|] == "0" + s[..|s| - 1];
    }
  }

  lemma {:induction false} LeadingZeros(k: nat, s: string)
    requires AllDigits(s)
    ensures AllDigits(Zeros(k) + s) && DigitsValue(Zeros(k) + s) == DigitsValue(s)
  {
    hide DigitsValue;
    if k == 0 {
      assert Zeros(0) + s == s;
    } else {
      var z := Zeros(k - 1);
      LeadingZeros(k - 1, s);
      LeadingZero(z + s);
      assert Zeros(k) + s == "0" + (z + s);
    }
  }

  lemma PadValue(n: nat, w: nat)
    ensures DigitsValue(Pad(n, w)) == n
  {
    DecimalValue(n);
    if |Decimal(n)| < w {
      LeadingZeros(w - |Decimal(n)|, Decimal(n));
    }
  }

  function Pow10(w: nat): (p: nat)
    ensures p > 0
  {
    if w == 0 then 1 else 10 * Pow10(w - 1)
  }

  lemma {:induction false} DecimalWidth(n: nat, w: nat)
    requires n < Pow10(w) && w > 0
    ensures |Decimal(n)| <= w
    decreases w
  {
    if n >= 10 {
      assert Pow10(w) == 10 * Pow10(w - 1);
      assert w > 1;
      DecimalWidth(n / 10, w - 1);
    }
  }

  lemma PadWidth(n: nat, w: nat)
    requires n < Pow10(w) && w > 0
    ensures |Pad(n, w)| == w
  {
    DecimalWidth(n, w);
  }

  // ---- order ------------------------------------------------------------------------------

  /** s and t differ at a position both have, and s is smaller there; extending them cannot change that. */
  ghost predicate Diverges(s: string, t: string) {
    exists k: nat :: DivergesAt(s, t, k)
  }

  predicate DivergesAt(s: string, t: string, k: nat) {
    k < |s| && k < |t| && s[..k] == t[..k] && s[k] < t[k]
  }

  /** Go's `<` on strings. */
  function Less(s: string, t: string): bool {
    if t == "" then false
    else if s == "" then true
    else if s[0] != t[0] then s[0] < t[0]
    else Less(s[1..], t[1..])
  }

  lemma DivergesExtends(s: string, t: string, u: string, v: string)
    requires Diverges(s, t)
    ensures Diverges(s + u, t + v)
  {
    var k: nat :| DivergesAt(s, t, k);
    assert (s + u)[..k] == s[..k] && (t + v)[..k] == t[..k];
    assert DivergesAt(s + u, t + v, k);
  }

  lemma DivergesBehind(p: string, s: string, t: string)
    requires Diverges(s, t)
    ensures Diverges(p + s, p + t)
  {
    var k: nat :| DivergesAt(s, t, k);
    assert (p + s)[..|p| + k] == p + s[..k] && (p + t)[..|p| + k] == p + t[..k];
    assert DivergesAt(p + s, p + t, |p| + k);
  }

  lemma {:induction false} DivergesIsLess(s: string, t: string)
    requires Diverges(s, t)
    ensures Less(s, t) && !Less(t, s)
    decreases |s|
  {
    var k: nat :| DivergesAt(s, t, k);
    if k > 0 {
      assert s[0] == s[..k][0] && t[0] == t[..k][0];
      assert s[1..][..k - 1] == s[..k][1..] && t[1..][..k - 1] == t[..k][1..];
      assert DivergesAt(s[1..], t[1..], k - 1);
      DivergesIsLess(s[1..], t[1..]);
    }
  }

  lemma {:induction false} DigitsDiverge(s: string, t: string)
    requires AllDigits(s) && AllDigits(t) && |s| == |t| && DigitsValue(s) < DigitsValue(t)
    ensures Diverges(s, t)
    decreases |s|
  {
    if s != "" {
      var n := |s| - 1;
      if DigitsValue(s[..n]) < DigitsValue(t[..n]) {
        DigitsDiverge(s[..n], t[..n]);
        DivergesExtends(s[..n], t[..n], [s[n]], [t[n]]);
        assert s[..n] + [s[n]] == s && t[..n] + [t[n]] == t;
      } else {
        EqualDigits(s[..n], t[..n]);
        assert DivergesAt(s, t, n);
      }
    }
  }

  /** Equally many digits with values in the wrong order, or equal, once the last digits cannot make up for it. */
  lemma {:induction false} EqualDigits(s: string, t: string)
    requires AllDigits(s) && AllDigits(t) && |s| == |t| && DigitsValue(s) == DigitsValue(t)
    ensures s == t
    decreases |s|
  {
    if s != "" {
      EqualDigits(s[..|s| - 1], t[..|s| - 1]);
      assert s == s[..|s| - 1] + [s[|s| - 1]] && t == t[..|s| - 1] + [t[|s| - 1]];
    }
  }

  // ---- stems and names ------------------------------------------------------------------------

  /** What orders a batch: when its first ancestor was written, its number in that run, and the halves taken since. */
  datatype Key = Key(nanos: nat, number: nat, path: string)

  const NANOS_WIDTH: nat := 20
  const SEQ_WIDTH: nat := 6
  const SEQ_LIMIT: nat := 1_000_000

  predicate IsPath(p: string) {
    forall i :: 0 <= i < |p| ==> p[i] == 'a' || p[i] == 'b'
  }

  function StemOf(k: Key): (s: string) {
    Pad(k.nanos, NANOS_WIDTH) + "-" + Pad(k.number, SEQ_WIDTH) + k.path
  }

  /** A name is a stem, a dash, the document count and the suffix. */
  function NameOf(stem: string, n: nat): (s: string) {
    stem + "-" + Decimal(n) + ".json"
  }

  function PutName(nanos: nat, number: nat, n: nat): (s: string) {
    NameOf(StemOf(Key(nanos, number, "")), n)
  }

  predicate HasSuffix(s: string, t: string) {
    |t| <= |s| && s[|s| - |t|..] == t
  }

  function TrimSuffix(s: string, t: string): string {
    if HasSuffix(s, t) then s[..|s| - |t|] else s
  }

  /** strings.LastIndexByte; -1 when there is none. */
  function LastIndex(s: string, c: char): (i: int)
    ensures -1 <= i < |s|
    ensures i >= 0 ==> s[i] == c
    ensures forall j :: i < j < |s| ==> s[j] != c
  {
    if s == "" then -1 else if s[|s| - 1] == c then |s| - 1 else LastIndex(s[..|s| - 1], c)
  }

  /** The part of a name in front of its count, as Split takes it. */
  function Stem(name: string): (s: string) {
    var t := TrimSuffix(name, ".json");
    var i := LastIndex(t, '-');
    if i < 0 then t else t[..i]
  }

  function HalfName(name: string, half: char, n: nat): (s: string) {
    NameOf(Stem(name) + [half], n)
  }

  lemma StemOfName(stem: string, n: nat)
    ensures Stem(NameOf(stem, n)) == stem
  {
    var t := stem + "-" + Decimal(n);
    assert NameOf(stem, n) == t + ".json";
    assert TrimSuffix(NameOf(stem, n), ".json") == t;
    assert t[|stem|] == '-';
    assert forall j :: |stem| < j < |t| ==> IsDigit(t[j]);
  }

  /** The order in which keys are given out. */
  predicate Earlier(k: Key, nanos: nat, number: nat) {
    k.nanos < nanos || (k.nanos == nanos && k.number < number)
  }

  predicate InRange(k: Key) {
    k.nanos < INT64_LIMIT && k.number < SEQ_LIMIT && IsPath(k.path)
  }

  lemma Widths(k: Key)
    requires InRange(k)
    ensures |Pad(k.nanos, NANOS_WIDTH)| == NANOS_WIDTH && |Pad(k.number, SEQ_WIDTH)| == SEQ_WIDTH
  {
    assert Pow10(6) == SEQ_LIMIT;
    assert Pow10(12) == 1_000_000 * Pow10(6);
    assert Pow10(20) == 100_000_000 * Pow10(12);
    PadWidth(k.nanos, NANOS_WIDTH);
    PadWidth(k.number, SEQ_WIDTH);
  }

  /** A key given out later has a stem that sorts behind every stem made from an earlier one, halves included. */
  lemma LaterStemDiverges(k: Key, l: Key)
    requires InRange(k) && InRange(l) && Earlier(k, l.nanos, l.number)
    ensures Diverges(StemOf(k), StemOf(l))
  {
    hide Pad, DigitsValue, Diverges;
    var a, b := Pad(k.nanos, NANOS_WIDTH), Pad(l.nanos, NANOS_WIDTH);
    var c, d := Pad(k.number, SEQ_WIDTH), Pad(l.number, SEQ_WIDTH);
    Widths(k);
    Widths(l);
    PadValue(k.nanos, NANOS_WIDTH);
    PadValue(l.nanos, NANOS_WIDTH);
    PadValue(k.number, SEQ_WIDTH);
    PadValue(l.number, SEQ_WIDTH);
    if k.nanos < l.nanos {
      DigitsDiverge(a, b);
      DivergesExtends(a, b, "-" + c + k.path, "-" + d + l.path);
      assert StemOf(k) == a + ("-" + c + k.path) && StemOf(l) == b + ("-" + d + l.path);
    } else {
      DigitsDiverge(c, d);
      DivergesExtends(c, d, k.path, l.path);
      DivergesBehind(a + "-", c + k.path, d + l.path);
      assert StemOf(k) == (a + "-") + (c + k.path) && StemOf(l) == (a + "-") + (d + l.path);
    }
  }

  /** The first half sorts before the second. */
  lemma HalvesDiverge(stem: string)
    ensures Diverges(stem + "a", stem + "b")
  {
    assert (stem + "a")[..|stem|] == (stem + "b")[..|stem|];
    assert DivergesAt(stem + "a", stem + "b", |stem|);
  }

  lemma NamesSortLikeStems(s: string, t: string, n: nat, m: nat)
    requires Diverges(s, t)
    ensures Less(NameOf(s, n), NameOf(t, m)) && !Less(NameOf(t, m), NameOf(s, n)) && NameOf(s, n) != NameOf(t, m)
  {
    DivergesExtends(s, t, "-" + Decimal(n) + ".json", "-" + Decimal(m) + ".json");
    assert NameOf(s, n) == s + ("-" + Decimal(n) + ".json") && NameOf(t, m) == t + ("-" + Decimal(m) + ".json");
    DivergesIsLess(NameOf(s, n), NameOf(t, m));
  }

  /** The limit of a million is real: at one clock reading, batch 1000000 sorts before batch 999999. */
  lemma SevenDigitsMisorder(nanos: nat)
    ensures Less(PutName(nanos, 1_000_000, 1), PutName(nanos, 999_999, 1))
  {
    var p := Pad(nanos, NANOS_WIDTH) + "-";
    DecimalOf999999();
    DecimalOfMillion();
    var s, t := Pad(1_000_000, SEQ_WIDTH), Pad(999_999, SEQ_WIDTH);
    assert DivergesAt(s, t, 0);
    DivergesBehind(p, s, t);
    assert StemOf(Key(nanos, 1_000_000, "")) == p + s && StemOf(Key(nanos, 999_999, "")) == p + t;
    NamesSortLikeStems(p + s, p + t, 1, 1);
  }

  lemma DecimalOf999999()
    ensures Decimal(999_999) == "999999"
  {
    assert Decimal(999) == "999";
    assert Decimal(999_99) == Decimal(999) + "99";
  }

  lemma DecimalOfMillion()
    ensures Decimal(1_000_000) == "1000000"
  {
    assert Decimal(1_000) == "1000";
    assert Decimal(100_000) == Decimal(1_000) + "00";
  }

  // ---- reading a name back ----------------------------------------------------------------------

  /** strings.Split with a one-byte separator. */
  function SplitOn(s: string, c: char): (parts: seq<string>)
    ensures |parts| >= 1
    decreases |s|
  {
    if s == "" then [""]
    else
      var rest := SplitOn(s[1..], c);
      if s[0] == c then [""] + rest else [[s[0]] + rest[0]] + rest[1..]
  }

  datatype Parsed = Parsed(nanos: nat, n: nat)

  /** parseName: three dash-separated parts before the suffix; the middle one is not looked at. */
  function ParseName(name: string): (p: Option<Parsed>) {
    if !HasSuffix(name, ".json") then None
    else
      var parts := SplitOn(TrimSuffix(name, ".json"), '-');
      if |parts| != 3 then None
      else
        var nanos := ParseNatural(parts[0]);
        var n := ParseNatural(parts[2]);
        if nanos.None? || n.None? then None else Some(Parsed(nanos.value, n.value))
  }

  lemma {:induction false} SplitFirst(s: string, rest: string, c: char)
    requires c !in s
    ensures SplitOn(s + [c] + rest, c) == [s] + SplitOn(rest, c)
    decreases |s|
  {
    var t := s + [c] + rest;
    if s == "" {
      assert t[1..] == rest;
    } else {
      SplitFirst(s[1..], rest, c);
      assert t[1..] == s[1..] + [c] + rest;
      assert s[0] != c && [s[0]] + s[1..] == s;
    }
  }

  lemma {:induction false} SplitNone(s: string, c: char)
    requires c !in s
    ensures SplitOn(s, c) == [s]
    decreases |s|
  {
    if s != "" {
      SplitNone(s[1..], c);
      assert s[0] != c && [s[0]] + s[1..] == s;
    }
  }

  lemma ParseDigits(s: string)
    requires AllDigits(s) && s != "" && DigitsValue(s) < INT64_LIMIT
    ensures ParseNatural(s) == Some(DigitsValue(s))
  {
    assert IsDigit(s[0]);
  }

  /** Every name the spool gives a batch, or a half of one, reads back as its write time and document count. */
  lemma NameReadsBack(k: Key, n: nat)
    requires InRange(k) && n < INT64_LIMIT
    ensures ParseName(NameOf(StemOf(k), n)) == Some(Parsed(k.nanos, n))
  {
    hide DigitsValue, Decimal, Pad, StemOf;
    var a, b, d := Pad(k.nanos, NANOS_WIDTH), Pad(k.number, SEQ_WIDTH) + k.path, Decimal(n);
    StemParts(k);
    var name := NameOf(StemOf(k), n);
    var t := a + ['-'] + (b + ['-'] + d);
    assert name == t + ".json";
    assert name[|name| - |".json"|..] == ".json";
    assert TrimSuffix(name, ".json") == t;
    assert '-' !in b by {
      assert forall i :: 0 <= i < |b| ==> IsDigit(b[i]) || b[i] == 'a' || b[i] == 'b';
    }
    SplitFirst(a, b + ['-'] + d, '-');
    SplitFirst(b, d, '-');
    SplitNone(d, '-');
    assert SplitOn(t, '-') == [a, b, d];
    PadValue(k.nanos, NANOS_WIDTH);
    DecimalValue(n);
    ParseDigits(a);
    ParseDigits(d);
  }

  lemma StemParts(k: Key)
    ensures StemOf(k) == Pad(k.nanos, NANOS_WIDTH) + ['-'] + (Pad(k.number, SEQ_WIDTH) + k.path)
  {
    var a, c := Pad(k.nanos, NANOS_WIDTH), Pad(k.number, SEQ_WIDTH);
    assert a + "-" + c + k.path == a + ['-'] + (c + k.path);
  }

  function Glued(parts: seq<string>, c: char): (s: string)
    requires parts != []
  {
    if |parts| == 1 then parts[0] else parts[0] + [c] + Glued(parts[1..], c)
  }

  lemma {:induction false} SplitGlued(s: string, c: char)
    ensures Glued(SplitOn(s, c), c) == s
    ensures forall i :: 0 <= i < |SplitOn(s, c)| ==> c !in SplitOn(s, c)[i]
    decreases |s|
  {
    if s != "" {
      var rest := SplitOn(s[1..], c);
      SplitGlued(s[1..], c);
      assert s == [s[0]] + s[1..];
      if s[0] == c {
        assert SplitOn(s, c)[1..] == rest;
      } else {
        assert ([[s[0]] + rest[0]] + rest[1..])[1..] == rest[1..];
      }
    }
  }

  /** The text is a numeral of v, perhaps behind a plus sign, and fits 63 bits. */
  predicate Numeral(s: string, v: nat) {
    var t := if s != "" && s[0] == '+' then s[1..] else s;
    t != "" && AllDigits(t) && DigitsValue(t) == v < 0x8000_0000_0000_0000
  }

  /** A name of a spool file: a write time, a middle that may be anything, and a count, without further dashes. */
  ghost predicate SpoolName(name: string, p: Parsed, a: string, m: string, d: string) {
    && name == a + "-" + m + "-" + d + ".json" && '-' !in a && '-' !in m && '-' !in d
    && Numeral(a, p.nanos) && Numeral(d, p.n)
  }

  /** parseName takes exactly the files with such a name for the spool's. */
  lemma ParsesExactly(name: string, p: Parsed)
    ensures ParseName(name) == Some(p) <==> exists a, m, d :: SpoolName(name, p, a, m, d)
  {
    if ParseName(name) == Some(p) {
      var t := TrimSuffix(name, ".json");
      var parts := SplitOn(t, '-');
      SplitGlued(t, '-');
      GluedThree(parts[0], parts[1], parts[2]);
      assert parts == [parts[0], parts[1], parts[2]];
      assert name == t + ".json";
      assert SpoolName(name, p, parts[0], parts[1], parts[2]);
    }
    if a, m, d :| SpoolName(name, p, a, m, d) {
      NameIsParsed(name, p, a, m, d);
    }
  }

  lemma GluedThree(a: string, m: string, d: string)
    ensures Glued([a, m, d], '-') == a + "-" + m + "-" + d
  {
    assert [a, m, d][1..] == [m, d] && [m, d][1..] == [d];
    assert Glued([m, d], '-') == m + ['-'] + d;
    assert a + ['-'] + (m + ['-'] + d) == a + "-" + m + "-" + d;
  }

  lemma NameIsParsed(name: string, p: Parsed, a: string, m: string, d: string)
    requires SpoolName(name, p, a, m, d)
    ensures ParseName(name) == Some(p)
  {
    hide DigitsValue, SplitOn;
    TrimJson(a + "-" + m + "-" + d);
    SplitThree(a, m, d);
  }

  lemma TrimJson(t: string)
    ensures HasSuffix(t + ".json", ".json") && TrimSuffix(t + ".json", ".json") == t
  {}

  lemma SplitThree(a: string, m: string, d: string)
    requires '-' !in a && '-' !in m && '-' !in d
    ensures SplitOn(a + "-" + m + "-" + d, '-') == [a, m, d]
  {
    hide SplitOn;
    assert a + "-" + m + "-" + d == a + ['-'] + (m + ['-'] + d);
    SplitFirst(a, m + ['-'] + d, '-');
    SplitFirst(m, d, '-');
    SplitNone(d, '-');
  }
}
