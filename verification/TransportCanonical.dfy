/** What the description of transport parameters tells apart and what it does not: exactly the kept shapes and whether
    there was a reserved parameter, in whatever order they came. */
module TransportCanonical {
  import opened Options
  import opened Bytes
  import opened Decimals
  import opened Texts
  import opened TransportParams

  // ---- marked lists ---------------------------------------------------------------------------------------

  predicate StartsHex(s: string) {
    s != "" && IsHex(s[0])
  }

  predicate AllStartHex(parts: seq<string>) {
    forall i :: 0 <= i < |parts| ==> StartsHex(parts[i])
  }

  /** The marker cannot be mistaken for an entry. */
  lemma MarkedInjective(x: seq<string>, g: bool, y: seq<string>, h: bool)
    requires AllStartHex(x) && AllStartHex(y) && x + Marker(g) == y + Marker(h)
    ensures g == h && x == y
  {
    var a, b := x + Marker(g), y + Marker(h);
    assert g ==> a[|a| - 1] == "grease";
    assert h ==> b[|b| - 1] == "grease";
    assert !g && x != [] ==> a[|a| - 1] == x[|x| - 1];
    assert !h && y != [] ==> b[|b| - 1] == y[|y| - 1];
    assert !StartsHex("grease");
    assert g == h;
    assert x == a[..|x|] && y == b[..|y|];
  }

  lemma {:induction false} JoinWithout(parts: seq<string>, sep: char, c: char)
    requires c != sep && forall i :: 0 <= i < |parts| ==> c !in parts[i]
    ensures c !in Join(parts, sep)
    decreases |parts|
  {
    if |parts| > 1 {
      JoinWithout(parts[1..], sep, c);
    }
  }

  // ---- versions ----------------------------------------------------------------------------------------------

  lemma HexWithout(n: nat, c: char)
    requires !IsHex(c)
    ensures c !in Hex(n)
  {
    hide Hex;
  }

  lemma DecimalWithout(n: nat, c: char)
    requires !IsDigit(c)
    ensures c !in Decimal(n)
  {
    hide Decimal;
  }

  lemma VersionParts(chosen: nat, others: seq<nat>, grease: bool)
    ensures var x := Hexes([chosen] + others); AllStartHex(x) && AllPlain(x + Marker(grease), ';')
  {
    hide Hex;
    var xs := [chosen] + others;
    forall i | 0 <= i < |xs| ensures StartsHex(Hexes(xs)[i]) && Plain(Hexes(xs)[i], ';') {
      HexWithout(xs[i], ';');
    }
    assert Plain("grease", ';');
    hide Plain, Hexes;
  }

  lemma HexesInjective(x: seq<nat>, y: seq<nat>)
    requires Hexes(x) == Hexes(y)
    ensures x == y
  {
    hide Hex;
    forall i | 0 <= i < |x| ensures x[i] == y[i] {
      assert Hexes(x)[i] == Hexes(y)[i];
      HexInjective(x[i], y[i]);
    }
  }

  lemma FirstChar(s: VersionShape)
    ensures VersionText(s) != "" && (s.BadLength? <==> VersionText(s)[0] == '?')
  {
    hide Hex, Join;
    if s.Offered? {
      VersionParts(s.chosen, s.others, s.grease);
      var parts := Hexes([s.chosen] + s.others) + Marker(s.grease);
      assert Join(parts, ';') == parts[0] + Behind(parts, ';');
      assert parts[0] == Hexes([s.chosen] + s.others)[0];
    }
  }

  /** The text of version_information says all that is kept of it. */
  lemma VersionTextInjective(s: VersionShape, t: VersionShape)
    requires VersionText(s) == VersionText(t)
    ensures s == t
  {
    hide Hex, Join, Hexes, AllPlain, AllStartHex;
    FirstChar(s);
    FirstChar(t);
    if s.BadLength? {
      assert VersionText(s)[1..] == Decimal(s.n) && VersionText(t)[1..] == Decimal(t.n);
      DecimalInjective(s.n, t.n);
    } else {
      VersionParts(s.chosen, s.others, s.grease);
      VersionParts(t.chosen, t.others, t.grease);
      var x, y := Hexes([s.chosen] + s.others), Hexes([t.chosen] + t.others);
      JoinInjective(x + Marker(s.grease), y + Marker(t.grease), ';');
      MarkedInjective(x, s.grease, y, t.grease);
      HexesInjective([s.chosen] + s.others, [t.chosen] + t.others);
      assert ([s.chosen] + s.others)[1..] == s.others && ([t.chosen] + t.others)[1..] == t.others;
      assert ([s.chosen] + s.others)[0] == s.chosen && ([t.chosen] + t.others)[0] == t.chosen;
    }
  }

  lemma VersionTextPlain(s: VersionShape)
    ensures ',' !in VersionText(s)
  {
    hide Hex, Join, Decimal;
    match s
    case BadLength(n) => DecimalWithout(n, ',');
    case Offered(chosen, others, grease) =>
      var xs := [chosen] + others;
      var parts := Hexes(xs) + Marker(grease);
      forall i | 0 <= i < |parts| ensures ',' !in parts[i] {
        if i < |xs| {
          assert parts[i] == Hex(xs[i]);
          HexWithout(xs[i], ',');
        } else {
          assert parts[i] == "grease";
        }
      }
      JoinWithout(parts, ';', ',');
  }

  /** Two version_information values are described alike exactly when their lengths are wrong and equal, or when they choose
      the same version, offer the same versions behind it apart from reserved ones, and agree on having a reserved one;
      version 2 and the number 2 are not told apart. */
  lemma SameVersions(v: seq<byte>, w: seq<byte>)
    ensures VersionText(VersionShapeOf(v)) == VersionText(VersionShapeOf(w)) <==> VersionShapeOf(v) == VersionShapeOf(w)
  {
    hide VersionText, VersionShapeOf;
    if VersionText(VersionShapeOf(v)) == VersionText(VersionShapeOf(w)) {
      VersionTextInjective(VersionShapeOf(v), VersionShapeOf(w));
    }
  }

  /** Two version numbers are shown alike only when they are the same, or are version 2 and the number 2. */
  lemma SameName(x: nat, y: nat)
    ensures NameOf(x) == NameOf(y) <==> x == y || (x == 2 && y == VERSION_2) || (x == VERSION_2 && y == 2)
  {
    hide Hex;
    NameIsHex(x);
    NameIsHex(y);
    if NameOf(x) == NameOf(y) {
      HexInjective(Shown(x), Shown(y));
    }
  }

  /** A reserved version anywhere behind the first leaves the list of the others as it was. */
  lemma {:induction false} ReservedIsSkipped(v: seq<byte>, k: nat, g: seq<byte>, at: nat)
    requires 1 <= k <= at <= |v| / 4 && |v| % 4 == 0 && |g| == 4 && GreaseVersion(Word(g, 0))
    ensures var w := v[..4 * at] + g + v[4 * at..];
            Others(w, k) == Others(v, k) && AnyGrease(w, k)
    decreases at - k
  {
    hide GreaseVersion;
    var w := v[..4 * at] + g + v[4 * at..];
    assert |w| / 4 == |v| / 4 + 1;
    if k == at {
      assert Word(w, 4 * at) == Word(g, 0);
      SameTail(v, w, at);
    } else {
      assert Word(w, 4 * k) == Word(v, 4 * k);
      ReservedIsSkipped(v, k + 1, g, at);
    }
  }

  lemma {:induction false} SameTail(v: seq<byte>, w: seq<byte>, k: nat)
    requires |v| % 4 == 0 && |w| == |v| + 4 && k <= |v| / 4 && forall i :: 4 * k <= i < |v| ==> w[i + 4] == v[i]
    ensures Others(w, k + 1) == Others(v, k)
    decreases |v| / 4 - k
  {
    hide GreaseVersion;
    if k < |v| / 4 {
      assert |w| / 4 == |v| / 4 + 1;
      assert Word(w, 4 * (k + 1)) == Word(v, 4 * k);
      hide Word;
      SameTail(v, w, k + 1);
    }
  }

  // ---- one parameter ------------------------------------------------------------------------------------------

  /** The kind of shape goes with the number. */
  predicate Typed(s: Shape) {
    && (s.Number? <==> IsInteger(s.id))
    && (s.Versions? <==> IsVersionInfo(s.id))
    && (s.Length? <==> s.id == INITIAL_SOURCE_CID)
  }

  lemma ShapeIsTyped(p: Param)
    ensures Typed(ShapeOf(p))
  {
    hide NumberIn, VersionShapeOf;
  }

  lemma SuffixParts(s: Shape)
    ensures EndsHex(Suffix(s)) && ',' !in Suffix(s)
  {
    hide VersionText, Decimal;
    match s
    case Presence(_) =>
    case Length(_, n) => DecimalWithout(n, ',');
    case Number(_, v) => if v.Some? { DecimalWithout(v.value, ','); }
    case Versions(_, vs) => VersionTextPlain(vs);
  }

  lemma SuffixInjective(s: Shape, t: Shape)
    requires Typed(s) && Typed(t) && s.id == t.id && Suffix(s) == Suffix(t)
    ensures s == t
  {
    hide VersionText, Decimal;
    match s
    case Presence(_) =>
    case Length(_, n) =>
      assert Suffix(s)[1..] == Decimal(n) && Suffix(t)[1..] == Decimal(t.n);
      DecimalInjective(n, t.n);
    case Number(_, v) => NumberInjective(v, t.v);
    case Versions(_, vs) =>
      assert Suffix(s)[1..] == VersionText(vs) && Suffix(t)[1..] == VersionText(t.s);
      VersionTextInjective(vs, t.s);
  }

  lemma NumberInjective(v: Option<nat>, w: Option<nat>)
    requires ("=" + if v.Some? then Decimal(v.value) else "?") == ("=" + if w.Some? then Decimal(w.value) else "?")
    ensures v == w
  {
    hide Decimal;
    var x, y := if v.Some? then Decimal(v.value) else "?", if w.Some? then Decimal(w.value) else "?";
    assert ("=" + x)[1..] == x && ("=" + y)[1..] == y;
    assert !IsDigit("?"[0]);
    if v.Some? && w.Some? {
      DecimalInjective(v.value, w.value);
    }
  }

  /** The text of a parameter says its number and all that is kept of its value. */
  lemma TextInjective(s: Shape, t: Shape)
    requires Typed(s) && Typed(t) && ItemOf(s).txt == ItemOf(t).txt
    ensures s == t
  {
    hide Hex, Suffix, Typed;
    SuffixParts(s);
    SuffixParts(t);
    HexThen(s.id, Suffix(s), t.id, Suffix(t));
    SuffixInjective(s, t);
  }

  lemma TextPlain(s: Shape)
    ensures StartsHex(ItemOf(s).txt) && Plain(ItemOf(s).txt, ',')
  {
    hide Hex, Suffix;
    SuffixParts(s);
    HexWithout(s.id, ',');
  }

  // ---- whole lists ----------------------------------------------------------------------------------------------

  lemma {:induction false} ShapesAreTyped(params: seq<Param>)
    ensures forall i :: 0 <= i < |Shapes(params)| ==> Typed(Shapes(params)[i])
  {
    hide Typed, ShapeOf, IsGrease;
    if params != [] {
      ShapesAreTyped(params[..|params| - 1]);
      ShapeIsTyped(params[|params| - 1]);
    }
  }

  ghost predicate AllTyped(shapes: seq<Shape>) {
    forall i :: 0 <= i < |shapes| ==> Typed(shapes[i])
  }

  /** Items occur as often as their shapes do. */
  lemma {:induction false} ItemCount(shapes: seq<Shape>, s: Shape)
    requires AllTyped(shapes) && Typed(s)
    ensures multiset(ItemsOf(shapes))[ItemOf(s)] == multiset(shapes)[s]
    decreases |shapes|
  {
    hide ItemOf, Typed;
    if shapes != [] {
      var n := |shapes| - 1;
      var front, last := shapes[..n], shapes[n];
      ItemCount(front, s);
      assert shapes == front + [last];
      assert ItemsOf(shapes) == ItemsOf(front) + [ItemOf(last)];
      if ItemOf(last) == ItemOf(s) {
        TextInjective(last, s);
      }
    }
  }

  ghost predicate HasShape(it: Item) {
    exists s :: Typed(s) && it == ItemOf(s)
  }

  lemma ItemHasShape(shapes: seq<Shape>, it: Item)
    requires it in multiset(ItemsOf(shapes)) && AllTyped(shapes)
    ensures HasShape(it)
  {
    hide ItemOf, Typed;
    assert it in ItemsOf(shapes);
    var i :| 0 <= i < |shapes| && ItemsOf(shapes)[i] == it;
    assert it == ItemOf(shapes[i]);
  }

  /** The same items, as often, exactly when the same shapes, as often. */
  lemma SameItems(x: seq<Shape>, y: seq<Shape>)
    requires AllTyped(x) && AllTyped(y)
    ensures multiset(ItemsOf(x)) == multiset(ItemsOf(y)) <==> multiset(x) == multiset(y)
  {
    hide ItemOf, Typed, ItemsOf, AllTyped;
    if multiset(ItemsOf(x)) == multiset(ItemsOf(y)) {
      forall s ensures multiset(x)[s] == multiset(y)[s] {
        CountByItem(x, y, s);
      }
    }
    if multiset(x) == multiset(y) {
      forall it ensures multiset(ItemsOf(x))[it] == multiset(ItemsOf(y))[it] {
        CountByShape(x, y, it);
      }
    }
  }

  lemma CountByItem(x: seq<Shape>, y: seq<Shape>, s: Shape)
    requires AllTyped(x) && AllTyped(y) && multiset(ItemsOf(x)) == multiset(ItemsOf(y))
    ensures multiset(x)[s] == multiset(y)[s]
  {
    hide ItemOf, Typed, ItemsOf;
    if Typed(s) {
      ItemCount(x, s);
      ItemCount(y, s);
    } else {
      assert s !in x && s !in y;
    }
  }

  lemma CountByShape(x: seq<Shape>, y: seq<Shape>, it: Item)
    requires AllTyped(x) && AllTyped(y) && multiset(x) == multiset(y)
    ensures multiset(ItemsOf(x))[it] == multiset(ItemsOf(y))[it]
  {
    hide ItemOf, Typed, ItemsOf, AllTyped;
    if it in multiset(ItemsOf(x)) || it in multiset(ItemsOf(y)) {
      if it in multiset(ItemsOf(x)) {
        ItemHasShape(x, it);
      } else {
        ItemHasShape(y, it);
      }
      var s :| Typed(s) && it == ItemOf(s);
      ItemCount(x, s);
      ItemCount(y, s);
    }
  }

  // ---- arrangements -------------------------------------------------------------------------------------------

  /** Entries with the same number are the same. */
  ghost predicate ClearItems(items: seq<Item>) {
    forall a, b :: a in items && b in items && a.id == b.id ==> a == b
  }

  /** Parameters that are not reserved and share a number are described alike; so when no number occurs twice. */
  ghost predicate Clear(params: seq<Param>) {
    forall a, b :: a in Shapes(params) && b in Shapes(params) && a.id == b.id ==> a == b
  }

  lemma InBoth(x: seq<Item>, y: seq<Item>, it: Item)
    requires multiset(x) == multiset(y)
    ensures it in x <==> it in y
  {
    assert it in multiset(x) <==> it in multiset(y);
  }

  lemma SameFirst(x: seq<Item>, y: seq<Item>)
    requires x != [] && y != [] && SortedById(x) && SortedById(y) && multiset(x) == multiset(y) && ClearItems(x)
    ensures x[0] == y[0]
  {
    InBoth(x, y, x[0]);
    InBoth(x, y, y[0]);
    var i :| 0 <= i < |y| && y[i] == x[0];
    var j :| 0 <= j < |x| && x[j] == y[0];
  }

  lemma WithoutFirst(x: seq<Item>, y: seq<Item>)
    requires x != [] && y != [] && multiset(x) == multiset(y) && x[0] == y[0]
    ensures multiset(x[1..]) == multiset(y[1..])
  {
    TailCounts(x);
    TailCounts(y);
  }

  lemma TailCounts(x: seq<Item>)
    requires x != []
    ensures multiset(x[1..]) == multiset(x) - multiset{x[0]}
  {
    assert x == [x[0]] + x[1..];
  }

  /** Sorting leaves one order when entries with the same number are the same. */
  lemma {:induction false} OneArrangement(x: seq<Item>, y: seq<Item>)
    requires SortedById(x) && SortedById(y) && multiset(x) == multiset(y) && ClearItems(x)
    ensures x == y
    decreases |x|
  {
    hide SortedById, ClearItems;
    SameLength(x, y);
    if x != [] {
      SameFirst(x, y);
      WithoutFirst(x, y);
      TailOf(x);
      TailOf(y);
      OneArrangement(x[1..], y[1..]);
      assert x == [x[0]] + x[1..] && y == [y[0]] + y[1..];
    }
  }

  lemma TailOf(x: seq<Item>)
    requires x != [] && SortedById(x)
    ensures SortedById(x[1..]) && (ClearItems(x) ==> ClearItems(x[1..]))
  {
    assert forall a :: a in x[1..] ==> a in x;
  }

  lemma ArrangedPlain(items: seq<Item>, params: seq<Param>)
    requires IsArrangement(items, params)
    ensures AllStartHex(TextsOf(items)) && AllPlain(TextsOf(items) + Marker(HasGrease(params)), ',')
    ensures forall i :: 0 <= i < |items| ==> HasShape(items[i])
  {
    hide ItemOf, Shapes, Typed, StartsHex, HasGrease, ItemsOf;
    ShapesAreTyped(params);
    var kept := ItemsOf(Shapes(params));
    forall i | 0 <= i < |items|
      ensures StartsHex(items[i].txt) && Plain(items[i].txt, ',')
      ensures HasShape(items[i])
    {
      assert items[i] in multiset(items);
      ItemHasShape(Shapes(params), items[i]);
      var s :| Typed(s) && items[i] == ItemOf(s);
      TextPlain(s);
    }
    assert Plain("grease", ',');
    hide Plain;
  }

  /** A rendered list says its entries and whether there was a reserved one. */
  lemma RenderedInjective(x: seq<Item>, p: seq<Param>, y: seq<Item>, q: seq<Param>)
    requires IsArrangement(x, p) && IsArrangement(y, q) && Rendered(x, HasGrease(p)) == Rendered(y, HasGrease(q))
    ensures x == y && HasGrease(p) == HasGrease(q)
  {
    hide ItemOf, Shapes, Typed, Join, HasGrease, AllStartHex, AllPlain, IsArrangement;
    ArrangedPlain(x, p);
    ArrangedPlain(y, q);
    JoinInjective(TextsOf(x) + Marker(HasGrease(p)), TextsOf(y) + Marker(HasGrease(q)), ',');
    MarkedInjective(TextsOf(x), HasGrease(p), TextsOf(y), HasGrease(q));
    forall i | 0 <= i < |x| ensures x[i] == y[i] {
      assert x[i].txt == TextsOf(x)[i] == TextsOf(y)[i] == y[i].txt;
      assert HasShape(x[i]) && HasShape(y[i]);
      var s :| Typed(s) && x[i] == ItemOf(s);
      var t :| Typed(t) && y[i] == ItemOf(t);
      TextInjective(s, t);
    }
  }

  lemma ClearArranged(x: seq<Item>, params: seq<Param>)
    requires IsArrangement(x, params) && Clear(params)
    ensures ClearItems(x)
  {
    hide ItemOf, Shapes, ItemsOf;
    var kept := ItemsOf(Shapes(params));
    forall a, b | a in x && b in x && a.id == b.id ensures a == b {
      var s, t := ShapeBehind(x, params, a), ShapeBehind(x, params, b);
      ItemIds(s);
      ItemIds(t);
    }
  }

  lemma ItemIds(s: Shape)
    ensures ItemOf(s).id == s.id
  {
    hide Hex, Suffix;
  }

  ghost function ShapeBehind(x: seq<Item>, params: seq<Param>, a: Item): (s: Shape)
    requires IsArrangement(x, params) && a in x
    ensures s in Shapes(params) && a == ItemOf(s)
  {
    assert a in multiset(x);
    assert a in ItemsOf(Shapes(params));
    var i :| 0 <= i < |Shapes(params)| && ItemsOf(Shapes(params))[i] == a;
    Shapes(params)[i]
  }

  /** The two lists are the same to a description: the same shapes, as often, in any order, and reserved parameters in both
      or in neither, whichever and however many. */
  ghost predicate Agree(p: seq<Param>, q: seq<Param>) {
    multiset(Shapes(p)) == multiset(Shapes(q)) && HasGrease(p) == HasGrease(q)
  }

  /** Canonical: two lists are described alike exactly when they agree. Only when a number occurs twice, with texts that
      differ, may lists that agree be described differently. */
  lemma SameDescription(p: seq<Param>, q: seq<Param>, s: string, t: string)
    requires Describes(p, s) && Describes(q, t)
    ensures s == t ==> Agree(p, q)
    ensures Agree(p, q) && Clear(p) ==> s == t
  {
    hide Shapes, ItemOf, HasGrease, Rendered, Typed, Clear, ClearItems, ItemsOf, SortedById;
    var x :| IsArrangement(x, p) && s == Rendered(x, HasGrease(p));
    var y :| IsArrangement(y, q) && t == Rendered(y, HasGrease(q));
    ShapesAreTyped(p);
    ShapesAreTyped(q);
    SameItems(Shapes(p), Shapes(q));
    if s == t {
      RenderedInjective(x, p, y, q);
    }
    if Agree(p, q) && Clear(p) {
      ClearArranged(x, p);
      OneArrangement(x, y);
    }
  }

  lemma {:induction false} ShapesTwoParts(x: seq<Param>, y: seq<Param>)
    ensures Shapes(x + y) == Shapes(x) + Shapes(y)
    ensures HasGrease(x + y) <==> HasGrease(x) || HasGrease(y)
    decreases |y|
  {
    hide ShapeOf, IsGrease, HasGrease;
    NoParams();
    if y == [] {
      assert x + y == x;
    } else {
      var front, last := y[..|y| - 1], y[|y| - 1];
      ShapesTwoParts(x, front);
      assert x + y == x + front + [last] && y == front + [last];
      ShapesSnoc(x + front, last);
      ShapesSnoc(front, last);
    }
  }

  lemma NoParams()
    ensures Shapes([]) == [] && !HasGrease([])
  {}

  /** The order of the parameters does not matter. */
  lemma {:induction false} PermutedAgree(p: seq<Param>, q: seq<Param>)
    requires multiset(p) == multiset(q)
    ensures Agree(p, q)
    decreases |p|
  {
    hide Shapes, HasGrease;
    SameLength(p, q);
    if p != [] {
      var front, last := p[..|p| - 1], p[|p| - 1];
      assert p == front + [last];
      var j := Placed(p, q, last);
      var x, y := q[..j], q[j + 1..];
      assert q == x + ([last] + y);
      TakenOut(front, last, x, y);
      PermutedAgree(front, x + y);
      MovedLast(front, last, x, y);
    }
  }

  lemma SameLength<T>(p: seq<T>, q: seq<T>)
    requires multiset(p) == multiset(q)
    ensures |p| == |q|
  {
    assert |multiset(p)| == |p| && |multiset(q)| == |q|;
  }

  ghost function Placed(p: seq<Param>, q: seq<Param>, x: Param): (j: nat)
    requires multiset(p) == multiset(q) && x in p
    ensures j < |q| && q[j] == x
  {
    assert x in multiset(q);
    var j :| 0 <= j < |q| && q[j] == x;
    j
  }

  lemma TakenOut(front: seq<Param>, last: Param, x: seq<Param>, y: seq<Param>)
    requires multiset(front + [last]) == multiset(x + ([last] + y))
    ensures multiset(front) == multiset(x + y)
  {
    var m, a, b := multiset{last}, multiset(front), multiset(x + y);
    assert multiset(front + [last]) == a + m;
    assert multiset(x + ([last] + y)) == multiset(x) + (m + multiset(y)) == b + m;
    assert a == (a + m) - m && b == (b + m) - m;
  }

  lemma MovedLast(front: seq<Param>, last: Param, x: seq<Param>, y: seq<Param>)
    requires Agree(front, x + y)
    ensures Agree(front + [last], x + ([last] + y))
  {
    hide Shapes, HasGrease;
    ShapesTwoParts(front, [last]);
    ShapesTwoParts(x, y);
    ShapesTwoParts([last], y);
    ShapesTwoParts(x, [last] + y);
  }

  /** Which reserved parameters there are, how many and where, does not matter. */
  lemma ReservedAgree(x: seq<Param>, g: Param, h: Param, more: Param, y: seq<Param>)
    requires IsGrease(g.id) && IsGrease(h.id) && IsGrease(more.id)
    ensures Agree(x + [g] + y, x + [h] + y) && Agree(x + [g] + y, x + [g] + y + [more])
  {
    hide HasGrease, IsGrease, Shapes;
    OneReserved(g);
    OneReserved(h);
    OneReserved(more);
    ShapesTwoParts(x, [g]);
    ShapesTwoParts(x, [h]);
    ShapesTwoParts(x + [g], y);
    ShapesTwoParts(x + [h], y);
    ShapesTwoParts(x + [g] + y, [more]);
  }

  lemma OneReserved(g: Param)
    requires IsGrease(g.id)
    ensures Shapes([g]) == [] && HasGrease([g])
  {
    hide IsGrease;
    assert [g][0] == g && [g][..0] == [];
  }

  // ---- when the parameters determine their description -----------------------------------------------------------

  lemma {:induction false} Arrangement(items: seq<Item>) returns (r: seq<Item>)
    ensures SortedById(r) && multiset(r) == multiset(items)
    decreases |items|
  {
    if items == [] {
      r := [];
    } else {
      var n := |items| - 1;
      var front := Arrangement(items[..n]);
      var k := Place(front, items[n]);
      Inserted(front, items[n], k);
      r := front[..k] + [items[n]] + front[k..];
      assert items == items[..n] + [items[n]];
    }
  }

  ghost function Place(r: seq<Item>, it: Item): (k: nat)
    ensures k <= |r| && (k > 0 ==> r[k - 1].id <= it.id) && forall j :: k <= j < |r| ==> it.id < r[j].id
  {
    if r == [] then 0
    else if it.id < r[|r| - 1].id then Place(r[..|r| - 1], it)
    else |r|
  }

  lemma Swapped(x: seq<Item>, i: nat, j: nat)
    requires i < |x| && j < |x| && SortedById(x) && x[i].id == x[j].id
    ensures SortedById(x[i := x[j]][j := x[i]]) && multiset(x[i := x[j]][j := x[i]]) == multiset(x)
  {}

  /** The parameters determine their description exactly when those sharing a number are described alike: sort.Slice may
      leave entries with the same number in either order. */
  lemma DeterminedExactly(params: seq<Param>)
    ensures (forall s, t :: Describes(params, s) && Describes(params, t) ==> s == t) <==> Clear(params)
  {
    hide Shapes, ItemOf, HasGrease, Rendered, Describes, Clear;
    if Clear(params) {
      forall s, t | Describes(params, s) && Describes(params, t) ensures s == t {
        SameDescription(params, params, s, t);
      }
    } else {
      TwoDescriptions(params);
    }
  }

  lemma TwoDescriptions(params: seq<Param>)
    requires !Clear(params)
    ensures exists s, t :: Describes(params, s) && Describes(params, t) && s != t
  {
    hide Shapes, ItemOf, HasGrease, Rendered, SortedById, ItemsOf;
    var a, b :| a in Shapes(params) && b in Shapes(params) && a.id == b.id && a != b;
    var x := Arrangement(ItemsOf(Shapes(params)));
    var i, j := Standing(x, params, a), Standing(x, params, b);
    ItemIds(a);
    ItemIds(b);
    Swapped(x, i, j);
    var y := x[i := x[j]][j := x[i]];
    assert x[i] != x[j] by { Apart(params, a, b); }
    assert y[j] == x[i];
    assert IsArrangement(x, params) && IsArrangement(y, params);
    var g := HasGrease(params);
    assert Describes(params, Rendered(x, g)) && Describes(params, Rendered(y, g));
    if Rendered(x, g) == Rendered(y, g) {
      RenderedInjective(x, params, y, params);
    }
  }

  lemma Apart(params: seq<Param>, a: Shape, b: Shape)
    requires a in Shapes(params) && b in Shapes(params) && a != b
    ensures ItemOf(a) != ItemOf(b)
  {
    hide Shapes, ItemOf, Typed;
    ShapesAreTyped(params);
    if ItemOf(a) == ItemOf(b) {
      TextInjective(a, b);
    }
  }

  ghost function Standing(x: seq<Item>, params: seq<Param>, a: Shape): (i: nat)
    requires multiset(x) == multiset(ItemsOf(Shapes(params))) && a in Shapes(params)
    ensures i < |x| && x[i] == ItemOf(a)
  {
    var k :| 0 <= k < |Shapes(params)| && Shapes(params)[k] == a;
    assert ItemsOf(Shapes(params))[k] in multiset(x);
    var i :| 0 <= i < |x| && x[i] == ItemOf(a);
    i
  }
}
