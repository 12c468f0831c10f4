/** Version values and the two orders the program compares them with. */
module Versions {
  import opened Wrappers
  import opened Text

  /** A scalar read from YAML or JSON: `version: "0.1"` is text, `version: 0.1` is a number, which has a value
      and the text that Python prints for it. */
  datatype Scalar = Text(text: string) | Number(repr: string, value: real) {

    /** Python's `str(value)`. */
    function Str(): string {
      match this
      case Text(text) => text
      case Number(repr, _) => repr
    }

    /** Python's truth value. */
    predicate Truthy() {
      match this
      case Text(text) => text != ""
      case Number(_, value) => value != 0.0
    }
  }

  /** The order of the `looseversion` library, which is not part of this model. */
  type LooseOrder = (string, string) -> bool

  /** `helpers.version.less_than`. Two numbers both fall back to the string order;
      as soon as one side parses as a loose version the loose order decides. */
  predicate LessThan(loose: LooseOrder, left: Option<Scalar>, right: Option<Scalar>) {
    if left.None? || !left.value.Truthy() then true
    else if right.None? || !right.value.Truthy() then false
    else if left.value.Number? && right.value.Number? then StrLess(left.value.repr, right.value.repr)
    else loose(left.value.Str(), right.value.Str())
  }

  /* ---- The loose order on dotted numbers ---- */

  predicate IsDigit(c: char) { '0' <= c <= '9' }

  predicate IsNumeral(s: string) { s != "" && forall c <- s :: IsDigit(c) }

  /** No leading zero, except "0" itself. */
  predicate IsCanonical(s: string) { IsNumeral(s) && (|s| == 1 || s[0] != '0') }

  function Pow10(n: nat): (p: nat)
    ensures p >= 1
  {
    if n == 0 then 1 else 10 * Pow10(n - 1)
  }

  function DigitValue(c: char): (d: nat)
    ensures d <= 9
  {
    if IsDigit(c) then c as int - '0' as int else 0
  }

  lemma FewerDigits(d: nat, p: nat)
    requires d <= 9
    ensures 0 <= d * p <= 9 * p
  {
    assert (9 - d) * p >= 0;
  }

  function Value(s: string): (v: nat)
    ensures v < Pow10(|s|)
  {
    if s == "" then 0
    else
      FewerDigits(DigitValue(s[0]), Pow10(|s| - 1));
      DigitValue(s[0]) * Pow10(|s| - 1) + Value(s[1..])
  }

  /** Python's order on lists of integers. */
  predicate LexNat(a: seq<nat>, b: seq<nat>) {
    if b == [] then false
    else if a == [] then true
    else if a[0] != b[0] then a[0] < b[0]
    else LexNat(a[1..], b[1..])
  }

  function Values(parts: seq<string>): (vs: seq<nat>)
    ensures |vs| == |parts|
  {
    seq(|parts|, i requires 0 <= i < |parts| => Value(parts[i]))
  }

  /** What the loose order amounts to on versions such as "17.12": compare the numbers. */
  predicate NumericLess(a: string, b: string) {
    LexNat(Values(Split(a, '.')), Values(Split(b, '.')))
  }

  /** Python's order on lists of strings. */
  predicate LexText(a: seq<string>, b: seq<string>) {
    if b == [] then false
    else if a == [] then true
    else if a[0] != b[0] then StrLess(a[0], b[0])
    else LexText(a[1..], b[1..])
  }

  predicate Dotted(parts: seq<string>) { parts != [] && forall p <- parts :: IsNumeral(p) }

  /** Same number of components, each as wide as its counterpart. */
  predicate SameShape(a: seq<string>, b: seq<string>) {
    |a| == |b| && forall i | 0 <= i < |a| :: |a[i]| == |b[i]|
  }

  /** At the first differing component, the numeral that is wider (or, at equal width,
      alphabetically later) is also the alphabetically later one. */
  predicate WidthAgrees(a: seq<string>, b: seq<string>) {
    if a == [] || b == [] then true
    else if a[0] == b[0] then WidthAgrees(a[1..], b[1..])
    else StrLess(a[0], b[0]) == (|a[0]| < |b[0]| || (|a[0]| == |b[0]| && StrLess(a[0], b[0])))
  }

  lemma {:induction false} StrLessCancel(p: string, x: string, y: string)
    ensures StrLess(p + x, p + y) == StrLess(x, y)
  {
    if p == "" {
      assert p + x == x && p + y == y;
    } else {
      StrLessCancel(p[1..], x, y);
      assert (p + x)[1..] == p[1..] + x && (p + y)[1..] == p[1..] + y;
    }
  }

  /** A numeral followed by the end or by '.' is ordered by the numeral alone: '.' precedes every digit. */
  lemma {:induction false} NumeralDecides(p: string, q: string, x: string, y: string)
    requires p != q
    requires forall c <- p + q :: IsDigit(c)
    requires (x == "" || x[0] == '.') && (y == "" || y[0] == '.')
    ensures StrLess(p + x, q + y) == StrLess(p, q)
  {
    if p == "" {
      assert p + x == x && IsDigit((p + q)[0]);
    } else if q == "" {
      assert q + y == y && IsDigit((p + q)[0]);
    } else {
      assert (p + x)[1..] == p[1..] + x && (q + y)[1..] == q[1..] + y;
      if p[0] == q[0] {
        assert p == [p[0]] + p[1..] && q == [q[0]] + q[1..];
        assert forall c <- p[1..] + q[1..] :: c in p + q;
        NumeralDecides(p[1..], q[1..], x, y);
      }
    }
  }

  /** Plain string order on dotted versions compares the components as strings, one by one. */
  lemma {:induction false} StringOrderIsComponentwise(a: seq<string>, b: seq<string>)
    requires Dotted(a) && Dotted(b)
    ensures StrLess(Join(a, '.'), Join(b, '.')) == LexText(a, b)
  {
    var x := if |a| == 1 then "" else ['.'] + Join(a[1..], '.');
    var y := if |b| == 1 then "" else ['.'] + Join(b[1..], '.');
    assert Join(a, '.') == a[0] + x && Join(b, '.') == b[0] + y;
    if a[0] == b[0] {
      StrLessCancel(a[0], x, y);
      if |a| > 1 && |b| > 1 {
        StringOrderIsComponentwise(a[1..], b[1..]);
        assert x[1..] == Join(a[1..], '.') && y[1..] == Join(b[1..], '.');
      }
    } else {
      assert IsNumeral(a[0]) && IsNumeral(b[0]);
      NumeralDecides(a[0], b[0], x, y);
    }
  }

  /** A smaller leading digit outweighs whatever follows. */
  lemma LeadingDigit(d: nat, e: nat, m: nat, x: nat, y: nat)
    requires d < e && x < m
    ensures d * m + x < e * m + y
  {
    var k := e - d - 1;
    assert k * m >= 0;
    assert e * m == d * m + m + k * m by {
      assert (d + 1 + k) * m == d * m + 1 * m + k * m;
    }
  }

  lemma {:induction false} SameWidthOrder(p: string, q: string)
    requires |p| == |q|
    requires forall c <- p + q :: IsDigit(c)
    ensures StrLess(p, q) == (Value(p) < Value(q))
    ensures p != q ==> Value(p) != Value(q)
  {
    if p != "" {
      assert p == [p[0]] + p[1..] && q == [q[0]] + q[1..];
      assert p[0] in p + q && q[0] in p + q;
      assert forall c <- p[1..] + q[1..] :: c in p + q;
      SameWidthOrder(p[1..], q[1..]);
      var m, x, y := Pow10(|p| - 1), Value(p[1..]), Value(q[1..]);
      if p[0] < q[0] {
        LeadingDigit(DigitValue(p[0]), DigitValue(q[0]), m, x, y);
      } else if q[0] < p[0] {
        LeadingDigit(DigitValue(q[0]), DigitValue(p[0]), m, y, x);
      }
    }
  }

  lemma {:induction false} Pow10Monotone(m: nat, n: nat)
    requires m <= n
    ensures Pow10(m) <= Pow10(n)
  {
    if m < n { Pow10Monotone(m, n - 1); }
  }

  /** A canonical numeral with more digits is greater. */
  lemma {:induction false} WiderIsGreater(p: string, q: string)
    requires IsCanonical(p) && IsCanonical(q) && |p| < |q|
    ensures Value(p) < Value(q)
  {
    Pow10Monotone(|p|, |q| - 1);
    assert Value(p) < Pow10(|q| - 1);
    assert q[0] in q && DigitValue(q[0]) >= 1;
    LeadingDigit(0, DigitValue(q[0]), Pow10(|q| - 1), Value(p), Value(q[1..]));
  }

  lemma ValuesTail(parts: seq<string>)
    requires parts != []
    ensures Values(parts)[1..] == Values(parts[1..])
  {
  }

  /** On versions of one shape, component strings and component numbers order alike. */
  lemma {:induction false} SameShapeOrder(a: seq<string>, b: seq<string>)
    requires SameShape(a, b)
    requires forall p <- a + b :: IsNumeral(p)
    ensures LexText(a, b) == LexNat(Values(a), Values(b))
  {
    if a != [] && b != [] {
      assert a[0] in a + b && b[0] in a + b;
      SameWidthOrder(a[0], b[0]);
      ValuesTail(a);
      ValuesTail(b);
      assert forall p <- a[1..] + b[1..] :: p in a + b;
      SameShapeOrder(a[1..], b[1..]);
    }
  }

  /** Without leading zeros, the two orders agree exactly when the first differing components do. */
  lemma {:induction false} CanonicalOrder(a: seq<string>, b: seq<string>)
    requires forall p <- a + b :: IsCanonical(p)
    ensures (LexText(a, b) == LexNat(Values(a), Values(b))) == WidthAgrees(a, b)
  {
    if a != [] && b != [] {
      ValuesTail(a);
      ValuesTail(b);
      assert a[0] in a + b && b[0] in a + b;
      if a[0] == b[0] {
        assert forall p <- a[1..] + b[1..] :: p in a + b;
        CanonicalOrder(a[1..], b[1..]);
      } else if |a[0]| < |b[0]| {
        WiderIsGreater(a[0], b[0]);
      } else if |b[0]| < |a[0]| {
        WiderIsGreater(b[0], a[0]);
      } else {
        SameWidthOrder(a[0], b[0]);
      }
    }
  }

  lemma SplitDotted(parts: seq<string>)
    requires Dotted(parts)
    ensures Split(Join(parts, '.'), '.') == parts
  {
    forall p <- parts ensures '.' !in p { assert IsNumeral(p); }
    SplitJoin(parts, '.');
  }

  /** Zero-padded versions: the string order is the numeric order. */
  lemma PaddedOrdersAgree(a: seq<string>, b: seq<string>)
    requires Dotted(a) && Dotted(b) && SameShape(a, b)
    ensures StrLess(Join(a, '.'), Join(b, '.')) == NumericLess(Join(a, '.'), Join(b, '.'))
  {
    SplitDotted(a);
    SplitDotted(b);
    StringOrderIsComponentwise(a, b);
    SameShapeOrder(a, b);
  }

  /** Unpadded versions: the exact condition under which the string order is the numeric order. */
  lemma UnpaddedOrdersAgreeExactly(a: seq<string>, b: seq<string>)
    requires Dotted(a) && Dotted(b) && forall p <- a + b :: IsCanonical(p)
    ensures (StrLess(Join(a, '.'), Join(b, '.')) == NumericLess(Join(a, '.'), Join(b, '.'))) == WidthAgrees(a, b)
  {
    SplitDotted(a);
    SplitDotted(b);
    StringOrderIsComponentwise(a, b);
    CanonicalOrder(a, b);
  }

  /** "17.9" against "17.12": the string order puts 17.12 first, the numeric order 17.9. */
  lemma OrdersDisagree()
    ensures StrLess("17.12", "17.9") && !NumericLess("17.12", "17.9")
    ensures NumericLess("17.9", "17.12") && !StrLess("17.9", "17.12")
  {
    var a, b := ["17", "12"], ["17", "9"];
    assert Join(a, '.') == "17.12" && Join(b, '.') == "17.9";
    SplitDotted(a);
    SplitDotted(b);
    assert Value("12") == 12 && Value("9") == 9;
    assert Values(a)[1..] == [12] && Values(b)[1..] == [9];
    StringOrderIsComponentwise(a, b);
    StringOrderIsComponentwise(b, a);
  }

  /* ---- Strict orders ---- */

  /** What a comparison must satisfy for "greatest" to mean something. */
  ghost predicate StrictWeakOrder(less: LooseOrder) {
    && (forall a :: !less(a, a))
    && (forall a, b, c :: less(a, b) && less(b, c) ==> less(a, c))
    && (forall a, b, c :: !less(a, b) && !less(b, c) ==> !less(a, c))
  }

  lemma {:induction false} StrLessIrreflexive(s: string)
    ensures !StrLess(s, s)
  {
    if s != "" { StrLessIrreflexive(s[1..]); }
  }

  /** `less_than` is a strict order on non-empty versions only: what is missing or empty is below itself. */
  lemma BelowItselfExactlyWhenEmpty(loose: LooseOrder, v: Option<Scalar>)
    requires StrictWeakOrder(loose)
    ensures LessThan(loose, v, v) <==> v.None? || !v.value.Truthy()
  {
    if v.Some? && v.value.Number? { StrLessIrreflexive(v.value.repr); }
  }

  /** Two bare numbers are compared by their digits as text: that is their order exactly when the wider one is also
      alphabetically later, so 10 counts as less than 9. */
  lemma BareNumbersOrderExactly(loose: LooseOrder, p: string, q: string)
    requires IsCanonical(p) && IsCanonical(q) && Value(p) > 0 && Value(q) > 0
    ensures var a, b := Number(p, Value(p) as real), Number(q, Value(q) as real);
            LessThan(loose, Some(a), Some(b)) == (Value(p) < Value(q)) <==> WidthAgrees([p], [q])
  {
    if p == q {
      StrLessIrreflexive(p);
    } else if |p| < |q| {
      WiderIsGreater(p, q);
    } else if |q| < |p| {
      WiderIsGreater(q, p);
    } else {
      assert forall c <- p + q :: IsDigit(c);
      SameWidthOrder(p, q);
    }
  }

  /** As soon as one side is text the loose order decides on what both print as. */
  lemma TextsOrderLoosely(loose: LooseOrder, a: Scalar, b: Scalar)
    requires a.Truthy() && b.Truthy() && (a.Text? || b.Text?)
    ensures LessThan(loose, Some(a), Some(b)) == loose(a.Str(), b.Str())
  {
  }

  /** What is missing or empty comes before everything, itself included, and nothing else comes before it. */
  lemma EmptyVersionsComeFirst(loose: LooseOrder, a: Option<Scalar>, b: Option<Scalar>)
    requires a.None? || !a.value.Truthy() || b.None? || !b.value.Truthy()
    ensures LessThan(loose, a, b) <==> a.None? || !a.value.Truthy()
  {
  }

  lemma {:induction false} LexNatTransitive(a: seq<nat>, b: seq<nat>, c: seq<nat>)
    ensures !LexNat(a, a)
    ensures LexNat(a, b) && LexNat(b, c) ==> LexNat(a, c)
    ensures !LexNat(a, b) && !LexNat(b, c) ==> !LexNat(a, c)
  {
    if a != [] {
      LexNatTransitive(a[1..], if b == [] then [] else b[1..], if c == [] then [] else c[1..]);
    }
  }

  lemma NumericLessIsStrict()
    ensures StrictWeakOrder(NumericLess)
  {
    forall a, b, c
      ensures !NumericLess(a, a)
      ensures NumericLess(a, b) && NumericLess(b, c) ==> NumericLess(a, c)
      ensures !NumericLess(a, b) && !NumericLess(b, c) ==> !NumericLess(a, c)
    {
      LexNatTransitive(Values(Split(a, '.')), Values(Split(b, '.')), Values(Split(c, '.')));
    }
  }
}
