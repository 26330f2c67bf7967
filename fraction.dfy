/**
 * The rational-number class of Fraction.cs. A fraction keeps its numerator
 * and denominator in lowest terms with a positive denominator; the setters
 * re-normalise in place, and the operators build new fractions. Integers are
 * unbounded here: the 32-bit overflow of the C# arithmetic is not modelled.
 */
module Fractions {
  import opened Wrappers
  import opened Decimal

  /** `Math.Abs`. */
  function Abs(x: int): nat
  {
    if x < 0 then -x else x
  }

  /** C#'s integer `/`, which truncates toward zero (Dafny's `/` is Euclidean). */
  function TruncDiv(x: int, y: int): int
    requires y != 0
  {
    if (x < 0) == (y < 0) then Abs(x) / Abs(y) else -(Abs(x) / Abs(y))
  }

  /** `d` divides `n`; zero divides only zero. */
  predicate Divides(d: nat, n: nat)
  {
    if d == 0 then n == 0 else n % d == 0
  }

  /** The greatest common divisor, by Euclid's remainder recursion. */
  function Gcd(a: nat, b: nat): nat
    decreases b
  {
    if b == 0 then a else Gcd(b, a % b)
  }

  /** A positive multiple of a positive number is at least that number. */
  lemma MulAtLeast(x: int, d: int)
    requires x >= 1 && d > 0
    ensures x * d >= d
  {
  }

  /** Division with remainder has exactly one answer. */
  lemma DivModUnique(n: int, d: int, q: int, r: int)
    requires d > 0 && 0 <= r < d && n == q * d + r
    ensures n / d == q && n % d == r
  {
    var q', r' := n / d, n % d;
    assert n == q' * d + r';
    assert (q - q') * d == r' - r;
    if q > q' {
      MulAtLeast(q - q', d);
    } else if q < q' {
      MulAtLeast(q' - q, d);
    }
  }

  /** A multiple of `g` divided by `g` gives the multiplier back, with no remainder. */
  lemma MulDivExact(g: nat, k: nat)
    requires g > 0
    ensures (g * k) / g == k && (g * k) % g == 0
  {
    DivModUnique(g * k, g, k, 0);
  }

  /** Scaling both operands of a division scales the remainder. */
  lemma ModScale(a: nat, b: nat, k: nat)
    requires b > 0 && k > 0
    ensures (k * a) % (k * b) == k * (a % b)
  {
    var q, r := a / b, a % b;
    assert a == q * b + r;
    assert k * a == q * (k * b) + k * r;
    assert k * r < k * b;
    DivModUnique(k * a, k * b, q, k * r);
  }

  /** The gcd of two numbers not both zero is positive. */
  lemma {:induction false} GcdPositive(a: nat, b: nat)
    requires a > 0 || b > 0
    ensures Gcd(a, b) > 0
    decreases b
  {
    if b > 0 {
      GcdPositive(b, a % b);
    }
  }

  /** `Gcd(a, b)` divides both `a` and `b`. */
  lemma {:induction false} GcdDivides(a: nat, b: nat)
    ensures Divides(Gcd(a, b), a) && Divides(Gcd(a, b), b)
    decreases b
  {
    if b > 0 {
      var g := Gcd(b, a % b);
      GcdDivides(b, a % b);
      if g > 0 {
        var x, y := b / g, (a % b) / g;
        assert b == g * x && a % b == g * y;
        var q := a / b;
        assert a == q * b + a % b;
        assert a == g * (q * x + y);
        MulDivExact(g, q * x + y);
      }
    }
  }

  /** Every common divisor of `a` and `b` divides `Gcd(a, b)`: it is the greatest. */
  lemma {:induction false} GcdGreatest(a: nat, b: nat, d: nat)
    requires d > 0 && Divides(d, a) && Divides(d, b)
    ensures Divides(d, Gcd(a, b))
    decreases b
  {
    if b > 0 {
      var x, y := a / d, b / d;
      assert a == d * x && b == d * y;
      var q := a / b;
      assert a % b == a - q * b;
      assert a % b == d * (x - q * y);
      assert x - q * y >= 0;
      MulDivExact(d, x - q * y);
      GcdGreatest(b, a % b, d);
    }
  }

  /** The gcd scales with its operands. */
  lemma {:induction false} GcdScale(a: nat, b: nat, k: nat)
    requires k > 0
    ensures Gcd(k * a, k * b) == k * Gcd(a, b)
    decreases b
  {
    if b > 0 {
      ModScale(a, b, k);
      GcdScale(b, a % b, k);
    }
  }

  /** A multiple of `g`, divided by `g` with C#'s truncating `/`, gives back the multiplier. */
  lemma TruncDivExact(x: int, g: nat)
    requires g > 0 && Divides(g, Abs(x))
    ensures TruncDiv(x, g) * g == x
    ensures Abs(TruncDiv(x, g)) == Abs(x) / g
  {
  }

  /** What `Simplify` leaves in the fields: both divided by their gcd, then the sign moved to the numerator. */
  function Normalize(n: int, d: int): (int, int)
    requires d != 0
  {
    GcdPositive(Abs(n), Abs(d));
    var g := Gcd(Abs(n), Abs(d));
    var n1, d1 := TruncDiv(n, g), TruncDiv(d, g);
    if d1 < 0 then (-n1, -d1) else (n1, d1)
  }

  /** The value `n / d` as a rational number. */
  ghost function Value(n: int, d: int): real
    requires d != 0
  {
    n as real / d as real
  }

  /** Fractions with equal cross products have equal values. */
  lemma CrossProductValue(n1: int, d1: int, n2: int, d2: int)
    requires d1 != 0 && d2 != 0 && n1 * d2 == n2 * d1
    ensures Value(n1, d1) == Value(n2, d2)
  {
  }

  /** Dividing both operands by their gcd leaves coprime parts that multiply back. */
  lemma ReducedParts(n: int, d: int, g: nat)
    requires d != 0 && g == Gcd(Abs(n), Abs(d))
    ensures g > 0
    ensures TruncDiv(n, g) * g == n && TruncDiv(d, g) * g == d
    ensures Gcd(Abs(TruncDiv(n, g)), Abs(TruncDiv(d, g))) == 1
  {
    var a, b := Abs(n), Abs(d);
    GcdPositive(a, b);
    GcdDivides(a, b);
    TruncDivExact(n, g);
    TruncDivExact(d, g);
    var a', b' := a / g, b / g;
    assert a == g * a' && b == g * b';
    GcdScale(a', b', g);
    assert g * Gcd(a', b') == g * 1;
  }

  /** Equal cross products survive scaling both sides by `g`. */
  lemma CrossScaled(n1: int, d1: int, g: int)
    ensures n1 * (d1 * g) == (n1 * g) * d1
  {
  }

  /** `Normalize` gives coprime parts, a positive denominator and equal cross products. */
  lemma NormalizeReduces(n: int, d: int)
    requires d != 0
    ensures Normalize(n, d).1 > 0
    ensures Gcd(Abs(Normalize(n, d).0), Normalize(n, d).1) == 1
    ensures Normalize(n, d).0 * d == n * Normalize(n, d).1
  {
    var g := Gcd(Abs(n), Abs(d));
    ReducedParts(n, d, g);
    var n1, d1 := TruncDiv(n, g), TruncDiv(d, g);
    CrossScaled(n1, d1, g);
    assert n1 * d == n * d1;
    if d1 < 0 {
      assert Normalize(n, d) == (-n1, -d1);
      assert (-n1) * d == -(n1 * d) && n * (-d1) == -(n * d1);
    } else {
      assert Normalize(n, d) == (n1, d1);
    }
  }

  /**
   * `Normalize` gives lowest terms with a positive denominator and the same
   * value; zero becomes 0/1.
   */
  lemma NormalizeSpec(n: int, d: int)
    requires d != 0
    ensures Normalize(n, d).1 > 0
    ensures Gcd(Abs(Normalize(n, d).0), Normalize(n, d).1) == 1
    ensures Normalize(n, d).0 * d == n * Normalize(n, d).1
    ensures Value(Normalize(n, d).0, Normalize(n, d).1) == Value(n, d)
    ensures n == 0 ==> Normalize(n, d) == (0, 1)
  {
    NormalizeReduces(n, d);
    var r := Normalize(n, d);
    CrossProductValue(r.0, r.1, n, d);
    if n == 0 {
      assert r.0 * d == 0;
      assert r.0 == 0;
      assert Gcd(0, r.1) == r.1;
    }
  }

  /** A fraction already in lowest terms with a positive denominator is left as it is. */
  lemma NormalizeIdempotent(n: int, d: int)
    requires d > 0 && Gcd(Abs(n), d) == 1
    ensures Normalize(n, d) == (n, d)
  {
  }

  /** The exceptions the class throws. */
  datatype FractionError =
    /** `ArgumentException`: "Denominator cannot be zero." */
    | ZeroDenominator
    /** `DivideByZeroException`: "Cannot divide by a fraction with a numerator of zero." */
    | DivideByZero

  /** The text `ToString` gives: the numerator alone over a denominator of 1, else "n/d". */
  function Format(n: int, d: int): string
  {
    if d == 1 then IntToString(n) else IntToString(n) + "/" + IntToString(d)
  }

  /** The first position of `c` in `s`, or `|s|` when there is none. */
  function IndexOf(s: string, c: char): (i: nat)
    ensures i <= |s|
    ensures i < |s| ==> s[i] == c
    ensures forall j | 0 <= j < i :: s[j] != c
  {
    if s == [] then 0
    else if s[0] == c then 0
    else 1 + IndexOf(s[1..], c)
  }

  /** Reads back what `Format` writes: "n" as n/1, "n/d" as n/d. */
  function ParseFraction(s: string): Option<(int, int)>
  {
    var i := IndexOf(s, '/');
    if i == |s| then
      match ParseInt(s)
      case Some(n) => Some((n, 1))
      case None => None
    else
      match (ParseInt(s[..i]), ParseInt(s[i + 1..]))
      case (Some(n), Some(d)) => Some((n, d))
      case _ => None
  }

  /** `Format` loses nothing: the numerator and denominator can be read back from the text. */
  lemma FormatRoundTrip(n: int, d: int)
    ensures ParseFraction(Format(n, d)) == Some((n, d))
  {
    IntToStringRoundTrip(n);
    if d != 1 {
      IntToStringRoundTrip(d);
      var s := Format(n, d);
      var ns := IntToString(n);
      assert s[|ns|] == '/';
      assert IndexOf(s, '/') == |ns|;
      assert s[..|ns|] == ns;
      assert s[|ns| + 1..] == IntToString(d);
    }
  }

  class Fraction {
    var numerator: int
    var denominator: int

    /** The class invariant every public member keeps: lowest terms, positive denominator. */
    ghost predicate Valid()
      reads this
    {
      denominator > 0 && Gcd(Abs(numerator), denominator) == 1
    }

    /** The fraction's value. */
    ghost function Val(): real
      reads this
      requires denominator != 0
    {
      Value(numerator, denominator)
    }

    /** `Fraction(numerator, denominator)` for a denominator that is not zero: stored normalised. */
    constructor (n: int, d: int)
      requires d != 0
      ensures Valid()
      ensures (numerator, denominator) == Normalize(n, d)
      ensures Val() == Value(n, d)
    {
      numerator := n;
      denominator := d;
      new;
      Simplify();
      NormalizeSpec(n, d);
    }

    /** `Fraction(wholeNumber)`: w/1, already in lowest terms, so not simplified. */
    constructor FromWhole(w: int)
      ensures Valid()
      ensures numerator == w && denominator == 1
    {
      numerator := w;
      denominator := 1;
    }

    /** `new Fraction(n, d)` with its check: a zero denominator throws `ArgumentException`. */
    static method Create(n: int, d: int) returns (r: Result<Fraction, FractionError>)
      ensures d == 0 ==> r == Err(ZeroDenominator)
      ensures d != 0 ==>
        && r.Ok? && fresh(r.value) && r.value.Valid()
        && (r.value.numerator, r.value.denominator) == Normalize(n, d)
    {
      if d == 0 {
        return Err(ZeroDenominator);
      }
      var f := new Fraction(n, d);
      r := Ok(f);
    }

    /** `GCD`: Euclid's loop on two non-negative numbers. */
    static method GCD(a: nat, b: nat) returns (r: nat)
      ensures r == Gcd(a, b)
      ensures Divides(r, a) && Divides(r, b)
      ensures forall d: nat | d > 0 && Divides(d, a) && Divides(d, b) :: Divides(d, r)
    {
      var x, y := a, b;
      while y != 0
        invariant Gcd(x, y) == Gcd(a, b)
        decreases y
      {
        var temp := y;
        y := x % y;
        x := temp;
      }
      r := x;
      GcdDivides(a, b);
      forall d: nat | d > 0 && Divides(d, a) && Divides(d, b)
        ensures Divides(d, r)
      {
        GcdGreatest(a, b, d);
      }
    }

    /** `Simplify`: divide both fields by their gcd and keep the denominator positive. */
    method Simplify()
      requires denominator != 0
      modifies this
      ensures Valid()
      ensures (numerator, denominator) == Normalize(old(numerator), old(denominator))
    {
      ghost var n0, d0 := numerator, denominator;
      var gcd := GCD(Abs(numerator), Abs(denominator));
      GcdPositive(Abs(numerator), Abs(denominator));
      numerator := TruncDiv(numerator, gcd);
      denominator := TruncDiv(denominator, gcd);
      if denominator < 0 {
        numerator := -numerator;
        denominator := -denominator;
      }
      NormalizeSpec(n0, d0);
    }

    /** The `Numerator` setter: store the value, then simplify against the current denominator. */
    method SetNumerator(value: int)
      requires Valid()
      modifies this
      ensures Valid()
      ensures (numerator, denominator) == Normalize(value, old(denominator))
    {
      numerator := value;
      Simplify();
    }

    /** The `Denominator` setter: zero throws and changes nothing; otherwise store and simplify. */
    method SetDenominator(value: int) returns (r: Result<(), FractionError>)
      requires Valid()
      modifies this
      ensures Valid()
      ensures value == 0 ==>
        r == Err(ZeroDenominator) && numerator == old(numerator) && denominator == old(denominator)
      ensures value != 0 ==>
        r == Ok(()) && (numerator, denominator) == Normalize(old(numerator), value)
    {
      if value == 0 {
        return Err(ZeroDenominator);
      }
      denominator := value;
      Simplify();
      r := Ok(());
    }

    /** `operator +`: the normalised sum. */
    static method Add(a: Fraction, b: Fraction) returns (r: Fraction)
      requires a.Valid() && b.Valid()
      ensures fresh(r) && r.Valid()
      ensures (r.numerator, r.denominator) ==
        Normalize(a.numerator * b.denominator + b.numerator * a.denominator, a.denominator * b.denominator)
      ensures r.Val() == a.Val() + b.Val()
    {
      r := new Fraction(a.numerator * b.denominator + b.numerator * a.denominator, a.denominator * b.denominator);
      SumValue(a.numerator, a.denominator, b.numerator, b.denominator);
    }

    /** `operator -`: the normalised difference. */
    static method Subtract(a: Fraction, b: Fraction) returns (r: Fraction)
      requires a.Valid() && b.Valid()
      ensures fresh(r) && r.Valid()
      ensures (r.numerator, r.denominator) ==
        Normalize(a.numerator * b.denominator - b.numerator * a.denominator, a.denominator * b.denominator)
      ensures r.Val() == a.Val() - b.Val()
    {
      r := new Fraction(a.numerator * b.denominator - b.numerator * a.denominator, a.denominator * b.denominator);
      DifferenceValue(a.numerator, a.denominator, b.numerator, b.denominator);
    }

    /** `operator *`: the normalised product. */
    static method Multiply(a: Fraction, b: Fraction) returns (r: Fraction)
      requires a.Valid() && b.Valid()
      ensures fresh(r) && r.Valid()
      ensures (r.numerator, r.denominator) ==
        Normalize(a.numerator * b.numerator, a.denominator * b.denominator)
      ensures r.Val() == a.Val() * b.Val()
    {
      r := new Fraction(a.numerator * b.numerator, a.denominator * b.denominator);
      ProductValue(a.numerator, a.denominator, b.numerator, b.denominator);
    }

    /** `operator /`: a divisor with numerator 0 throws; otherwise the normalised quotient. */
    static method Divide(a: Fraction, b: Fraction) returns (r: Result<Fraction, FractionError>)
      requires a.Valid() && b.Valid()
      ensures b.numerator == 0 ==> r == Err(DivideByZero)
      ensures b.numerator != 0 ==>
        && r.Ok? && fresh(r.value) && r.value.Valid()
        && (r.value.numerator, r.value.denominator) ==
             Normalize(a.numerator * b.denominator, a.denominator * b.numerator)
        && r.value.Val() == a.Val() / b.Val()
    {
      if b.numerator == 0 {
        return Err(DivideByZero);
      }
      var q := new Fraction(a.numerator * b.denominator, a.denominator * b.numerator);
      QuotientValue(a.numerator, a.denominator, b.numerator, b.denominator);
      r := Ok(q);
    }

    /** `ToString`: the numerator alone when the denominator is 1, otherwise "n/d"; both read back. */
    function ToString(): (s: string)
      reads this
      ensures ('/' in s) <==> denominator != 1
      ensures ParseFraction(s) == Some((numerator, denominator))
    {
      FormatRoundTrip(numerator, denominator);
      Format(numerator, denominator)
    }
  }

  /** The cross-multiplied sum has the value of the sum. */
  lemma SumValue(n1: int, d1: int, n2: int, d2: int)
    requires d1 != 0 && d2 != 0
    ensures Value(n1 * d2 + n2 * d1, d1 * d2) == Value(n1, d1) + Value(n2, d2)
  {
  }

  /** The cross-multiplied difference has the value of the difference. */
  lemma DifferenceValue(n1: int, d1: int, n2: int, d2: int)
    requires d1 != 0 && d2 != 0
    ensures Value(n1 * d2 - n2 * d1, d1 * d2) == Value(n1, d1) - Value(n2, d2)
  {
  }

  /** The product of numerators over the product of denominators has the value of the product. */
  lemma ProductValue(n1: int, d1: int, n2: int, d2: int)
    requires d1 != 0 && d2 != 0
    ensures Value(n1 * n2, d1 * d2) == Value(n1, d1) * Value(n2, d2)
  {
  }

  /** Multiplying by the flipped divisor has the value of the quotient. */
  lemma QuotientValue(n1: int, d1: int, n2: int, d2: int)
    requires d1 != 0 && d2 != 0 && n2 != 0
    ensures Value(n1 * d2, d1 * n2) == Value(n1, d1) / Value(n2, d2)
  {
  }
}
