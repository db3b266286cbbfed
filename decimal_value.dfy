/** The number a decimal integer stands for, and why the structural equality
    of parsed integers (src/decimal/mod.rs) is equality of numbers: parsing
    keeps the value of the text, and the canonical form of a non-negative
    value is unique. */
module DecimalValue {
  import opened Wrappers
  import opened Decimal

  /** 10 to the power `n`. */
  function Pow10(n: nat): (p: nat)
    ensures p >= 1
  {
    if n == 0 then 1 else 10 * Pow10(n - 1)
  }

  /** Powers of ten grow with the exponent. */
  lemma {:induction false} Pow10Monotone(m: nat, n: nat)
    requires m <= n
    ensures Pow10(m) <= Pow10(n)
  {
    if m < n {
      Pow10Monotone(m, n - 1);
    }
  }

  /** The number a digit sequence stands for, most significant digit first. */
  function Magnitude(ds: seq<Symbol>): nat {
    if ds == [] then 0 else Value(ds[0]) * Pow10(|ds| - 1) + Magnitude(ds[1..])
  }

  /** The number a digit character stands for. */
  function CharValue(c: char): nat
    requires IsDigit(c)
  {
    c as int - '0' as int
  }

  /** The number a text of decimal digits stands for, first character most
      significant. */
  function Numeral(s: string): nat
    requires forall i :: 0 <= i < |s| ==> IsDigit(s[i])
  {
    if s == [] then 0 else CharValue(s[0]) * Pow10(|s| - 1) + Numeral(s[1..])
  }

  /** `n` digits stand for less than 10^n. */
  lemma {:induction false} MagnitudeBelow(ds: seq<Symbol>)
    ensures Magnitude(ds) < Pow10(|ds|)
  {
    if ds != [] {
      var p := Pow10(|ds| - 1);
      MagnitudeBelow(ds[1..]);
      assert Value(ds[0]) * p <= 9 * p;
    }
  }

  /** `n` digits of which the first is not `Zero` stand for at least 10^(n-1). */
  lemma MagnitudeAtLeast(ds: seq<Symbol>)
    requires ds != [] && ds[0] != Zero
    ensures Pow10(|ds| - 1) <= Magnitude(ds)
  {
  }

  /** Two digit sequences of the same length that stand for the same number
      are the same sequence. */
  lemma {:induction false} MagnitudeInjective(a: seq<Symbol>, b: seq<Symbol>)
    requires |a| == |b| && Magnitude(a) == Magnitude(b)
    ensures a == b
  {
    if a != [] {
      var p := Pow10(|a| - 1);
      var x, y := Value(a[0]), Value(b[0]);
      MagnitudeBelow(a[1..]);
      MagnitudeBelow(b[1..]);
      LeadingDigitsAgree(x, y, p, Magnitude(a[1..]), Magnitude(b[1..]));
      DigitCharInjective(a[0], b[0]);
      MagnitudeInjective(a[1..], b[1..]);
      assert a == [a[0]] + a[1..];
      assert b == [b[0]] + b[1..];
    }
  }

  /** Multiplying by a non-negative factor keeps the order. */
  lemma MulMonotone(a: nat, b: nat, p: nat)
    requires a <= b
    ensures a * p <= b * p
  {
  }

  /** In `x * p + rx == y * p + ry` with both remainders below `p`, the
      leading digits agree. */
  lemma LeadingDigitsAgree(x: nat, y: nat, p: nat, rx: nat, ry: nat)
    requires rx < p && ry < p && x * p + rx == y * p + ry
    ensures x == y
  {
    if x < y {
      MulMonotone(x + 1, y, p);
    } else if y < x {
      MulMonotone(y + 1, x, p);
    }
  }

  /** The text spelling a digit sequence stands for the same number. */
  lemma {:induction false} NumeralOfSpell(ds: seq<Symbol>)
    ensures forall i :: 0 <= i < |ds| ==> IsDigit(Spell(ds)[i])
    ensures Numeral(Spell(ds)) == Magnitude(ds)
  {
    SpellEverywhere(ds);
    if ds != [] {
      var s := Spell(ds);
      assert s[0] == DigitChar(ds[0]);
      assert s[1..] == Spell(ds[1..]);
      NumeralOfSpell(ds[1..]);
    }
  }

  /** Leading '0's do not change the number a text stands for. */
  lemma {:induction false} NumeralSkipsZeros(s: string, k: nat)
    requires forall i :: 0 <= i < |s| ==> IsDigit(s[i])
    requires k <= |s| && forall i :: 0 <= i < k ==> s[i] == '0'
    ensures Numeral(s) == Numeral(s[k..])
  {
    if k > 0 {
      assert s[1..][k - 1..] == s[k..];
      NumeralSkipsZeros(s[1..], k - 1);
    }
  }

  /** Parsing keeps the number: a successful parse of `s` stands for the
      number the text `s` denotes. */
  lemma ParseKeepsValue(s: string)
    requires FromStr(s).Ok?
    ensures forall i :: 0 <= i < |s| ==> IsDigit(s[i])
    ensures Magnitude(FromStr(s).value.symbols) == Numeral(s)
  {
    var k := LeadingZeros(s);
    if k == |s| {
      ZeroTextKeepsValue(s);
    } else {
      PositiveTextKeepsValue(s, k);
    }
  }

  /** `ParseKeepsValue` for texts made only of '0's. */
  lemma ZeroTextKeepsValue(s: string)
    requires forall i :: 0 <= i < |s| ==> s[i] == '0'
    ensures forall i :: 0 <= i < |s| ==> IsDigit(s[i])
    ensures FromStr(s).Ok? && Magnitude(FromStr(s).value.symbols) == Numeral(s)
  {
    ParseZeroText(s);
    NumeralOfZeros(s);
    MagnitudeOfZero();
  }

  /** The digit sequence `[Zero]` stands for 0. */
  lemma MagnitudeOfZero()
    ensures Magnitude([Zero]) == 0
  {
  }

  /** A text made only of '0's stands for 0. */
  lemma {:induction false} NumeralOfZeros(s: string)
    requires forall i :: 0 <= i < |s| ==> s[i] == '0'
    ensures forall i :: 0 <= i < |s| ==> IsDigit(s[i])
    ensures Numeral(s) == 0
  {
    if s != [] {
      NumeralOfZeros(s[1..]);
    }
  }

  /** `ParseKeepsValue` for texts whose leading run of '0's has length
      `k < |s|`. */
  lemma PositiveTextKeepsValue(s: string, k: nat)
    requires forall i :: 0 <= i < |s| ==> IsDigit(s[i])
    requires k < |s| && s[k] != '0'
    requires forall i :: 0 <= i < k ==> s[i] == '0'
    ensures FromStr(s).Ok? && Magnitude(FromStr(s).value.symbols) == Numeral(s)
  {
    ParsePositiveText(s, k);
    var ds := FromStr(s).value.symbols;
    NumeralOfSpell(ds);
    NumeralSkipsZeros(s, k);
  }

  /** The length of the leading run of '0's of a text. */
  function LeadingZeros(s: string): (k: nat)
    ensures k <= |s|
    ensures forall i :: 0 <= i < k ==> s[i] == '0'
    ensures k < |s| ==> s[k] != '0'
  {
    if s != [] && s[0] == '0' then 1 + LeadingZeros(s[1..]) else 0
  }

  /** A canonical, non-negative integer is determined by the number it stands
      for. */
  lemma CanonicalUnique(a: Integer, b: Integer)
    requires Canonical(a) && a.sign != Minus
    requires Canonical(b) && b.sign != Minus
    requires Magnitude(a.symbols) == Magnitude(b.symbols)
    ensures a == b
  {
    if |a.symbols| < |b.symbols| {
      Unequal(a.symbols, b.symbols);
    } else if |b.symbols| < |a.symbols| {
      Unequal(b.symbols, a.symbols);
    } else {
      MagnitudeInjective(a.symbols, b.symbols);
    }
  }

  /** A shorter digit sequence stands for less than a longer one that does not
      start with `Zero`. */
  lemma Unequal(short: seq<Symbol>, long: seq<Symbol>)
    requires |short| < |long| && long[0] != Zero
    ensures Magnitude(short) < Magnitude(long)
  {
    MagnitudeBelow(short);
    Pow10Monotone(|short|, |long| - 1);
    MagnitudeAtLeast(long);
  }

  /** Two parsed integers compare equal exactly when their texts denote the
      same number: "007" and "7" give equal integers, "10" and "1" do not. */
  lemma ParsedEqualIffSameNumber(s: string, t: string)
    requires FromStr(s).Ok? && FromStr(t).Ok?
    ensures forall i :: 0 <= i < |s| ==> IsDigit(s[i])
    ensures forall i :: 0 <= i < |t| ==> IsDigit(t[i])
    ensures IntegerEq(FromStr(s).value, FromStr(t).value) <==> Numeral(s) == Numeral(t)
  {
    ParseKeepsValue(s);
    ParseKeepsValue(t);
    if Numeral(s) == Numeral(t) {
      CanonicalUnique(FromStr(s).value, FromStr(t).value);
    }
  }
}
