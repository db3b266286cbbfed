/** Decimal integers as a sign and a sequence of digit symbols, and the parser
    that builds them from text (src/decimal/mod.rs).

    Digits are stored in textual order, most significant first; a parsed value
    is canonical: its digit sequence is non-empty, starts with `Zero` only when
    it is exactly `[Zero]`, and that one value carries the sign `NoSign`. */
module Decimal {
  import opened Wrappers

  // ---------------------------------------------------------------------------
  // Digit symbols
  // ---------------------------------------------------------------------------

  /** One decimal digit, as a closed enumeration of ten values. */
  datatype Symbol = Zero | One | Two | Three | Four | Five | Six | Seven | Eight | Nine

  /** Variant-by-variant equality on symbols: true exactly when both operands
      are the same variant (hence reflexive, symmetric and transitive). */
  function SymbolEq(a: Symbol, b: Symbol): (r: bool)
    ensures r <==> a == b
  {
    match a
    case Zero => (match b case Zero => true case _ => false)
    case One => (match b case One => true case _ => false)
    case Two => (match b case Two => true case _ => false)
    case Three => (match b case Three => true case _ => false)
    case Four => (match b case Four => true case _ => false)
    case Five => (match b case Five => true case _ => false)
    case Six => (match b case Six => true case _ => false)
    case Seven => (match b case Seven => true case _ => false)
    case Eight => (match b case Eight => true case _ => false)
    case Nine => (match b case Nine => true case _ => false)
  }

  /** A copy of a symbol, variant by variant: always equal to the original. */
  function Clone(x: Symbol): (r: Symbol)
    ensures r == x
    ensures SymbolEq(r, x)
  {
    match x
    case Zero => Zero
    case One => One
    case Two => Two
    case Three => Three
    case Four => Four
    case Five => Five
    case Six => Six
    case Seven => Seven
    case Eight => Eight
    case Nine => Nine
  }

  /** The numeric value 0..9 a symbol stands for. */
  function Value(d: Symbol): (v: nat)
    ensures v < 10
    ensures v == 0 <==> d == Zero
  {
    match d
    case Zero => 0
    case One => 1
    case Two => 2
    case Three => 3
    case Four => 4
    case Five => 5
    case Six => 6
    case Seven => 7
    case Eight => 8
    case Nine => 9
  }

  /** The ASCII decimal digits '0'..'9'. */
  predicate IsDigit(c: char) {
    '0' <= c <= '9'
  }

  /** The character that names a symbol; the reference against which
      `FromChar` is specified. Distinct symbols have distinct names. */
  function DigitChar(d: Symbol): (c: char)
    ensures IsDigit(c)
    ensures c as int - '0' as int == Value(d)
  {
    ('0' as int + Value(d)) as char
  }

  /** Symbols are determined by the characters that name them. */
  lemma DigitCharInjective(a: Symbol, b: Symbol)
    ensures DigitChar(a) == DigitChar(b) <==> a == b
  {
  }

  /** The symbol named by a character: some digit for exactly '0'..'9' (the one
      that character names), and nothing for every other character, the sign
      characters '+' and '-' included. */
  function FromChar(c: char): (r: Option<Symbol>)
    ensures r.Some? <==> IsDigit(c)
    ensures r.Some? ==> DigitChar(r.value) == c
  {
    match c
    case '0' => Some(Zero)
    case '1' => Some(One)
    case '2' => Some(Two)
    case '3' => Some(Three)
    case '4' => Some(Four)
    case '5' => Some(Five)
    case '6' => Some(Six)
    case '7' => Some(Seven)
    case '8' => Some(Eight)
    case '9' => Some(Nine)
    case _ => None
  }

  /** `FromChar` reads back the name of every symbol. */
  lemma FromCharDigitChar(d: Symbol)
    ensures FromChar(DigitChar(d)) == Some(d)
  {
  }

  /** The text that spells a symbol sequence, one character per symbol, in the
      same order (see `SpellAt`). */
  function Spell(ds: seq<Symbol>): (t: string)
    ensures |t| == |ds|
  {
    if ds == [] then "" else [DigitChar(ds[0])] + Spell(ds[1..])
  }

  /** Character `i` of the spelling names symbol `i`. */
  lemma {:induction false} SpellAt(ds: seq<Symbol>, i: nat)
    requires i < |ds|
    ensures Spell(ds)[i] == DigitChar(ds[i])
  {
    if i > 0 {
      SpellAt(ds[1..], i - 1);
    }
  }

  /** `SpellAt` at every position at once. */
  lemma SpellEverywhere(ds: seq<Symbol>)
    ensures forall i :: 0 <= i < |ds| ==> Spell(ds)[i] == DigitChar(ds[i])
  {
    forall i | 0 <= i < |ds| {
      SpellAt(ds, i);
    }
  }

  // ---------------------------------------------------------------------------
  // Signs
  // ---------------------------------------------------------------------------

  /** The sign of an integer; `FromStr` gives `NoSign` only to the canonical zero. */
  datatype Sign = Plus | Minus | NoSign

  /** Variant-by-variant equality on signs. */
  function SignEq(a: Sign, b: Sign): (r: bool)
    ensures r <==> a == b
  {
    match a
    case Plus => (match b case Plus => true case _ => false)
    case Minus => (match b case Minus => true case _ => false)
    case NoSign => (match b case NoSign => true case _ => false)
  }

  // ---------------------------------------------------------------------------
  // Integers
  // ---------------------------------------------------------------------------

  /** A signed decimal integer: a sign and its digits, most significant first. */
  datatype Integer = Integer(sign: Sign, symbols: seq<Symbol>)

  /** Builds an integer from a sign and a copy of the given symbols. */
  function NewRaw(s: Sign, ss: seq<Symbol>): (r: Integer)
    ensures r.sign == s
    ensures |r.symbols| == |ss|
    ensures forall i :: 0 <= i < |ss| ==> r.symbols[i] == ss[i]
  {
    Integer(s, ss)
  }

  /** Element-by-element comparison of two symbol sequences, stopping at the
      first difference or at the end of the shorter one: true exactly when the
      two have the same length and agree at every position. */
  function SymbolsEq(xs: seq<Symbol>, ys: seq<Symbol>): (r: bool)
    ensures r <==> |xs| == |ys| && forall i :: 0 <= i < |xs| ==> xs[i] == ys[i]
  {
    if xs == [] || ys == [] then xs == [] && ys == []
    else SymbolEq(xs[0], ys[0]) && SymbolsEq(xs[1..], ys[1..])
  }

  /** Equality on integers: equal signs and pointwise-equal symbol sequences,
      which is exactly structural equality. */
  function IntegerEq(a: Integer, b: Integer): (r: bool)
    ensures r <==> a.sign == b.sign && |a.symbols| == |b.symbols|
                   && forall i :: 0 <= i < |a.symbols| ==> a.symbols[i] == b.symbols[i]
    ensures r <==> a == b
  {
    SignEq(a.sign, b.sign) && SymbolsEq(a.symbols, b.symbols)
  }

  /** The canonical form every parsed integer has: a non-empty digit sequence;
      the sign is `NoSign` exactly for the digits `[Zero]`; no other value
      starts with `Zero`. */
  predicate Canonical(v: Integer) {
    && |v.symbols| > 0
    && (v.sign == NoSign <==> v.symbols == [Zero])
    && (v.symbols != [Zero] ==> v.symbols[0] != Zero)
  }

  // ---------------------------------------------------------------------------
  // Parsing
  // ---------------------------------------------------------------------------

  /** The single parse error. Despite its name it is reported for a character
      that is not a decimal digit; the empty text is not an error. */
  datatype ParseIntegerError = EmptyString

  /** Equality on parse errors: there is one variant, so it always holds. */
  function ErrorEq(a: ParseIntegerError, b: ParseIntegerError): (r: bool)
    ensures r
    ensures r <==> a == b
  {
    match a
    case EmptyString => (match b case EmptyString => true)
  }

  /** Maps every character of `s` to its symbol, giving up at the first
      character that is not a digit. Succeeds exactly when every character is a
      digit, and then the result spells `s`. */
  function CollectSymbols(s: string): (r: Option<seq<Symbol>>)
    ensures r.Some? <==> forall i :: 0 <= i < |s| ==> IsDigit(s[i])
    ensures r.Some? ==> Spell(r.value) == s
  {
    if s == [] then Some([])
    else
      match FromChar(s[0])
      case None => None
      case Some(d) =>
        match CollectSymbols(s[1..])
        case None => None
        case Some(ds) => Some([d] + ds)
  }

  /** Drops the maximal leading run of `Zero` symbols: the result is a suffix
      of `ds`, everything dropped is `Zero`, and the result does not itself
      start with `Zero`. */
  function SkipLeadingZeros(ds: seq<Symbol>): (r: seq<Symbol>)
    ensures |r| <= |ds| && r == ds[|ds| - |r|..]
    ensures forall i :: 0 <= i < |ds| - |r| ==> ds[i] == Zero
    ensures r != [] ==> r[0] != Zero
  {
    if ds != [] && SymbolEq(ds[0], Zero) then SkipLeadingZeros(ds[1..]) else ds
  }

  /** Parses text as a decimal integer. It fails, with `EmptyString`, exactly
      when some character is not one of '0'..'9' (so '+' and '-' are rejected
      too); every result is canonical and never has the sign `Minus`. Which
      result each text gives is stated by `ParseZeroText` and
      `ParsePositiveText`. */
  function FromStr(s: string): (r: Result<Integer, ParseIntegerError>)
    ensures r.Err? <==> exists i :: 0 <= i < |s| && !IsDigit(s[i])
    ensures r.Ok? ==> Canonical(r.value) && r.value.sign != Minus
  {
    match CollectSymbols(s)
    case None => Err(EmptyString)
    case Some(ds) =>
      var t := SkipLeadingZeros(ds);
      if t == [] then Ok(NewRaw(NoSign, [Zero])) else Ok(NewRaw(Plus, t))
  }

  /** The canonical zero `NoSign`/`[Zero]` is the result exactly for texts
      made only of '0's, the empty text included. */
  lemma ParseZeroText(s: string)
    ensures FromStr(s) == Ok(Integer(NoSign, [Zero])) <==>
            forall i :: 0 <= i < |s| ==> s[i] == '0'
  {
    match CollectSymbols(s)
    case None =>
      assert exists i :: 0 <= i < |s| && !IsDigit(s[i]);
    case Some(ds) =>
      ZerosSpellZeros(ds, |ds|);
      var t := SkipLeadingZeros(ds);
      if t != [] {
        assert t[0] == ds[|ds| - |t|];
      }
  }

  /** A text of digits whose leading run of '0's has length `k < |s|` parses
      to a `Plus` integer whose digits spell the rest of the text, in textual
      order. */
  lemma ParsePositiveText(s: string, k: nat)
    requires forall i :: 0 <= i < |s| ==> IsDigit(s[i])
    requires k < |s| && s[k] != '0'
    requires forall i :: 0 <= i < k ==> s[i] == '0'
    ensures FromStr(s).Ok? && FromStr(s).value.sign == Plus
    ensures Spell(FromStr(s).value.symbols) == s[k..]
  {
    var ds := CollectSymbols(s).value;
    ZerosSpellZeros(ds, k);
    SpellAt(ds, k);
    DigitCharInjective(ds[k], Zero);
    SkipExactlyLeadingZeros(ds, k);
    SpellSuffix(ds, k);
  }

  /** When the first `k` symbols are `Zero` and the next is not, exactly those
      `k` are skipped. */
  lemma {:induction false} SkipExactlyLeadingZeros(ds: seq<Symbol>, k: nat)
    requires k < |ds| && ds[k] != Zero
    requires forall i :: 0 <= i < k ==> ds[i] == Zero
    ensures SkipLeadingZeros(ds) == ds[k..]
  {
    if k > 0 {
      assert ds[1..][k - 1..] == ds[k..];
      SkipExactlyLeadingZeros(ds[1..], k - 1);
    }
  }

  /** Spelling commutes with dropping a prefix. */
  lemma {:induction false} SpellSuffix(ds: seq<Symbol>, k: nat)
    requires k <= |ds|
    ensures Spell(ds[k..]) == Spell(ds)[k..]
  {
    if k > 0 {
      assert ds[1..][k - 1..] == ds[k..];
      SpellSuffix(ds[1..], k - 1);
    }
  }

  /** The characters spelling a prefix of symbols are all '0' exactly when
      the symbols of that prefix are all `Zero`. */
  lemma ZerosSpellZeros(ds: seq<Symbol>, k: nat)
    requires k <= |ds|
    ensures (forall i :: 0 <= i < k ==> ds[i] == Zero) ==>
            (forall i :: 0 <= i < k ==> Spell(ds)[i] == '0')
    ensures (forall i :: 0 <= i < k ==> Spell(ds)[i] == '0') ==>
            (forall i :: 0 <= i < k ==> ds[i] == Zero)
  {
    forall i | 0 <= i < k
      ensures ds[i] == Zero <==> Spell(ds)[i] == '0'
    {
      SpellAt(ds, i);
      DigitCharInjective(ds[i], Zero);
    }
  }

  /** Texts that spell the same symbols come from the same symbols. */
  lemma SpellInjective(a: seq<Symbol>, b: seq<Symbol>)
    requires Spell(a) == Spell(b)
    ensures a == b
  {
    forall i | 0 <= i < |a|
      ensures a[i] == b[i]
    {
      SpellAt(a, i);
      SpellAt(b, i);
      DigitCharInjective(a[i], b[i]);
    }
  }

  /** Parsing the digits of any canonical, non-negative integer gives that
      integer back. */
  lemma ParseSpelled(v: Integer)
    requires Canonical(v) && v.sign != Minus
    ensures FromStr(Spell(v.symbols)) == Ok(v)
  {
    var s := Spell(v.symbols);
    var c := CollectSymbols(s);
    SpellEverywhere(v.symbols);
    assert c.Some?;
    SpellInjective(c.value, v.symbols);
    if v.symbols == [Zero] {
      assert SkipLeadingZeros(v.symbols) == [];
    } else {
      assert SkipLeadingZeros(v.symbols) == v.symbols;
    }
  }

  /** Collecting a text that starts with '0' collects the rest behind a
      `Zero`. */
  lemma CollectLeadingZero(s: string)
    requires s != [] && s[0] == '0'
    ensures CollectSymbols(s).Some? <==> CollectSymbols(s[1..]).Some?
    ensures CollectSymbols(s).Some? ==>
              CollectSymbols(s).value == [Zero] + CollectSymbols(s[1..]).value
  {
  }

  /** Skipping leading zeros skips one more `Zero` in front. */
  lemma SkipLeadingZero(ds: seq<Symbol>)
    ensures SkipLeadingZeros([Zero] + ds) == SkipLeadingZeros(ds)
  {
  }

  /** A leading '0' changes nothing: the parse of a text starting with '0'
      is the parse of the rest of it, failure included. */
  lemma ParseSkipsOneZero(s: string)
    requires s != [] && s[0] == '0'
    ensures FromStr(s) == FromStr(s[1..])
  {
    CollectLeadingZero(s);
    var rest := CollectSymbols(s[1..]);
    if rest.Some? {
      SkipLeadingZero(rest.value);
    }
  }

  /** Any leading run of '0's changes nothing. */
  lemma {:induction false} ParseSkipsLeadingZeros(s: string, k: nat)
    requires k <= |s|
    requires forall i :: 0 <= i < k ==> s[i] == '0'
    ensures FromStr(s) == FromStr(s[k..])
  {
    if k > 0 {
      ParseSkipsOneZero(s);
      assert s[1..][k - 1..] == s[k..];
      ParseSkipsLeadingZeros(s[1..], k - 1);
    }
  }
}
