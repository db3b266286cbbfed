/** The unit tests of src/decimal/mod.rs, one lemma per test, and the edge
    cases of the parser that they do not cover, stated as lemmas about the
    model. */
module DecimalTests {
  import opened Wrappers
  import opened Decimal
  import opened DecimalValue

  /** A canonical, non-negative integer is what its own spelling parses to. */
  lemma ParsesTo(s: string, v: Integer)
    requires Canonical(v) && v.sign != Minus && Spell(v.symbols) == s
    ensures FromStr(s) == Ok(v)
  {
    ParseSpelled(v);
  }

  /** "0" is the canonical zero. */
  lemma FromStrTest0()
    ensures FromStr("0") == Ok(NewRaw(NoSign, [Zero]))
  {
    ParsesTo("0", NewRaw(NoSign, [Zero]));
  }

  lemma FromStrTest1()
    ensures FromStr("1") == Ok(NewRaw(Plus, [One]))
  {
    ParsesTo("1", NewRaw(Plus, [One]));
  }

  lemma FromStrTest2()
    ensures FromStr("2") == Ok(NewRaw(Plus, [Two]))
  {
    ParsesTo("2", NewRaw(Plus, [Two]));
  }

  lemma FromStrTest3()
    ensures FromStr("3") == Ok(NewRaw(Plus, [Three]))
  {
    ParsesTo("3", NewRaw(Plus, [Three]));
  }

  lemma FromStrTest4()
    ensures FromStr("4") == Ok(NewRaw(Plus, [Four]))
  {
    ParsesTo("4", NewRaw(Plus, [Four]));
  }

  lemma FromStrTest5()
    ensures FromStr("5") == Ok(NewRaw(Plus, [Five]))
  {
    ParsesTo("5", NewRaw(Plus, [Five]));
  }

  lemma FromStrTest6()
    ensures FromStr("6") == Ok(NewRaw(Plus, [Six]))
  {
    ParsesTo("6", NewRaw(Plus, [Six]));
  }

  lemma FromStrTest7()
    ensures FromStr("7") == Ok(NewRaw(Plus, [Seven]))
  {
    ParsesTo("7", NewRaw(Plus, [Seven]));
  }

  lemma FromStrTest8()
    ensures FromStr("8") == Ok(NewRaw(Plus, [Eight]))
  {
    ParsesTo("8", NewRaw(Plus, [Eight]));
  }

  lemma FromStrTest9()
    ensures FromStr("9") == Ok(NewRaw(Plus, [Nine]))
  {
    ParsesTo("9", NewRaw(Plus, [Nine]));
  }

  /** "10" keeps its digits in textual order, most significant first. */
  lemma FromStrTest10()
    ensures FromStr("10") == Ok(NewRaw(Plus, [One, Zero]))
  {
    assert Spell([One, Zero]) == [DigitChar(One)] + Spell([Zero]);
    ParsesTo("10", NewRaw(Plus, [One, Zero]));
  }

  /** The empty text is accepted, as the canonical zero. */
  lemma FromStrEmpty()
    ensures FromStr("") == Ok(NewRaw(NoSign, [Zero]))
  {
    ParseZeroText("");
  }

  /** A run of '0's parses to the canonical zero. */
  lemma FromStrZeros()
    ensures FromStr("000") == Ok(NewRaw(NoSign, [Zero]))
  {
    ParseSkipsLeadingZeros("000", 3);
    assert "000"[3..] == "";
    FromStrEmpty();
  }

  /** Leading '0's are dropped. */
  lemma FromStrLeadingZeros()
    ensures FromStr("007") == Ok(NewRaw(Plus, [Seven]))
  {
    ParseSkipsLeadingZeros("007", 2);
    assert "007"[2..] == "7";
    FromStrTest7();
  }

  /** Sign characters and other non-digits are rejected, wherever they stand. */
  lemma FromStrRejects()
    ensures FromStr("+1") == Err(EmptyString)
    ensures FromStr("-0") == Err(EmptyString)
    ensures FromStr("12a34") == Err(EmptyString)
    ensures FromStr("12-34") == Err(EmptyString)
  {
    assert !IsDigit("+1"[0]);
    assert !IsDigit("-0"[0]);
    assert !IsDigit("12a34"[2]);
    assert !IsDigit("12-34"[2]);
  }

  /** "007" and "7" give equal integers; "10" and "1" do not. */
  lemma FromStrEqualityExamples()
    ensures FromStr("007").Ok? && FromStr("7").Ok?
    ensures IntegerEq(FromStr("007").value, FromStr("7").value)
    ensures FromStr("10").Ok? && FromStr("1").Ok?
    ensures !IntegerEq(FromStr("10").value, FromStr("1").value)
  {
    FromStrLeadingZeros();
    FromStrTest7();
    FromStrTest10();
    FromStrTest1();
  }
}
