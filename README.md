# Decimal integers and their parser, in Dafny

This project models the decimal-integer core of the Rust crate `decimal`
(`src/decimal/mod.rs`). It covers these parts:

- `Symbol` is a closed enumeration of the ten decimal digits. It has hand-written
  variant equality, `clone`, and `from_char`.
- `Sign` is `Plus`, `Minus` or `NoSign`, with variant equality.
- `Integer` pairs a `Sign` with a `Vec<Symbol>`. It has the `new_raw`
  constructor and an equality that compares signs and then symbols pointwise.
- `ParseIntegerError` is the parse error. It has one variant, `EmptyString`.
- `Integer::from_str` is the parser. It maps each character to a digit,
  rejects the text if any character is not a digit, drops leading zeros, and
  builds either the canonical zero or a `Plus` integer.

The code is pure, so the model is pure too. Each Rust type is a `datatype`.
`Vec<Symbol>` is `seq<Symbol>` and `&str` is `string`. The Rust `Option` and
`Result` are the `Wrappers` datatypes. Each `impl` function is a Dafny
`function`, and each unit test is a lemma.

Files:

- `wrappers.dfy`: `Option` and `Result`.
- `decimal.dfy`: module `Decimal`. It holds the types, the operations, and the
  laws of the parser: what each text parses to, the round trip, and that
  leading zeros are ignored.
- `decimal_value.dfy`: module `DecimalValue`. It gives the number a digit
  sequence stands for. It proves that parsing keeps that number, and that
  equality of parsed integers is equality of numbers.
- `decimal_tests.dfy`: module `DecimalTests`. It holds the crate's unit tests
  and more edge cases, as lemmas.

How the parser treats its input:

- Digits are stored in textual order, most significant digit first. `"10"`
  gives `[One, Zero]`.
- The empty text is accepted and parses to the canonical zero.
- There is only one error value, `EmptyString`. The parser returns it for any
  character that is not a digit.
- No sign character is recognised. `'+'` and `'-'` are rejected like any other
  non-digit, so the parser never produces `Minus`.

## Model

| member | source | states |
|---|---|---|
| `Decimal.SymbolEq` | src/decimal/mod.rs:15-60 | true exactly when both symbols are the same variant (so it is reflexive and symmetric) |
| `Decimal.Clone` | src/decimal/mod.rs:62-77 | the copy equals the original, both structurally and under `SymbolEq` |
| `Decimal.FromChar` | src/decimal/mod.rs:80-94 | gives a symbol exactly for '0'..'9', and that symbol is the one the character names; `None` for every other character, '+' and '-' included |
| `Decimal.FromCharDigitChar` | src/decimal/mod.rs:80-94 | `from_char` reads back the character of every symbol, so it maps the ten digit characters onto the ten symbols |
| `Decimal.SignEq` | src/decimal/mod.rs:104-121 | true exactly when both signs are the same variant |
| `Decimal.NewRaw` | src/decimal/mod.rs:130-135 | the new integer has the given sign and an element-by-element copy of the given symbols |
| `Decimal.SymbolsEq` | src/decimal/mod.rs:140 | the iterator comparison holds exactly when the two sequences have equal length and are equal at every position |
| `Decimal.IntegerEq` | src/decimal/mod.rs:138-142 | holds exactly when the signs are equal and the symbol sequences are pointwise equal, which is exactly structural equality |
| `Decimal.ErrorEq` | src/decimal/mod.rs:151-159 | always true, and it coincides with structural equality, since the error type has one variant |
| `Decimal.CollectSymbols` | src/decimal/mod.rs:165-168 | the map-and-collect step succeeds exactly when every character is a decimal digit, and then the collected symbols spell the text in its own order |
| `Decimal.SkipLeadingZeros` | src/decimal/mod.rs:169-173 | the result is a suffix of the input, everything dropped is `Zero`, and the result does not start with `Zero` (the leading run removed is maximal) |
| `Decimal.FromStr` | src/decimal/mod.rs:161-182 | fails with `EmptyString` exactly when some character is not '0'..'9'; every success is canonical (non-empty; `NoSign` exactly for `[Zero]`; no other result starts with `Zero`) and is never `Minus` |
| `Decimal.ParseZeroText` | src/decimal/mod.rs:174-176 | the result is `NoSign`/`[Zero]` exactly when the text consists only of '0's, the empty text included |
| `Decimal.ParsePositiveText` | src/decimal/mod.rs:169-179 | for a digit text whose leading run of '0's has length k, shorter than the whole text, the result is `Plus`, and its symbols spell the text from position k on, most significant first |
| `Decimal.ParseSpelled` | src/decimal/mod.rs:164-180 | round trip: parsing the digits of any canonical, non-negative integer gives back that integer |
| `Decimal.ParseSkipsOneZero` | src/decimal/mod.rs:171 | a text that starts with '0' parses exactly like the rest of it, failure included |
| `Decimal.ParseSkipsLeadingZeros` | src/decimal/mod.rs:169-173 | removing any leading run of '0's does not change the parse result |
| `DecimalValue.ParseKeepsValue` | src/decimal/mod.rs:164-180 | a successful parse stands for the same number as its text, read as a decimal numeral |
| `DecimalValue.CanonicalUnique` | src/decimal/mod.rs:171-179 | two canonical, non-negative integers that stand for the same number are equal, so canonical form is unique |
| `DecimalValue.ParsedEqualIffSameNumber` | src/decimal/mod.rs:138-142 | two parse results compare equal under `eq` exactly when their texts denote the same number |
| `DecimalTests.FromStrTest0` | src/decimal/mod.rs:189-195 | `"0"` parses to `NoSign`/`[Zero]` |
| `DecimalTests.FromStrTest1` | src/decimal/mod.rs:196-202 | `"1"` parses to `Plus`/`[One]` |
| `DecimalTests.FromStrTest2` | src/decimal/mod.rs:203-209 | `"2"` parses to `Plus`/`[Two]` |
| `DecimalTests.FromStrTest3` | src/decimal/mod.rs:210-216 | `"3"` parses to `Plus`/`[Three]` |
| `DecimalTests.FromStrTest4` | src/decimal/mod.rs:217-223 | `"4"` parses to `Plus`/`[Four]` |
| `DecimalTests.FromStrTest5` | src/decimal/mod.rs:224-230 | `"5"` parses to `Plus`/`[Five]` |
| `DecimalTests.FromStrTest6` | src/decimal/mod.rs:231-237 | `"6"` parses to `Plus`/`[Six]` |
| `DecimalTests.FromStrTest7` | src/decimal/mod.rs:238-244 | `"7"` parses to `Plus`/`[Seven]` |
| `DecimalTests.FromStrTest8` | src/decimal/mod.rs:245-251 | `"8"` parses to `Plus`/`[Eight]` |
| `DecimalTests.FromStrTest9` | src/decimal/mod.rs:252-258 | `"9"` parses to `Plus`/`[Nine]` |
| `DecimalTests.FromStrTest10` | src/decimal/mod.rs:259-265 | `"10"` parses to `Plus`/`[One, Zero]`, with digits most significant first |
| `DecimalTests.FromStrEmpty` | src/decimal/mod.rs:165-176 | the empty text is accepted and parses to the canonical zero |
| `DecimalTests.FromStrZeros` | src/decimal/mod.rs:171-176 | `"000"` parses to the canonical zero |
| `DecimalTests.FromStrLeadingZeros` | src/decimal/mod.rs:171-173 | `"007"` parses to `Plus`/`[Seven]` |
| `DecimalTests.FromStrRejects` | src/decimal/mod.rs:166-168 | `"+1"`, `"-0"`, `"12a34"` and `"12-34"` all fail with `EmptyString` |
| `DecimalTests.FromStrEqualityExamples` | src/decimal/mod.rs:138-142 | `"007"` and `"7"` parse to equal integers; `"10"` and `"1"` do not |

## Left out

- `src/main.rs`, the demonstration program that parses two numbers, adds them and prints the sum. It uses `decimal::UnsignedInteger`, its `Display` rendering and its `+` operator. None of these are defined in `src/decimal/mod.rs`, so that type is not part of this model. Addition with carries and rendering to text are not modelled.
- The `#[derive(Debug)]` formatting of each type, because it only produces diagnostic text.
- The details of Rust iterators and allocation. `chars`, `map`, `collect`, `skip_while` and `to_vec` are modelled by their results on sequences, and the recursion in `CollectSymbols` follows the same left-to-right order.
- The unit tests are not modelled as code that runs. Each test is a lemma in `DecimalTests` instead.
