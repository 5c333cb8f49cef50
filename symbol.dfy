/**
 * The symbol handed out by an interner: a thin wrapper around a raw,
 * non-negative identifier (`GenericSymbol<RawValue>`). The raw value is an
 * unsigned fixed-width integer in the source; here it is a `nat`, and the
 * interner bounds it by the width's maximum.
 */
module Symbols {

  /** A symbol has exactly one stored field, its raw value. */
  datatype Symbol = Symbol(rawValue: nat)

  /** `GenericSymbol.unchecked(rawValue:)`: builds a symbol from a raw value. */
  function Unchecked(rawValue: nat): (s: Symbol)
    ensures s.rawValue == rawValue
  {
    Symbol(rawValue)
  }

  /** Construction round-trips the raw value, and reading the raw value back round-trips the symbol. */
  lemma UncheckedRoundTrip(s: Symbol, r: nat)
    ensures Unchecked(r).rawValue == r
    ensures Unchecked(s.rawValue) == s
  {
  }

  /** The synthesized `Equatable` conformance compares the single stored field. */
  lemma EqualityIsRawEquality(a: Symbol, b: Symbol)
    ensures a == b <==> a.rawValue == b.rawValue
  {
  }

  /**
   * The synthesized `Hashable` conformance feeds the single stored field to
   * the hasher; the hasher itself is not modelled, only what it is fed.
   */
  function HashInput(s: Symbol): seq<nat>
  {
    [s.rawValue]
  }

  /** Hashing agrees with equality: the hash input is determined by the raw value alone. */
  lemma HashDeterminedByRawValue(a: Symbol, b: Symbol)
    ensures HashInput(a) == HashInput(b) <==> a.rawValue == b.rawValue
    ensures a == b ==> HashInput(a) == HashInput(b)
  {
  }

  // ---------------------------------------------------------------------
  // `description`: the raw value's own description, i.e. its decimal digits.

  predicate IsDigit(c: char) {
    '0' <= c <= '9'
  }

  predicate IsDigits(s: string) {
    forall i :: 0 <= i < |s| ==> IsDigit(s[i])
  }

  /** A canonical decimal numeral: non-empty, digits only, no leading zero except "0" itself. */
  predicate IsCanonicalDecimal(s: string) {
    |s| >= 1 && IsDigits(s) && (s[0] == '0' ==> s == "0")
  }

  function DigitChar(d: nat): (c: char)
    requires d < 10
    ensures IsDigit(c) && c as int - '0' as int == d
  {
    ('0' as int + d) as char
  }

  function DigitValue(c: char): nat
    requires IsDigit(c)
  {
    c as int - '0' as int
  }

  /** The number a string of decimal digits denotes (most significant digit first). */
  function DecimalValue(s: string): nat
    requires IsDigits(s)
  {
    if s == [] then 0 else DecimalValue(s[..|s| - 1]) * 10 + DigitValue(s[|s| - 1])
  }

  /** The decimal description of an unsigned integer. */
  function Decimal(n: nat): (r: string)
    ensures IsCanonicalDecimal(r)
    ensures DecimalValue(r) == n
  {
    if n < 10 then
      [DigitChar(n)]
    else
      var prefix := Decimal(n / 10);
      var r := prefix + [DigitChar(n % 10)];
      assert r[..|r| - 1] == prefix;
      r
  }

  /** `description`: exactly the raw value's description. */
  function Description(s: Symbol): (d: string)
    ensures IsCanonicalDecimal(d)
    ensures DecimalValue(d) == s.rawValue
  {
    Decimal(s.rawValue)
  }

  /** Distinct symbols have distinct descriptions. */
  lemma DescriptionInjective(a: Symbol, b: Symbol)
    ensures Description(a) == Description(b) <==> a == b
  {
  }
}
