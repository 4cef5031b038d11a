/**
 * Go's 64-bit signed integers and `strconv.ParseInt(s, 0, 64)`, the parse the
 * enforcer applies to the organization field of the audience claim.
 *
 * Base 0 lets the string choose its base: an optional sign, then `0b`/`0B`
 * (binary), `0o`/`0O` (octal), `0x`/`0X` (hexadecimal), a bare leading `0`
 * (octal) or no prefix (decimal); underscores may separate digits. A syntax
 * error and a value outside the int64 range are both errors.
 */
module GoStrconv {
  import opened Wrappers

  const MinInt64: int := -0x8000_0000_0000_0000
  const MaxInt64: int := 0x7fff_ffff_ffff_ffff

  newtype int64 = x: int | -0x8000_0000_0000_0000 <= x <= 0x7fff_ffff_ffff_ffff

  /** Go's `lower`, as it is used on ASCII letters. */
  function Lower(c: char): char
  {
    if 'A' <= c <= 'Z' then (c as int + 32) as char else c
  }

  predicate IsDecimalDigit(c: char)
  {
    '0' <= c <= '9'
  }

  /** The value of a digit character in any base up to 36, letters in either case. */
  function DigitValue(c: char): (d: Option<nat>)
    ensures d.Some? ==> d.value < 36
    ensures IsDecimalDigit(c) <==> d.Some? && d.value < 10
  {
    if IsDecimalDigit(c) then Some(c as int - '0' as int)
    else if 'a' <= Lower(c) <= 'z' then Some(Lower(c) as int - 'a' as int + 10)
    else None
  }

  /**
   * The value of the digit string `ds` in `base`, most significant digit
   * first, skipping underscores; `None` when some character is not a digit
   * of that base.
   */
  function DigitsValue(ds: string, base: nat): Option<nat>
    decreases |ds|
  {
    if ds == [] then Some(0)
    else
      var c := ds[|ds| - 1];
      match DigitsValue(ds[..|ds| - 1], base)
      case None => None
      case Some(n) =>
        if c == '_' then Some(n)
        else if DigitValue(c).Some? && DigitValue(c).value < base then Some(Shift(n, base, DigitValue(c).value))
        else None
  }

  /** One step of positional notation: `n` followed by the digit `d` in `base`. */
  function Shift(n: nat, base: nat, d: nat): nat
  {
    n * base + d
  }

  /** What was last seen by Go's `underscoreOK` scan. */
  datatype Saw = Start | Digit | Underscore | Other

  /** The loop of `underscoreOK`: every underscore sits between two digits (a base prefix counts as a digit). */
  function UnderscoreScan(s: string, saw: Saw, hex: bool): bool
  {
    if s == [] then saw != Underscore
    else
      var c := s[0];
      if IsDecimalDigit(c) || (hex && 'a' <= Lower(c) <= 'f') then UnderscoreScan(s[1..], Digit, hex)
      else if c == '_' then saw == Digit && UnderscoreScan(s[1..], Underscore, hex)
      else if saw == Underscore then false
      else UnderscoreScan(s[1..], Other, hex)
  }

  /** Go's `underscoreOK`: the underscores of a base-0 literal are well placed. */
  predicate UnderscoreOK(s: string)
  {
    var t := if |s| >= 1 && (s[0] == '-' || s[0] == '+') then s[1..] else s;
    if |t| >= 2 && t[0] == '0' && Lower(t[1]) in {'b', 'o', 'x'} then
      UnderscoreScan(t[2..], Digit, Lower(t[1]) == 'x')
    else
      UnderscoreScan(t, Start, false)
  }

  /** A base chosen by a literal's prefix, and the digits that follow the prefix. */
  datatype Radix = Radix(base: nat, digits: string)

  /** The base-0 prefix rule of `strconv.ParseUint`, for a non-empty `s`. */
  function BaseOf(s: string): (r: Radix)
    requires s != []
    ensures r.base in {2, 8, 10, 16}
    ensures r.base == 10 <==> s[0] != '0'
  {
    if s[0] == '0' then
      if |s| >= 3 && Lower(s[1]) == 'b' then Radix(2, s[2..])
      else if |s| >= 3 && Lower(s[1]) == 'o' then Radix(8, s[2..])
      else if |s| >= 3 && Lower(s[1]) == 'x' then Radix(16, s[2..])
      else Radix(8, s[1..])
    else Radix(10, s)
  }

  /**
   * `strconv.ParseUint(s, 0, 64)` without its 64-bit bound: the unbounded
   * value of an unsigned base-0 literal, or `None` on a syntax error.
   */
  function ParseUnsigned(s: string): Option<nat>
  {
    if s == [] then None
    else
      var radix := BaseOf(s);
      match DigitsValue(radix.digits, radix.base)
      case None => None
      case Some(n) => if UnderscoreOK(s) then Some(n) else None
  }

  /**
   * `strconv.ParseInt(s, 0, 64)`, with every error (syntax or range) as `None`.
   * A value is returned only if it lies in the int64 range: up to 2^63 - 1
   * without a minus sign, down to -2^63 with one.
   */
  function ParseInt(s: string): (r: Option<int64>)
    ensures r.Some? ==> s != [] && ParseUnsigned(if s[0] == '-' || s[0] == '+' then s[1..] else s).Some?
  {
    if s == [] then None
    else
      var neg := s[0] == '-';
      var u := if s[0] == '+' || s[0] == '-' then s[1..] else s;
      match ParseUnsigned(u)
      case None => None
      case Some(n) =>
        if !neg && n <= MaxInt64 then Some(n as int64)
        else if neg && n <= -MinInt64 then Some((-(n as int)) as int64)
        else None
  }

  /** The decimal digits of `n`, without leading zeros: `strconv.FormatUint(n, 10)`. */
  function DecimalDigits(n: nat): (s: string)
    ensures |s| >= 1
    ensures forall i :: 0 <= i < |s| ==> IsDecimalDigit(s[i])
    ensures s[0] == '0' <==> n == 0
  {
    if n < 10 then [('0' as int + n) as char]
    else DecimalDigits(n / 10) + [('0' as int + n % 10) as char]
  }

  /** `strconv.FormatInt(n, 10)`: the decimal text of `n`, with a minus sign when negative. */
  function FormatInt(n: int64): string
  {
    if n < 0 then "-" + DecimalDigits(-(n as int)) else DecimalDigits(n as nat)
  }

  /** The decimal digits of `n` read in base 10 are worth `n`. */
  lemma {:induction false} DecimalDigitsValue(n: nat)
    ensures DigitsValue(DecimalDigits(n), 10) == Some(n)
  {
    var s := DecimalDigits(n);
    if n >= 10 {
      DecimalDigitsValue(n / 10);
      assert s[..|s| - 1] == DecimalDigits(n / 10);
    } else {
      assert s[..|s| - 1] == [];
    }
  }

  /** A scan over decimal digits only accepts, unless it is empty and began just after an underscore. */
  lemma {:induction false} UnderscoreScanDigits(s: string, saw: Saw, hex: bool)
    requires forall i :: 0 <= i < |s| ==> IsDecimalDigit(s[i])
    ensures UnderscoreScan(s, saw, hex) == (s != [] || saw != Underscore)
  {
    if s != [] {
      UnderscoreScanDigits(s[1..], Digit, hex);
    }
  }

  /** The unsigned parse of decimal digits without a leading zero gives back their value. */
  lemma ParseUnsignedDecimal(n: nat)
    ensures ParseUnsigned(DecimalDigits(n)) == Some(n)
  {
    var s := DecimalDigits(n);
    DecimalDigitsValue(n);
    UnderscoreScanDigits(s, Start, false);
    if n == 0 {
      assert s == "0";
      assert BaseOf(s) == Radix(8, []);
      UnderscoreScanDigits(s[1..], Digit, false);
    } else {
      assert BaseOf(s) == Radix(10, s);
    }
  }

  /** Unsigned decimal text parses to its value while that fits int64, and fails beyond 2^63 - 1. */
  lemma ParseIntDecimal(n: nat)
    ensures ParseInt(DecimalDigits(n)) == if n <= MaxInt64 then Some(n as int64) else None
  {
    var s := DecimalDigits(n);
    ParseUnsignedDecimal(n);
    assert IsDecimalDigit(s[0]);
  }

  /** Decimal text after a minus sign parses to its negation down to -2^63, and fails beyond. */
  lemma ParseIntNegativeDecimal(n: nat)
    ensures ParseInt("-" + DecimalDigits(n)) == if n <= -MinInt64 then Some((-(n as int)) as int64) else None
  {
    var s := DecimalDigits(n);
    ParseUnsignedDecimal(n);
    assert ("-" + s)[0] == '-' && ("-" + s)[1..] == s;
  }

  /** `ParseInt` inverts `FormatInt` on the whole int64 range. */
  lemma ParseIntFormatInt(n: int64)
    ensures ParseInt(FormatInt(n)) == Some(n)
  {
    if n < 0 {
      ParseIntNegativeDecimal(-(n as int));
    } else {
      ParseIntDecimal(n as nat);
    }
  }

  /** A hexadecimal literal: `0x2a` is 42. */
  lemma ParseIntHex()
    ensures ParseInt("0x2a") == Some(42)
  {
    assert BaseOf("0x2a") == Radix(16, "2a");
    assert "2a"[..1] == "2" && "2"[..0] == [];
    assert DigitsValue("2a", 16) == Some(42);
    assert "0x2a"[2..] == "2a" && "2a"[1..] == "a";
    assert UnderscoreOK("0x2a");
  }

  /** A bare leading zero selects octal: `010` is 8, not 10. */
  lemma ParseIntLeadingZeroOctal()
    ensures ParseInt("010") == Some(8)
  {
    assert BaseOf("010") == Radix(8, "10");
    assert "10"[..1] == "1" && "1"[..0] == [];
    assert DigitsValue("10", 8) == Some(8);
    assert "010"[1..] == "10" && "10"[1..] == "0";
    assert UnderscoreOK("010");
  }

  /** A binary literal with a sign: `-0b101` is -5. */
  lemma ParseIntSignedBinary()
    ensures ParseInt("-0b101") == Some(-5)
  {
    assert "-0b101"[1..] == "0b101";
    assert BaseOf("0b101") == Radix(2, "101");
    assert "101"[..2] == "10" && "10"[..1] == "1" && "1"[..0] == [];
    assert DigitsValue("101", 2) == Some(5);
    assert "0b101"[2..] == "101" && "101"[1..] == "01" && "01"[1..] == "1";
    assert UnderscoreOK("0b101");
  }

  /** Underscores between digits are skipped: `1_000` is 1000. */
  lemma ParseIntUnderscores()
    ensures ParseInt("1_000") == Some(1000)
  {
    assert BaseOf("1_000") == Radix(10, "1_000");
    assert "1_000"[..4] == "1_00" && "1_00"[..3] == "1_0" && "1_0"[..2] == "1_" && "1_"[..1] == "1" && "1"[..0] == [];
    assert DigitsValue("1_000", 10) == Some(1000);
    assert "1_000"[1..] == "_000" && "_000"[1..] == "000" && "000"[1..] == "00" && "00"[1..] == "0";
    assert UnderscoreOK("1_000");
  }

  /** Syntax errors: no digits, a bare prefix, misplaced underscores, a stray letter. */
  lemma ParseIntRejects()
    ensures ParseInt("") == None
    ensures ParseInt("-") == None
    ensures ParseInt("0x") == None
    ensures ParseInt("_7") == None
    ensures ParseInt("7_") == None
    ensures ParseInt("1__0") == None
    ensures ParseInt("7a") == None
  {
    assert "-"[1..] == [];
    assert BaseOf("0x") == Radix(8, "x");
    assert "x"[..0] == [];
    assert "_7"[1..] == "7";
    assert "7_"[1..] == "_";
    assert "1__0"[1..] == "__0" && "__0"[1..] == "_0";
    assert "7a"[..1] == "7" && "7"[..0] == [];
  }
}
