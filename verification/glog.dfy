/**
 * pkg/glog: the verbosity level flag (`Level`, a Go `int32`) with its
 * `flag.Value` methods `Set` and `String`, and the `V` guard.
 */
module Glog {
  import opened Wrappers

  const Int32Min: int := -0x8000_0000
  const Int32Max: int := 0x7FFF_FFFF
  const Int64Min: int := -0x8000_0000_0000_0000
  const Int64Max: int := 0x7FFF_FFFF_FFFF_FFFF

  /** Go's `int32`. */
  newtype Level = x: int | -0x8000_0000 <= x < 0x8000_0000

  predicate IsDigit(c: char) {
    '0' <= c <= '9'
  }

  predicate AllDigits(s: string) {
    forall i :: 0 <= i < |s| ==> IsDigit(s[i])
  }

  function DigitChar(d: nat): (c: char)
    requires d < 10
    ensures IsDigit(c) && (c as int) - ('0' as int) == d
  {
    (('0' as int) + d) as char
  }

  /** The value of a string of decimal digits, read most significant digit first. */
  function DigitsValue(s: string): nat
    requires AllDigits(s)
  {
    if s == [] then 0 else DigitsValue(s[..|s| - 1]) * 10 + ((s[|s| - 1] as int) - ('0' as int))
  }

  /** The decimal digits of `n`, without leading zeros. */
  function Decimal(n: nat): (r: string)
    ensures r != [] && AllDigits(r)
    ensures |r| > 1 ==> r[0] != '0'
  {
    if n < 10 then [DigitChar(n)] else Decimal(n / 10) + [DigitChar(n % 10)]
  }

  lemma {:induction false} DecimalValue(n: nat)
    ensures DigitsValue(Decimal(n)) == n
  {
    if n >= 10 {
      DecimalValue(n / 10);
      var r := Decimal(n);
      assert r[..|r| - 1] == Decimal(n / 10);
    }
  }

  /**
   * `strconv.Atoi` on a 64-bit platform: an optional sign followed by at
   * least one decimal digit, whose value fits in 64 bits. Anything else
   * (empty, stray characters, underscores, out of range) is an error.
   */
  function Atoi(s: string): (r: Option<int>)
    ensures r.Some? ==> Int64Min <= r.value <= Int64Max
    ensures r.Some? ==> s != [] && (s[0] == '-' || s[0] == '+' || IsDigit(s[0])) && AllDigits(s[1..])
    ensures r.Some? && r.value < 0 ==> s[0] == '-'
  {
    if s == [] then None
    else
      var digits := if s[0] == '-' || s[0] == '+' then s[1..] else s;
      if digits == [] || !AllDigits(digits) then None
      else
        var v: int := if s[0] == '-' then -(DigitsValue(digits) as int) else DigitsValue(digits);
        if Int64Min <= v <= Int64Max then Some(v) else None
  }

  /** The form `strconv.FormatInt(v, 10)` writes: an optional '-', then digits without leading zeros. */
  predicate CanonicalDecimal(s: string) {
    var d := if s != [] && s[0] == '-' then s[1..] else s;
    d != [] && AllDigits(d) && (|d| > 1 ==> d[0] != '0')
  }

  /** `strconv.FormatInt(v, 10)`: a leading '-' for negatives, then the digits, no '+' and no leading zeros. */
  function FormatInt(v: int): (r: string)
    ensures r != [] && (r[0] == '-' <==> v < 0)
    ensures CanonicalDecimal(r)
  {
    if v < 0 then
      var r := "-" + Decimal(-v);
      assert r[1..] == Decimal(-v);
      r
    else Decimal(v)
  }

  /** Digits without a leading zero have a positive value. */
  lemma {:induction false} DigitsValuePositive(d: string)
    requires d != [] && AllDigits(d) && d[0] != '0'
    ensures DigitsValue(d) >= 1
  {
    if |d| > 1 {
      var init := d[..|d| - 1];
      assert init[0] == d[0];
      DigitsValuePositive(init);
    }
  }

  /** Digits without leading zeros are exactly the decimal form of their value. */
  lemma {:induction false} DecimalOfDigits(d: string)
    requires d != [] && AllDigits(d) && (|d| > 1 ==> d[0] != '0')
    ensures Decimal(DigitsValue(d)) == d
  {
    var last := d[|d| - 1];
    var n := DigitsValue(d);
    assert IsDigit(last);
    if |d| == 1 {
      assert d[..0] == [];
      assert DigitChar(n) as int == last as int;
    } else {
      var init := d[..|d| - 1];
      assert init[0] == d[0];
      DigitsValuePositive(init);
      DecimalOfDigits(init);
      assert n / 10 == DigitsValue(init);
      assert DigitChar(n % 10) as int == last as int;
      assert d == init + [last];
    }
  }

  /**
   * The canonical decimal form is unique: a canonical string that `Atoi`
   * reads as `v`, and that has a '-' exactly when `v` is negative, is
   * `FormatInt(v)`.
   */
  lemma FormatIntUnique(s: string, v: int)
    requires CanonicalDecimal(s) && Atoi(s) == Some(v) && (s[0] == '-' <==> v < 0)
    ensures s == FormatInt(v)
  {
    if s[0] == '-' {
      DecimalOfDigits(s[1..]);
      assert s == "-" + s[1..];
    } else {
      DecimalOfDigits(s);
    }
  }

  /** Unsigned digits in range read back as their value. */
  lemma AtoiDigits(d: string)
    requires d != [] && AllDigits(d) && DigitsValue(d) <= Int64Max
    ensures Atoi(d) == Some(DigitsValue(d) as int)
  {
    assert IsDigit(d[0]);
  }

  /** A minus sign and digits in range read back as the negated value. */
  lemma AtoiNegative(d: string)
    requires d != [] && AllDigits(d) && DigitsValue(d) <= -Int64Min
    ensures Atoi("-" + d) == Some(-(DigitsValue(d) as int))
  {
    assert ("-" + d)[1..] == d;
  }

  /** Formatting and then parsing any 64-bit integer gives it back. */
  lemma FormatIntRoundTrip(v: int)
    requires Int64Min <= v <= Int64Max
    ensures Atoi(FormatInt(v)) == Some(v)
  {
    if v < 0 {
      DecimalValue(-v);
      AtoiNegative(Decimal(-v));
    } else {
      DecimalValue(v);
      AtoiDigits(Decimal(v));
    }
  }

  /**
   * The conversion `Level(v)` of a Go `int` to `int32`: the low 32 bits,
   * read as two's complement.
   */
  function ToInt32(v: int): (l: Level)
    ensures (l as int - v) % 0x1_0000_0000 == 0
    ensures Int32Min <= v <= Int32Max ==> l as int == v
  {
    ((v + 0x8000_0000) % 0x1_0000_0000 - 0x8000_0000) as Level
  }

  /** The flag behind `-v`; `Level` is updated in place through its pointer receiver. */
  class LevelFlag {
    var level: Level

    constructor ()
      ensures level == 0
    {
      level := 0;
    }

    /**
     * `Set`: an unparsable string leaves the level as it was and reports
     * the `strconv.Atoi` error; otherwise the parsed value, truncated to
     * 32 bits, becomes the level.
     */
    method Set(value: string) returns (err: Option<string>)
      modifies this
      ensures Atoi(value).None? ==> err == Some(value) && level == old(level)
      ensures Atoi(value).Some? ==> err == None && level == ToInt32(Atoi(value).value)
    {
      var v := Atoi(value);
      if v.None? {
        return Some(value);
      }
      level := ToInt32(v.value);
      return None;
    }

    /**
     * `String`: the canonical decimal form of the level, which `Atoi` reads
     * back exactly; by `FormatIntUnique` no other string meets this contract.
     */
    function String(): (s: string)
      reads this
      ensures Atoi(s) == Some(level as int)
      ensures s[0] == '-' <==> level < 0
      ensures CanonicalDecimal(s)
    {
      FormatIntRoundTrip(level as int);
      FormatInt(level as int)
    }
  }

  /** `Set(String())` stores back exactly the level that was formatted. */
  lemma SetOfStringRestores(l: Level)
    ensures Atoi(FormatInt(l as int)).Some?
    ensures ToInt32(Atoi(FormatInt(l as int)).value) == l
  {
    FormatIntRoundTrip(l as int);
  }

  /** The same round trip on a flag object: `Set(String())` changes nothing. */
  method SetStringRestores(f: LevelFlag) returns (err: Option<string>)
    modifies f
    ensures err == None && f.level == old(f.level)
  {
    var s := f.String();
    err := f.Set(s);
  }

  /** `V(level)`: messages at `level` are shown when the verbosity is at least `level`. */
  function V(verbosity: LevelFlag, level: Level): (shown: bool)
    reads verbosity
    ensures shown <==> level <= verbosity.level
  {
    verbosity.level >= level
  }

  /** Enabling a level enables every lower level, and the current verbosity is always enabled. */
  lemma VMonotone(verbosity: LevelFlag, low: Level, high: Level)
    requires low <= high
    ensures V(verbosity, high) ==> V(verbosity, low)
    ensures V(verbosity, verbosity.level)
  {
  }
}
