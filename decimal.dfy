/**
 * Decimal text of a C `long`: the "%ld" conversion used by j_seq_show and
 * the base-10 parse (strict_strtol, after strstrip) used by both write
 * handlers. The parse follows the forms the kernel's kstrtol accepts for
 * base 10 on a 64-bit long; it is a model of that routine, not a copy.
 */
module Decimal {
  import opened Errno

  const LONG_MAX: int := 0x7fff_ffff_ffff_ffff
  const LONG_MIN: int := -0x8000_0000_0000_0000
  const ULLONG_MAX: int := 0xffff_ffff_ffff_ffff

  predicate IsDigit(c: char) { '0' <= c <= '9' }

  predicate AllDigits(s: string) { forall i :: 0 <= i < |s| ==> IsDigit(s[i]) }

  /** isspace in the kernel's ctype table: HT, LF, VT, FF, CR, space and Latin-1 no-break space. */
  predicate IsSpace(c: char) {
    var k := c as int;
    (9 <= k <= 13) || k == 32 || k == 160
  }

  function DigitValue(c: char): (d: nat)
    requires IsDigit(c)
    ensures d < 10
  {
    c as int - '0' as int
  }

  function DigitChar(d: nat): (c: char)
    requires d < 10
    ensures IsDigit(c) && DigitValue(c) == d
  {
    ('0' as int + d) as char
  }

  function Pow10(k: nat): (p: nat)
    ensures p >= 1
  {
    if k == 0 then 1 else 10 * Pow10(k - 1)
  }

  lemma Pow10Monotone(j: nat, k: nat)
    requires j <= k
    ensures Pow10(j) <= Pow10(k)
  {
    if j < k { Pow10Monotone(j, k - 1); }
  }

  lemma Pow10Eleven()
    ensures Pow10(11) == 100_000_000_000
  {
    assert Pow10(1) == 10;
    assert Pow10(2) == 100;
    assert Pow10(3) == 1_000;
    assert Pow10(4) == 10_000;
    assert Pow10(5) == 100_000;
    assert Pow10(6) == 1_000_000;
    assert Pow10(7) == 10_000_000;
    assert Pow10(8) == 100_000_000;
    assert Pow10(9) == 1_000_000_000;
    assert Pow10(10) == 10_000_000_000;
  }

  /** The value of a string of decimal digits; k digits stay below 10^k. */
  function DigitsValue(s: string): (n: nat)
    requires AllDigits(s)
    ensures n < Pow10(|s|)
  {
    if s == [] then 0
    else
      var m := DigitsValue(s[..|s| - 1]);
      assert m + 1 <= Pow10(|s| - 1);
      assert m * 10 + 10 <= Pow10(|s| - 1) * 10;
      m * 10 + DigitValue(s[|s| - 1])
  }

  /** The length of the longest run of digits at the front of s. */
  function DigitPrefixLength(s: string): (n: nat)
    ensures n <= |s|
    ensures AllDigits(s[..n])
    ensures n < |s| ==> !IsDigit(s[n])
  {
    if s == [] || !IsDigit(s[0]) then 0
    else 1 + DigitPrefixLength(s[1..])
  }

  /** The digits of n, most significant first, without leading zeros. */
  function NatDigits(n: nat): (s: string)
    ensures |s| > 0 && AllDigits(s)
    ensures DigitsValue(s) == n
    ensures |s| == 1 || s[0] != '0'
  {
    if n < 10 then [DigitChar(n)]
    else
      var s := NatDigits(n / 10) + [DigitChar(n % 10)];
      assert s[..|s| - 1] == NatDigits(n / 10);
      s
  }

  /** "%ld": an optional minus sign, then the digits of the magnitude. */
  function Format(v: int): (s: string)
    ensures |s| > 0 && !IsSpace(s[0]) && IsDigit(s[|s| - 1])
    ensures v >= 0 <==> s[0] != '-'
  {
    if v < 0 then "-" + NatDigits(-v) else NatDigits(v)
  }

  /**
   * The digit parse underneath kstrtoull and kstrtoll (_kstrtoull): at least
   * one digit, then at most a single '\n'. A value above ULLONG_MAX is
   * -ERANGE, which the kernel reports before looking at what follows the
   * digits. A sign is not accepted here.
   */
  function ParseDigits(s: string): (r: Result<nat>)
    ensures r.Ok? ==> r.value <= ULLONG_MAX
    ensures r.Err? ==> r.code == -EINVAL || r.code == -ERANGE
    ensures |s| > 0 && !IsDigit(s[0]) ==> r == Err(-EINVAL)
  {
    var n := DigitPrefixLength(s);
    if n == 0 then Err(-EINVAL)
    else if DigitsValue(s[..n]) > ULLONG_MAX then Err(-ERANGE)
    else if n == |s| || (n + 1 == |s| && s[n] == '\n') then Ok(DigitsValue(s[..n]))
    else Err(-EINVAL)
  }

  /** Base-10 unsigned parse (kstrtoull): an optional '+', then the digit parse. */
  function ParseULong(s: string): (r: Result<nat>)
    ensures r.Ok? ==> r.value <= ULLONG_MAX
    ensures r.Err? ==> r.code == -EINVAL || r.code == -ERANGE
  {
    if |s| > 0 && s[0] == '+' then ParseDigits(s[1..]) else ParseDigits(s)
  }

  /**
   * Base-10 signed parse (kstrtol on a 64-bit long): a leading '-' negates
   * the digit parse of the rest (no '+' may follow it); otherwise the
   * unsigned parse. The result must lie in [LONG_MIN, LONG_MAX] or the
   * parse is -ERANGE.
   */
  function ParseLong(s: string): (r: Result<int>)
    ensures r.Ok? ==> LONG_MIN <= r.value <= LONG_MAX
    ensures r.Err? ==> r.code == -EINVAL || r.code == -ERANGE
  {
    if |s| > 0 && s[0] == '-' then
      match ParseDigits(s[1..])
      case Err(e) => Err(e)
      case Ok(m) => if m > -LONG_MIN then Err(-ERANGE) else Ok(0 - m)
    else
      match ParseULong(s)
      case Err(e) => Err(e)
      case Ok(m) => if m > LONG_MAX then Err(-ERANGE) else Ok(m)
  }

  /** A minus sign followed by a plus sign is refused, as kstrtoll refuses it. */
  lemma MinusPlusRefused(t: string)
    ensures ParseLong("-+" + t) == Err(-EINVAL)
  {
    var s := "-+" + t;
    assert s[0] == '-' && s[1..][0] == '+';
  }

  /**
   * On the 64-bit long modelled here, text of at most eleven characters
   * never overflows. (kbuf is sized for a 32-bit long, where eleven
   * characters could.)
   */
  lemma ShortTextInRange(s: string)
    requires |s| <= 11
    ensures ParseLong(s) != Err(-ERANGE)
  {
    var u := if |s| > 0 && s[0] == '-' then s[1..] else s;
    var t := if |s| > 0 && s[0] != '-' && s[0] == '+' then s[1..] else u;
    var n := DigitPrefixLength(t);
    if n > 0 {
      Pow10Monotone(n, 11);
      Pow10Eleven();
      assert DigitsValue(t[..n]) < 100_000_000_000;
    }
  }

  lemma AllDigitsPrefixLength(s: string)
    requires AllDigits(s)
    ensures DigitPrefixLength(s) == |s|
  {
  }

  /** A run of digits parses to its value. */
  lemma ParseDigitsRun(d: string)
    requires |d| > 0 && AllDigits(d) && DigitsValue(d) <= ULLONG_MAX
    ensures ParseDigits(d) == Ok(DigitsValue(d))
  {
    AllDigitsPrefixLength(d);
    assert d[..|d|] == d;
  }

  /** A run of digits followed by one newline parses to the value of the digits. */
  lemma ParseDigitsRunNewline(d: string)
    requires |d| > 0 && AllDigits(d) && DigitsValue(d) <= ULLONG_MAX
    ensures ParseDigits(d + "\n") == Ok(DigitsValue(d))
  {
    var dn := d + "\n";
    assert dn[..|d|] == d;
    assert DigitPrefixLength(dn) == |d| by {
      assert !IsDigit(dn[|d|]);
      assert forall k :: 0 <= k < |d| ==> dn[k] == d[k];
    }
  }

  /** The same through the unsigned parse: text starting with a digit has no '+' to skip. */
  lemma ParseULongRun(d: string)
    requires |d| > 0 && AllDigits(d) && DigitsValue(d) <= ULLONG_MAX
    ensures ParseULong(d) == Ok(DigitsValue(d))
    ensures ParseULong(d + "\n") == Ok(DigitsValue(d))
  {
    ParseDigitsRun(d);
    ParseDigitsRunNewline(d);
    assert IsDigit(d[0]) && (d + "\n")[0] == d[0];
  }

  /** Parsing the "%ld" text of any long, with or without a newline after it, gives the long back. */
  lemma ParseFormat(v: int)
    requires LONG_MIN <= v <= LONG_MAX
    ensures ParseLong(Format(v)) == Ok(v)
    ensures ParseLong(Format(v) + "\n") == Ok(v)
  {
    var s := Format(v);
    var sn := s + "\n";
    if v < 0 {
      var d := NatDigits(-v);
      ParseDigitsRun(d);
      ParseDigitsRunNewline(d);
      assert s[1..] == d && ParseDigits(s[1..]) == Ok(-v);
      assert sn[0] == '-' && sn[1..] == d + "\n";
      assert ParseDigits(sn[1..]) == Ok(-v);
    } else {
      ParseULongRun(s);
      assert sn[0] != '-';
    }
  }

  /** A "%ld" text of at most eleven characters is the text of a long. */
  lemma ShortFormatInRange(v: int)
    requires |Format(v)| <= 11
    ensures LONG_MIN <= v <= LONG_MAX
  {
    var d := if v < 0 then NatDigits(-v) else NatDigits(v);
    assert |d| <= 11;
    Pow10Monotone(|d|, 11);
    Pow10Eleven();
  }

  /** strstrip, trailing half: the longest prefix not ending in a space. */
  function StripTrailing(s: string): (r: string)
    ensures |r| <= |s| && r == s[..|r|]
    ensures r == [] || !IsSpace(r[|r| - 1])
    ensures forall i :: |r| <= i < |s| ==> IsSpace(s[i])
  {
    if s == [] || !IsSpace(s[|s| - 1]) then s
    else StripTrailing(s[..|s| - 1])
  }

  /** strstrip, leading half (skip_spaces): the longest suffix not starting with a space. */
  function StripLeading(s: string): (r: string)
    ensures |r| <= |s| && r == s[|s| - |r|..]
    ensures r == [] || !IsSpace(r[0])
    ensures forall i :: 0 <= i < |s| - |r| ==> IsSpace(s[i])
  {
    if s == [] || !IsSpace(s[0]) then s
    else StripLeading(s[1..])
  }

  /** strstrip: drop the trailing, then the leading whitespace. */
  function Strip(s: string): (r: string)
    ensures |r| <= |s|
    ensures r == [] || (!IsSpace(r[0]) && !IsSpace(r[|r| - 1]))
  {
    StripLeading(StripTrailing(s))
  }

  /** Text that neither starts nor ends with whitespace is left alone by strstrip. */
  lemma StripTrimmed(s: string)
    requires |s| > 0 && !IsSpace(s[0]) && !IsSpace(s[|s| - 1])
    ensures Strip(s) == s
  {
    assert !IsSpace(s[|s| - 1]);
    assert StripTrailing(s) == s;
  }

  /** Whitespace after the text is removed by strstrip. */
  lemma StripTrailingSpace(s: string, c: char)
    requires |s| > 0 && !IsSpace(s[0]) && !IsSpace(s[|s| - 1]) && IsSpace(c)
    ensures Strip(s + [c]) == s
  {
    var w := s + [c];
    var r := StripTrailing(w);
    assert !IsSpace(w[|s| - 1]);
    assert r == s;
    StripTrimmed(s);
  }
}
