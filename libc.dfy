/** The C library functions the firmware gate relies on, as the ISO C standard
    (section 7.22.1.4 for strtoul, 7.24.5.7 for strstr) describes them.
    Strings are the characters of a C string; the end of the sequence plays the
    part of the terminating NUL, and a NUL inside the sequence ends the string
    as well. */
module LibC {
  import opened Wrappers

  /** `unsigned long` (and `unsigned`, `uint32_t`) are 32 bits wide on the ARM flight controller. */
  const ULONG_MAX: nat := 0xFFFF_FFFF

  type U32 = x: nat | x <= ULONG_MAX

  /** isspace in the "C" locale. */
  predicate IsSpace(c: char) {
    c == ' ' || c == '\t' || c == '\n' || c == '\r' || c == '\U{B}' || c == '\U{C}'
  }

  predicate IsHexDigit(c: char) {
    ('0' <= c <= '9') || ('a' <= c <= 'f') || ('A' <= c <= 'F')
  }

  predicate IsDecimalDigit(c: char) {
    '0' <= c <= '9'
  }

  function DigitValue(c: char): (d: nat)
    requires IsHexDigit(c)
    ensures d < 16
    ensures IsDecimalDigit(c) <==> d < 10
  {
    if '0' <= c <= '9' then c as int - '0' as int
    else if 'a' <= c <= 'f' then c as int - 'a' as int + 10
    else c as int - 'A' as int + 10
  }

  /** `c` is a digit of numerals written in `base`. */
  predicate IsDigitIn(c: char, base: nat) {
    IsHexDigit(c) && DigitValue(c) < base
  }

  /** The first position at or after `i` that is not white space. */
  function SkipSpaces(s: seq<char>, i: nat): (j: nat)
    requires i <= |s|
    ensures i <= j <= |s|
    ensures forall k :: i <= k < j ==> IsSpace(s[k])
    ensures j < |s| ==> !IsSpace(s[j])
    decreases |s| - i
  {
    if i < |s| && IsSpace(s[i]) then SkipSpaces(s, i + 1) else i
  }

  /** The end of the run of `base` digits that starts at `i`. */
  function DigitRunEnd(s: seq<char>, i: nat, base: nat): (j: nat)
    requires i <= |s|
    ensures i <= j <= |s|
    ensures forall k :: i <= k < j ==> IsDigitIn(s[k], base)
    ensures j < |s| ==> !IsDigitIn(s[j], base)
    decreases |s| - i
  {
    if i < |s| && IsDigitIn(s[i], base) then DigitRunEnd(s, i + 1, base) else i
  }

  /** The product of two naturals, as a natural. */
  function MulNat(x: nat, y: nat): (p: nat)
    ensures p == x * y
  {
    x * y
  }

  /** The number a string of `base` digits denotes, most significant digit first. */
  function DigitsValue(ds: seq<char>, base: nat): nat
    requires forall k :: 0 <= k < |ds| ==> IsDigitIn(ds[k], base)
  {
    if ds == [] then 0
    else
      var init := ds[..|ds| - 1];
      assert forall k :: 0 <= k < |init| ==> init[k] == ds[k];
      assert IsDigitIn(ds[|ds| - 1], base);
      var high: nat := DigitsValue(init, base);
      var shifted: nat := MulNat(high, base);
      shifted + DigitValue(ds[|ds| - 1])
  }

  /** What strtoul produces: the value, and how many characters it consumed
      (`end == 0` is `*endptr == nptr`, "no conversion"). */
  datatype Conversion = Conversion(value: U32, end: nat)

  /** The value of the digit run starting at `from`, saturated at ULONG_MAX when
      out of range and negated in the unsigned type after a minus sign. */
  function Convert(s: seq<char>, from: nat, base: nat, negative: bool): (r: Conversion)
    requires from < |s| && IsDigitIn(s[from], base)
    ensures from < r.end <= |s|
    ensures IsHexDigit(s[r.end - 1])
  {
    var e := DigitRunEnd(s, from, base);
    var m := DigitsValue(s[from..e], base);
    var value := if m > ULONG_MAX then ULONG_MAX
                 else if negative && m > 0 then ULONG_MAX + 1 - m
                 else m;
    Conversion(value, e)
  }

  /** strtoul(s, &end, 0): leading white space, an optional sign, then the longest
      decimal, octal ("0" then octal digits) or hexadecimal ("0x" then hex digits)
      constant. Without such a constant nothing is converted. */
  function Strtoul(s: seq<char>): (r: Conversion)
    ensures r.end <= |s|
    ensures r.end == 0 ==> r.value == 0
    ensures r.end > 0 ==> IsHexDigit(s[r.end - 1])
  {
    var i := SkipSpaces(s, 0);
    var negative := i < |s| && s[i] == '-';
    var j := if i < |s| && (s[i] == '+' || s[i] == '-') then i + 1 else i;
    if j < |s| && s[j] == '0' then
      if j + 2 < |s| && (s[j + 1] == 'x' || s[j + 1] == 'X') && IsDigitIn(s[j + 2], 16) then
        Convert(s, j + 2, 16, negative)
      else
        Convert(s, j, 8, negative)
    else if j < |s| && IsDigitIn(s[j], 10) then
      Convert(s, j, 10, negative)
    else
      Conversion(0, 0)
  }

  function DigitChar(d: nat): (c: char)
    requires d < 10
    ensures IsDigitIn(c, 10) && DigitValue(c) == d
  {
    ('0' as int + d) as char
  }

  /** The decimal numeral of `n`, without leading zeros. */
  function DecimalString(n: nat): (d: seq<char>)
    ensures d != []
    ensures forall k :: 0 <= k < |d| ==> IsDigitIn(d[k], 10)
    ensures n == 0 <==> d == "0"
    ensures n > 0 ==> d[0] != '0'
  {
    if n < 10 then [DigitChar(n)] else DecimalString(n / 10) + [DigitChar(n % 10)]
  }

  lemma {:induction false} DecimalStringValue(n: nat)
    ensures DigitsValue(DecimalString(n), 10) == n
  {
    var d := DecimalString(n);
    if n >= 10 {
      DecimalStringValue(n / 10);
      assert d[..|d| - 1] == DecimalString(n / 10);
    }
  }

  /** A run of base digits ends exactly where a string of such digits is followed by a non-digit. */
  lemma {:induction false} DigitRunEndOfNumeral(d: seq<char>, rest: seq<char>, base: nat, i: nat)
    requires i <= |d|
    requires forall k :: 0 <= k < |d| ==> IsDigitIn(d[k], base)
    requires rest == [] || !IsDigitIn(rest[0], base)
    ensures DigitRunEnd(d + rest, i, base) == |d|
    decreases |d| - i
  {
    var s := d + rest;
    if i < |d| {
      assert s[i] == d[i];
      DigitRunEndOfNumeral(d, rest, base, i + 1);
    } else if rest != [] {
      assert s[i] == rest[0];
    }
  }

  /** strtoul reads back the decimal numeral of any value up to ULONG_MAX, and stops
      at the first character that cannot continue it. */
  lemma StrtoulDecimal(n: nat, rest: seq<char>)
    requires n <= ULONG_MAX
    requires rest == [] || (!IsDecimalDigit(rest[0]) && rest[0] != 'x' && rest[0] != 'X')
    ensures Strtoul(DecimalString(n) + rest) == Conversion(n, |DecimalString(n)|)
  {
    var d := DecimalString(n);
    var s := d + rest;
    assert s[0] == d[0];
    assert SkipSpaces(s, 0) == 0;
    if n == 0 {
      assert d == "0";
      assert rest != [] ==> !IsDigitIn(rest[0], 8);
      DigitRunEndOfNumeral(d, rest, 8, 0);
      assert s[0..1] == d;
      assert DigitsValue(d, 8) == 0 by {
        assert d[..0] == [];
      }
    } else {
      assert rest != [] ==> !IsDigitIn(rest[0], 10);
      DigitRunEndOfNumeral(d, rest, 10, 0);
      assert s[0..|d|] == d;
      DecimalStringValue(n);
    }
  }

  /** Base 0 reads a leading zero as the octal prefix: "088" converts only its "0",
      and "010" is eight. */
  lemma StrtoulLeadingZeroIsOctal()
    ensures Strtoul("088") == Conversion(0, 1)
    ensures Strtoul("010") == Conversion(8, 3)
  {
    var s := "088";
    assert SkipSpaces(s, 0) == 0;
    assert !IsDigitIn(s[1], 8);
    assert DigitRunEnd(s, 0, 8) == 1;
    assert s[0..1] == "0" && "0"[..0] == [];
    var t := "010";
    assert SkipSpaces(t, 0) == 0;
    assert DigitRunEnd(t, 3, 8) == 3;
    assert t[0..3] == "010";
    assert t[0..3][..2] == "01" && "01"[..1] == "0";
  }

  /** A minus sign negates in the unsigned type: "-1" converts to ULONG_MAX. */
  lemma StrtoulNegativeWraps()
    ensures Strtoul("-1") == Conversion(ULONG_MAX, 2)
  {
    var s := "-1";
    assert SkipSpaces(s, 0) == 0;
    assert DigitRunEnd(s, 2, 10) == 2;
    assert s[1..2] == "1" && "1"[..0] == [];
  }

  // ---------------------------------------------------------------- strstr

  predicate OccursAt(s: seq<char>, pat: seq<char>, i: nat) {
    i + |pat| <= |s| && s[i..i + |pat|] == pat
  }

  ghost predicate Contains(s: seq<char>, pat: seq<char>) {
    exists i: nat :: OccursAt(s, pat, i)
  }

  /** The first occurrence of `pat` in `s` at or after `i`. */
  function StrstrFrom(s: seq<char>, pat: seq<char>, i: nat): (r: Option<nat>)
    requires i <= |s|
    ensures r.Some? ==> i <= r.value && OccursAt(s, pat, r.value)
    ensures r.Some? ==> forall j :: i <= j < r.value ==> !OccursAt(s, pat, j)
    ensures r.None? ==> forall j :: i <= j ==> !OccursAt(s, pat, j)
    decreases |s| - i
  {
    if OccursAt(s, pat, i) then Some(i)
    else if i + |pat| >= |s| then None
    else StrstrFrom(s, pat, i + 1)
  }

  /** strstr(s, pat): the position of the first occurrence, or None for a null pointer. */
  function Strstr(s: seq<char>, pat: seq<char>): (r: Option<nat>)
    ensures r.Some? <==> Contains(s, pat)
    ensures r.Some? ==> OccursAt(s, pat, r.value)
    ensures r.Some? ==> forall j :: 0 <= j < r.value ==> !OccursAt(s, pat, j)
  {
    StrstrFrom(s, pat, 0)
  }

  /** The C string a buffer holds: its characters up to the first NUL. */
  function CString(buf: seq<char>): (s: seq<char>)
    ensures s <= buf
    ensures '\0' !in s
    ensures |s| < |buf| ==> buf[|s|] == '\0'
  {
    if buf == [] || buf[0] == '\0' then [] else [buf[0]] + CString(buf[1..])
  }

  /** A C string copies a NUL-free prefix of its buffer unchanged. */
  lemma {:induction false} CStringKeepsPrefix(a: seq<char>, b: seq<char>)
    requires '\0' !in a
    ensures a <= CString(a + b)
  {
    if a != [] {
      assert (a + b)[1..] == a[1..] + b;
      CStringKeepsPrefix(a[1..], b);
    }
  }
}
