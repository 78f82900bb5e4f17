/** `parse_ulong` (parse.c) over `strtoul` as section 7.22.1.4 of C11 defines it in base 10 and the "C" locale. */
module ParseUlong {
  import opened ErrorSlot

  const ULONG_MAX: nat := 0xFFFF_FFFF_FFFF_FFFF
  const ERANGE: int := 34

  predicate IsSpace(c: char) {
    c == ' ' || '\t' <= c <= '\r'
  }

  predicate IsDigit(c: char) {
    '0' <= c <= '9'
  }

  predicate IsSign(c: char) {
    c == '+' || c == '-'
  }

  /** The number of characters at the front of `s` that satisfy `p`. */
  function Span(p: char -> bool, s: string): (n: nat)
    ensures n <= |s|
    ensures forall k :: 0 <= k < n ==> p(s[k])
    ensures n < |s| ==> !p(s[n])
  {
    if s == "" || !p(s[0]) then 0 else 1 + Span(p, s[1..])
  }

  function Digit(c: char): (d: nat)
    requires IsDigit(c)
    ensures d < 10
  {
    c as int - '0' as int
  }

  predicate AllDigits(s: string) {
    forall k :: 0 <= k < |s| ==> IsDigit(s[k])
  }

  function DecValue(s: string): nat
    requires AllDigits(s)
  {
    if s == "" then 0 else 10 * DecValue(s[..|s| - 1]) + Digit(s[|s| - 1])
  }

  /** The unsigned result of a sign and a magnitude: `-` negates modulo `ULONG_MAX + 1`. */
  function Signed(negative: bool, v: nat): (r: nat)
    requires v <= ULONG_MAX
    ensures r <= ULONG_MAX
  {
    if negative && v != 0 then ULONG_MAX + 1 - v else v
  }

  /** Result of `strtoul`: the value, where it stopped (0: no conversion), and `errno` afterwards. */
  datatype Conversion = Conversion(value: nat, end: nat, errno: int)

  /** The digits at the front of `s`. */
  function LeadingDigits(s: string): (d: string)
    ensures AllDigits(d) && d <= s && (|d| < |s| ==> !IsDigit(s[|d|]))
  {
    s[..Span(IsDigit, s)]
  }

  function Strtoul(s: string, errno: int): (c: Conversion)
    ensures c.value <= ULONG_MAX && c.end <= |s|
  {
    var i := Span(IsSpace, s);
    var j := if i < |s| && IsSign(s[i]) then i + 1 else i;
    var digits := LeadingDigits(s[j..]);
    if digits == "" then Conversion(0, 0, errno)
    else if DecValue(digits) > ULONG_MAX then Conversion(ULONG_MAX, j + |digits|, ERANGE)
    else Conversion(Signed(j > i && s[i] == '-', DecValue(digits)), j + |digits|, errno)
  }

  /** The error `parse_ulong` reports, if any. */
  function Complaint(s: string, errno: int): Option<Error> {
    var c := Strtoul(s, errno);
    if (c.errno == ERANGE && c.value == ULONG_MAX) || (c.errno != 0 && c.value == 0) then Some(NumberOutOfRange)
    else if c.end == 0 then Some(NoDigit)
    else if c.end < |s| then Some(NonDigit)
    else if c.value <= 0 then Some(NotPositive)
    else None
  }

  /** `parse_ulong`: the converted value is stored whether or not it is accepted. */
  method ParseUlong(s: string, errno: int, error: Cell) returns (ok: bool, val: nat)
    requires !error.slot.Crashed?
    modifies error
    ensures val == Strtoul(s, errno).value
    ensures ok <==> Complaint(s, errno).None?
    ensures error.slot == if ok then old(error.slot) else old(error.slot).Put(Complaint(s, errno).value)
  {
    var c := Strtoul(s, errno);
    val := c.value;
    ok := false;
    if (c.errno == ERANGE && ULONG_MAX == val) || (0 != c.errno && 0 == val) {
      error.Set(NumberOutOfRange);
    } else if c.end == 0 {
      error.Set(NoDigit);
    } else if c.end < |s| {
      error.Set(NonDigit);
    } else if val <= 0 {
      error.Set(NotPositive);
    } else {
      ok := true;
    }
  }

  // ---- what is accepted ----

  predicate AllSpaces(s: string) {
    forall k :: 0 <= k < |s| ==> IsSpace(s[k])
  }

  /** White space, an optional sign, and at least one digit. */
  ghost predicate IsNumeral(s: string, blank: string, sign: string, digits: string) {
    && s == blank + sign + digits
    && AllSpaces(blank)
    && (sign == "" || sign == "+" || sign == "-")
    && digits != "" && AllDigits(digits)
  }

  lemma {:induction false} SpanOf(p: char -> bool, s: string, n: nat)
    requires n <= |s|
    requires forall k :: 0 <= k < n ==> p(s[k])
    requires n < |s| ==> !p(s[n])
    ensures Span(p, s) == n
  {
  }

  /** `s` begins with a numeral, which `tail` does not continue. */
  ghost predicate Begins(s: string, blank: string, sign: string, digits: string, tail: string) {
    && s == blank + sign + digits + tail && IsNumeral(blank + sign + digits, blank, sign, digits)
    && (tail == "" || !IsDigit(tail[0]))
  }

  lemma BeginsLength(s: string, blank: string, sign: string, digits: string, tail: string)
    requires Begins(s, blank, sign, digits, tail)
    ensures |s| == |blank| + |sign| + |digits| + |tail| && |digits| > 0
  {
  }

  lemma NumeralSpans(s: string, blank: string, sign: string, digits: string, tail: string)
    requires Begins(s, blank, sign, digits, tail)
    ensures |blank| < |s| && (IsSign(s[|blank|]) <==> sign != "") && (s[|blank|] == '-' <==> sign == "-")
    ensures Span(IsSpace, s) == |blank| && |sign| == (if sign == "" then 0 else 1)
    ensures |blank| + |sign| <= |s| && LeadingDigits(s[|blank| + |sign|..]) == digits != ""
  {
    hide Span, LeadingDigits;
    var i := |blank|;
    Parts(blank, sign, digits, tail);
    assert s[i] == if sign == "" then digits[0] else sign[0];
    SpanOf(IsSpace, s, i);
    LeadingDigitsOf(digits, tail);
  }

  lemma LeadingDigitsOf(digits: string, tail: string)
    requires AllDigits(digits) && (tail == "" || !IsDigit(tail[0]))
    ensures LeadingDigits(digits + tail) == digits
  {
    SpanOf(IsDigit, digits + tail, |digits|);
  }

  lemma Parts(a: string, b: string, c: string, d: string)
    ensures var s := a + b + c + d;
            && (forall k :: 0 <= k < |a| ==> s[k] == a[k])
            && (b != "" ==> s[|a|] == b[0])
            && (b == "" && c != "" ==> s[|a|] == c[0])
            && s[|a| + |b|..] == c + d
  {
  }

  /**
   What `strtoul` makes of a numeral, whatever follows it: its magnitude, or 2^64 less its magnitude after a minus
   sign; a magnitude of 2^64 or more is out of range.
   */
  lemma NumeralValue(s: string, errno: int, blank: string, sign: string, digits: string, tail: string)
    requires Begins(s, blank, sign, digits, tail)
    ensures var c, v := Strtoul(s, errno), DecValue(digits);
            && c.end == |blank| + |sign| + |digits|
            && (v >= 0x1_0000_0000_0000_0000 ==> c.value == 0xFFFF_FFFF_FFFF_FFFF && c.errno == 34)
            && (v < 0x1_0000_0000_0000_0000 ==> c.errno == errno)
            && (v == 0 ==> c.value == 0)
            && (0 < v < 0x1_0000_0000_0000_0000 && sign == "-" ==> c.value + v == 0x1_0000_0000_0000_0000)
            && (0 < v < 0x1_0000_0000_0000_0000 && sign != "-" ==> c.value == v)
  {
    NumeralSpans(s, blank, sign, digits, tail);
    ConvertedAt(s, errno, |blank|, |blank| + |sign|);
    hide Strtoul, DecValue, Span, LeadingDigits, Begins, IsNumeral, AllDigits, IsSpace, IsDigit;
  }

  /** What is converted, by where the numeral lies. */
  lemma ConvertedAt(s: string, errno: int, i: nat, j: nat)
    requires i < |s| && Span(IsSpace, s) == i && j == (if IsSign(s[i]) then i + 1 else i)
    requires LeadingDigits(s[j..]) != ""
    ensures var c, digits := Strtoul(s, errno), LeadingDigits(s[j..]);
            var v := DecValue(digits);
            && c.end == j + |digits|
            && (v > ULONG_MAX ==> c.value == ULONG_MAX && c.errno == ERANGE)
            && (v <= ULONG_MAX ==> c.value == Signed(s[i] == '-', v) && c.errno == errno)
  {
    hide DecValue, Span, LeadingDigits, IsSpace;
  }

  /** A text that begins with no numeral is not converted. */
  lemma NumeralOrNothing(s: string, errno: int)
    ensures (exists blank, sign, digits, tail :: Begins(s, blank, sign, digits, tail))
            || (var c := Strtoul(s, errno); c.value == 0 && c.end == 0 && c.errno == errno)
  {
    hide DecValue, Span, Begins, LeadingDigits;
    var i := Span(IsSpace, s);
    var j := if i < |s| && IsSign(s[i]) then i + 1 else i;
    if LeadingDigits(s[j..]) != "" {
      hide Strtoul;
      DigitsFrom(s, j);
      BeginsAt(s, i, j, j + |LeadingDigits(s[j..])|);
    }
  }

  lemma DigitsFrom(s: string, j: nat)
    requires j <= |s|
    ensures var k := j + |LeadingDigits(s[j..])|;
            k <= |s| && (forall m :: j <= m < k ==> IsDigit(s[m])) && (k < |s| ==> !IsDigit(s[k]))
  {
    hide LeadingDigits;
    var d := LeadingDigits(s[j..]);
    assert forall m :: j <= m < j + |d| ==> s[m] == s[j..][m - j] == d[m - j];
    assert j + |d| < |s| ==> s[j + |d|] == s[j..][|d|];
  }

  lemma BeginsAt(s: string, i: nat, j: nat, k: nat)
    requires i <= j < k <= |s|
    requires (forall m :: 0 <= m < i ==> IsSpace(s[m])) && (forall m :: j <= m < k ==> IsDigit(s[m]))
    requires j == i || (j == i + 1 && IsSign(s[i]))
    requires k < |s| ==> !IsDigit(s[k])
    ensures Begins(s, s[..i], s[i..j], s[j..k], s[k..])
  {
    assert s[i..j] == (if j == i then "" else [s[i]]);
    assert s[..i] + s[i..j] + s[j..k] == s[..k];
  }

  /** What the digits of a number below 1000 are worth. */
  lemma ThreeDigits(a: char, b: char, c: char)
    requires IsDigit(a) && IsDigit(b) && IsDigit(c)
    ensures DecValue([c]) == c as int - 48 && DecValue([b, c]) == 10 * (b as int - 48) + (c as int - 48)
    ensures DecValue([a, b, c]) == 100 * (a as int - 48) + 10 * (b as int - 48) + (c as int - 48)
  {
    assert [a, b, c][..2] == [a, b] && [a, b][..1] == [a] && [b, c][..1] == [b] && [a][..0] == [];
    assert DecValue([a]) == 10 * DecValue([]) + Digit(a) && DecValue([a, b]) == 10 * DecValue([a]) + Digit(b);
    assert DecValue([b]) == 10 * DecValue([]) + Digit(b) && DecValue([c]) == 10 * DecValue([]) + Digit(c);
  }

  /** Which error is reported, with `errno` clear. */
  lemma Reasons(s: string, blank: string, sign: string, digits: string, tail: string)
    requires Begins(s, blank, sign, digits, tail)
    ensures var v := DecValue(digits);
            Complaint(s, 0) == if v >= 0x1_0000_0000_0000_0000 then Some(NumberOutOfRange)
                               else if tail != "" then Some(NonDigit)
                               else if v == 0 then Some(NotPositive)
                               else None
  {
    hide Strtoul, DecValue;
    NumeralValue(s, 0, blank, sign, digits, tail);
  }

  /**
   `parse_ulong` accepts exactly the numerals whose magnitude lies in 1..2^64 - 1, except that the two whose value
   is 2^64 - 1 are refused when `errno` still holds `ERANGE`.
   */
  lemma AcceptedIff(s: string, errno: int)
    ensures Complaint(s, errno).None?
       <==> exists blank, sign, digits ::
              && IsNumeral(s, blank, sign, digits)
              && 0 < DecValue(digits) < 0x1_0000_0000_0000_0000
              && !(errno == 34 && DecValue(digits) == if sign == "-" then 1 else 0xFFFF_FFFF_FFFF_FFFF)
  {
    hide Strtoul, DecValue;
    if Complaint(s, errno).None? {
      NumeralOrNothing(s, errno);
      var blank, sign, digits, tail :| Begins(s, blank, sign, digits, tail);
      NumeralValue(s, errno, blank, sign, digits, tail);
      assert tail == "" && s == blank + sign + digits;
    }
    if blank, sign, digits :|
        && IsNumeral(s, blank, sign, digits)
        && 0 < DecValue(digits) < 0x1_0000_0000_0000_0000
        && !(errno == 34 && DecValue(digits) == if sign == "-" then 1 else 0xFFFF_FFFF_FFFF_FFFF)
    {
      assert blank + sign + digits + "" == s;
      NumeralValue(s, errno, blank, sign, digits, "");
    }
  }

  /** The verdict depends on a stale `errno` only for the value `ULONG_MAX`. */
  lemma StaleErrno(s: string, e1: int, e2: int)
    requires Strtoul(s, 0).value != ULONG_MAX
    ensures Complaint(s, e1).None? <==> Complaint(s, e2).None?
    ensures Strtoul(s, e1).value == Strtoul(s, e2).value
  {
  }

  // ---- decimal printing ----

  function Decimal(v: nat): (s: string)
    ensures s != "" && AllDigits(s)
  {
    var d := ['0' + (v % 10) as char];
    if v < 10 then d else Decimal(v / 10) + d
  }

  lemma {:induction false} DecValueDecimal(v: nat)
    ensures DecValue(Decimal(v)) == v
  {
    if v >= 10 { DecValueDecimal(v / 10); }
    var s := Decimal(v);
    assert v >= 10 ==> s[..|s| - 1] == Decimal(v / 10);
  }

  /** `parse_ulong` inverts decimal printing on 1..ULONG_MAX. */
  lemma ParsesPrinted(v: nat)
    requires 0 < v <= ULONG_MAX
    ensures Complaint(Decimal(v), 0).None? && Strtoul(Decimal(v), 0).value == v
  {
    hide Strtoul, Decimal, DecValue;
    var s := Decimal(v);
    assert "" + "" + s == s;
    assert s + "" == s;
    assert Begins(s, "", "", s, "");
    NumeralValue(s, 0, "", "", s, "");
    DecValueDecimal(v);
  }
}
