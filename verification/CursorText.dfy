/** The textual consolidation cursor: decimal printing and the tolerant parser of the store. */
module CursorText {

  const INT64_MIN: int := -0x8000_0000_0000_0000
  const INT64_MAX: int := 0x7fff_ffff_ffff_ffff

  predicate IsInt64(n: int) {
    INT64_MIN <= n <= INT64_MAX
  }

  predicate IsDigit(c: char) {
    '0' <= c <= '9'
  }

  /** White space as the C locale's `isspace` sees it. */
  predicate IsSpace(c: char) {
    c == ' ' || '\t' <= c <= '\r'
  }

  function DigitChar(d: nat): char
    requires d < 10
  {
    '0' + d as char
  }

  function Decimal(n: nat): (s: string)
    ensures 0 < |s| && forall c :: c in s ==> IsDigit(c)
  {
    if n < 10 then [DigitChar(n)] else Decimal(n / 10) + [DigitChar(n % 10)]
  }

  /** `std::to_string` on a 64-bit integer. */
  function ToText(n: int): (s: string)
    ensures 0 < |s|
  {
    if n < 0 then "-" + Decimal(-n) else Decimal(n)
  }

  function SkipSpace(s: string): string {
    if s != [] && IsSpace(s[0]) then SkipSpace(s[1..]) else s
  }

  /** Length of the run of digits at the head of `s`. */
  function DigitRun(s: string): (n: nat)
    ensures n <= |s|
  {
    if s != [] && IsDigit(s[0]) then 1 + DigitRun(s[1..]) else 0
  }

  lemma DigitRunIsDigits(s: string)
    ensures forall i :: 0 <= i < DigitRun(s) ==> IsDigit(s[i])
  {
  }

  function DigitsValue(s: string): (v: nat)
    requires forall i :: 0 <= i < |s| ==> IsDigit(s[i])
  {
    if s == [] then 0
    else
      assert IsDigit(s[|s| - 1]);
      10 * DigitsValue(s[..|s| - 1]) + (s[|s| - 1] as int - '0' as int)
  }

  /** The number the digits at the head of `s` make. */
  function LeadingValue(s: string): nat {
    DigitRunIsDigits(s);
    DigitsValue(s[..DigitRun(s)])
  }

  /** The numeric reading of a cursor: empty, malformed and out-of-range text all read as zero;
      leading white space, one sign and trailing garbage are tolerated. */
  function CursorToInt(cursor: string): (n: int)
    ensures IsInt64(n)
  {
    var body := SkipSpace(cursor);
    var negative := body != [] && body[0] == '-';
    var digits := if body != [] && (body[0] == '-' || body[0] == '+') then body[1..] else body;
    var magnitude: int := LeadingValue(digits);
    var n := if negative then -magnitude else magnitude;
    if IsInt64(n) then n else 0
  }

  lemma {:induction false} DecimalValue(n: nat)
    ensures DigitsValue(Decimal(n)) == n
  {
    if n >= 10 {
      DecimalValue(n / 10);
      var s := Decimal(n);
      assert s[..|s| - 1] == Decimal(n / 10);
    } else {
      assert DigitsValue([]) == 0;
      assert [DigitChar(n)][..0] == [];
    }
  }

  /** A number prints without leading zeros. */
  lemma {:induction false} DecimalHead(n: nat)
    ensures Decimal(n)[0] == '0' <==> n == 0
    ensures |Decimal(n)| == 1 <==> n < 10
  {
    if n >= 10 {
      DecimalHead(n / 10);
    }
  }

  lemma {:induction false} DigitsThenOther(digits: string, rest: string)
    requires forall c :: c in digits ==> IsDigit(c)
    requires rest == "" || !IsDigit(rest[0])
    ensures DigitRun(digits + rest) == |digits|
  {
    if digits == "" {
      assert digits + rest == rest;
    } else {
      assert (digits + rest)[1..] == digits[1..] + rest;
      DigitsThenOther(digits[1..], rest);
    }
  }

  lemma {:induction false} SpacesAreSkipped(space: string, s: string)
    requires forall c :: c in space ==> IsSpace(c)
    requires s != "" && !IsSpace(s[0])
    ensures SkipSpace(space + s) == s
  {
    if space == "" {
      assert space + s == s;
    } else {
      assert (space + s)[1..] == space[1..] + s;
      SpacesAreSkipped(space[1..], s);
    }
  }

  lemma LeadingDecimal(n: nat, rest: string)
    requires rest == "" || !IsDigit(rest[0])
    ensures LeadingValue(Decimal(n) + rest) == n
    ensures IsDigit((Decimal(n) + rest)[0])
  {
    DigitsThenOther(Decimal(n), rest);
    DecimalValue(n);
    assert (Decimal(n) + rest)[..|Decimal(n)|] == Decimal(n);
    assert Decimal(n)[0] in Decimal(n);
    hide Decimal, DigitRun, DigitsValue;
  }

  lemma SignedValue(cursor: string, sign: string, tail: string)
    requires sign == "" || sign == "+" || sign == "-"
    requires tail != "" && IsDigit(tail[0]) && SkipSpace(cursor) == sign + tail
    ensures var value: int := LeadingValue(tail);
      var signed := if sign == "-" then -value else value;
      CursorToInt(cursor) == if IsInt64(signed) then signed else 0
  {
    hide SkipSpace, LeadingValue;
    assert (sign + tail)[|sign|..] == tail;
    assert sign == "" ==> sign + tail == tail;
  }

  /** What a cursor text reads as: white space, a sign, digits and then anything else give the number, or
      zero if it is not a 64-bit one. */
  lemma CursorReads(space: string, sign: string, n: nat, rest: string)
    requires forall c :: c in space ==> c == ' ' || '\t' <= c <= '\r'
    requires sign == "" || sign == "+" || sign == "-"
    requires rest == "" || !('0' <= rest[0] <= '9')
    ensures var value := if sign == "-" then -(n as int) else n;
      CursorToInt(space + (sign + (Decimal(n) + rest)))
      == if -0x8000_0000_0000_0000 <= value <= 0x7fff_ffff_ffff_ffff then value else 0
  {
    var tail := Decimal(n) + rest;
    LeadingDecimal(n, rest);
    hide Decimal, LeadingValue, SkipSpace, CursorToInt;
    SpacesAreSkipped(space, sign + tail);
    SignedValue(space + (sign + tail), sign, tail);
  }

  lemma {:induction false} SkippedPart(s: string)
    ensures forall c :: c in SkipSpace(s) ==> c in s
  {
    if s != "" && IsSpace(s[0]) {
      SkippedPart(s[1..]);
    }
  }

  /** A text without digits reads as zero. */
  lemma NoDigitsReadZero(s: string)
    requires forall c :: c in s ==> !('0' <= c <= '9')
    ensures CursorToInt(s) == 0
  {
    var body := SkipSpace(s);
    SkippedPart(s);
    var digits := if body != [] && (body[0] == '-' || body[0] == '+') then body[1..] else body;
    assert forall i :: 0 <= i < |digits| ==> digits[i] in body;
    assert DigitRun(digits) == 0;
    assert digits[..0] == [];
  }

  /** Printing an id and reading it back is the identity on the whole 64-bit range; beyond it
      the text is not saturated but reads as the start of the stream. */
  lemma CursorRoundTrip(n: int)
    ensures CursorToInt(ToText(n)) == if IsInt64(n) then n else 0
  {
    var sign, magnitude := if n < 0 then "-" else "", if n < 0 then -n else n;
    LeadingDecimal(magnitude, "");
    assert Decimal(magnitude) + "" == Decimal(magnitude);
    hide Decimal, LeadingValue, CursorToInt;
    assert ToText(n) == sign + Decimal(magnitude);
    assert SkipSpace(ToText(n)) == ToText(n);
    SignedValue(ToText(n), sign, Decimal(magnitude));
  }

  /** The string cursor carried through builder, service and store keeps the order of ids. */
  lemma CursorOrder(a: int, b: int)
    requires IsInt64(a) && IsInt64(b)
    ensures CursorToInt(ToText(a)) < CursorToInt(ToText(b)) <==> a < b
    ensures ToText(a) == ToText(b) <==> a == b
  {
    CursorRoundTrip(a);
    CursorRoundTrip(b);
  }
}
