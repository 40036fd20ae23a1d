/** The two conversions between 32-bit integers and text that the SQL Server
    journal's existence check goes through: `ToString()` of the `count(*)`
    scalar, and `int.TryParse` with the default `NumberStyles.Integer`
    (optional white space around an optional sign and a run of digits). */
module Int32Text {

  const MinValue: int := -0x8000_0000
  const MaxValue: int := 0x7FFF_FFFF

  predicate IsDigit(c: char) { '0' <= c <= '9' }

  predicate AllDigits(s: string) {
    forall i :: 0 <= i < |s| ==> IsDigit(s[i])
  }

  /** The white space `NumberStyles.AllowLeadingWhite` and
      `AllowTrailingWhite` accept: U+0009..U+000D and U+0020. */
  predicate IsNumberWhite(c: char) { c == ' ' || '\t' <= c <= '\r' }

  function DigitValue(c: char): (d: nat)
    requires IsDigit(c)
    ensures d < 10
  {
    c as int - '0' as int
  }

  function DigitChar(d: nat): (c: char)
    requires d < 10
    ensures IsDigit(c) && DigitValue(c) == d
  {
    ('0' as int + d) as char
  }

  /** The number a run of decimal digits spells, most significant first. */
  function DigitsValue(s: string): nat
    requires AllDigits(s)
  {
    if s == [] then 0 else DigitsValue(s[..|s| - 1]) * 10 + DigitValue(s[|s| - 1])
  }

  /** `n.ToString()` for a non-negative `n`: a non-empty run of digits, with
      no sign and no padding, that spells `n`. */
  function DecimalString(n: nat): (s: string)
    ensures |s| >= 1 && AllDigits(s)
    ensures DigitsValue(s) == n
    ensures s[0] == '0' <==> n == 0
    ensures s[0] == '0' ==> |s| == 1
  {
    if n < 10 then [DigitChar(n)]
    else
      var s := DecimalString(n / 10) + [DigitChar(n % 10)];
      assert s[..|s| - 1] == DecimalString(n / 10);
      s
  }

  function TrimStart(s: string): (r: string)
    ensures r == [] || !IsNumberWhite(r[0])
  {
    if s != [] && IsNumberWhite(s[0]) then TrimStart(s[1..]) else s
  }

  function TrimEnd(s: string): (r: string)
    ensures r == [] || !IsNumberWhite(r[|r| - 1])
  {
    if s != [] && IsNumberWhite(s[|s| - 1]) then TrimEnd(s[..|s| - 1]) else s
  }

  /** What `int.TryParse(s, out result)` returns and leaves in `result`. */
  datatype Parsed = Parsed(ok: bool, value: int)

  /** `int.TryParse`: on success the value is a 32-bit integer; on failure
      (no digits, a stray character, or a value out of range) `result` is 0. */
  function TryParseInt32(s: string): (r: Parsed)
    ensures r.ok ==> MinValue <= r.value <= MaxValue
    ensures !r.ok ==> r.value == 0
  {
    var t := TrimEnd(TrimStart(s));
    var signed := t != [] && (t[0] == '-' || t[0] == '+');
    var digits := if signed then t[1..] else t;
    if digits == [] || !AllDigits(digits) then Parsed(false, 0)
    else
      var v: int := if signed && t[0] == '-' then -(DigitsValue(digits) as int) else DigitsValue(digits);
      if MinValue <= v <= MaxValue then Parsed(true, v) else Parsed(false, 0)
  }

  /** Parsing the text of a non-negative 32-bit integer gives that integer back. */
  lemma ParseDecimalString(n: nat)
    requires n <= MaxValue
    ensures TryParseInt32(DecimalString(n)) == Parsed(true, n)
  {
    var s := DecimalString(n);
    assert TrimStart(s) == s;
    assert TrimEnd(s) == s;
  }
}
