/** Page cursors (internal/api/traces.go): base64 of "<ts_start_ms>:<id>", with the decimal
    integer formats of strconv. */
module Cursors {
  import opened Wrappers

  const MIN_INT64: int := -0x8000_0000_0000_0000
  const MAX_INT64: int := 0x7FFF_FFFF_FFFF_FFFF

  predicate IsInt64(n: int) { MIN_INT64 <= n <= MAX_INT64 }

  datatype Cursor = Cursor(tsMs: int, id: string)

  /** base64.RawURLEncoding, of which only the law below is used. */
  datatype Base64 = Base64(encode: string -> string, decode: string -> Option<string>)

  ghost predicate Lawful(b: Base64) {
    forall s :: b.decode(b.encode(s)) == Some(s)
  }

  // ----- strconv -----

  const DIGITS := "0123456789"

  function FormatNat(n: nat): string {
    if n < 10 then [DIGITS[n]] else FormatNat(n / 10) + [DIGITS[n % 10]]
  }

  function FormatInt(n: int): string {
    if n < 0 then "-" + FormatNat(-n) else FormatNat(n)
  }

  function DigitValue(c: char): Option<nat> {
    if '0' <= c <= '9' then Some(c as int - '0' as int) else None
  }

  /** A nonempty run of digits. */
  function ParseNat(s: string): Option<nat> {
    if s == "" then None
    else
      var last := DigitValue(s[|s| - 1]);
      if last.None? then None
      else if |s| == 1 then last
      else
        match ParseNat(s[..|s| - 1])
        case None => None
        case Some(n) => Some(10 * n + last.value)
  }

  /** An optional sign, then digits, within 64 bits. */
  function ParseInt(s: string): Option<int> {
    var signed := s != "" && (s[0] == '-' || s[0] == '+');
    match ParseNat(if signed then s[1..] else s)
    case None => None
    case Some(n) =>
      var v := if signed && s[0] == '-' then 0 - n as int else n as int;
      if IsInt64(v) then Some(v) else None
  }

  lemma {:induction false} ParsesFormatted(n: nat)
    ensures ParseNat(FormatNat(n)) == Some(n)
    ensures forall i :: 0 <= i < |FormatNat(n)| ==> '0' <= FormatNat(n)[i] <= '9'
    ensures FormatNat(n) != ""
  {
    DigitsAreDigits(n % 10);
    if n >= 10 {
      ParsesFormatted(n / 10);
      var s := FormatNat(n);
      assert s[..|s| - 1] == FormatNat(n / 10) && s[|s| - 1] == DIGITS[n % 10];
    }
  }

  lemma DigitsAreDigits(d: nat)
    requires d < 10
    ensures '0' <= DIGITS[d] <= '9' && DigitValue(DIGITS[d]) == Some(d)
  {
  }

  lemma IntRoundTrip(n: int)
    requires IsInt64(n)
    ensures ParseInt(FormatInt(n)) == Some(n)
    ensures forall i :: 0 <= i < |FormatInt(n)| ==> FormatInt(n)[i] != ':'
  {
    hide FormatNat, ParseNat;
    var size: nat := if n < 0 then -n else n;
    var digits := FormatNat(size);
    ParsesFormatted(size);
    assert digits[0] != '-' && digits[0] != '+';
    if n < 0 { assert ("-" + digits)[1..] == digits; }
  }

  /** Only numbers below zero carry a sign; a plus is read and changes nothing. */
  lemma Signs(n: nat)
    requires IsInt64(n)
    ensures forall i :: 0 <= i < |FormatInt(n)| ==> '0' <= FormatInt(n)[i] <= '9'
    ensures ParseInt("+" + FormatInt(n)) == Some(n)
  {
    hide FormatNat, ParseNat;
    ParsesFormatted(n);
    assert ("+" + FormatNat(n))[1..] == FormatNat(n);
  }

  /** Nothing outside 64 bits is taken for a time. */
  lemma Within64Bits(s: string)
    ensures ParseInt(s).Some? ==> IsInt64(ParseInt(s).value)
  {
  }

  // ----- Cursors -----

  function EncodeCursor(b64: Base64, c: Cursor): string {
    b64.encode(FormatInt(c.tsMs) + ":" + c.id)
  }

  /** SplitN(s, ":", 2): what stands before the first colon and what follows it. */
  function SplitColon(s: string): Option<(string, string)> {
    if s == "" then None
    else if s[0] == ':' then Some(("", s[1..]))
    else
      match SplitColon(s[1..])
      case None => None
      case Some(parts) => Some(([s[0]] + parts.0, parts.1))
  }

  function DecodeCursor(b64: Base64, s: string): Option<Cursor> {
    match b64.decode(s)
    case None => None
    case Some(raw) =>
      match SplitColon(raw)
      case None => None
      case Some(parts) =>
        match ParseInt(parts.0)
        case None => None
        case Some(ms) => Some(Cursor(ms, parts.1))
  }

  lemma {:induction false} SplitsAtFirst(before: string, after: string)
    requires forall i :: 0 <= i < |before| ==> before[i] != ':'
    ensures SplitColon(before + ":" + after) == Some((before, after))
  {
    var s := before + ":" + after;
    if before == "" {
      assert s[1..] == after;
    } else {
      SplitsAtFirst(before[1..], after);
      assert s[1..] == before[1..] + ":" + after;
      assert [before[0]] + before[1..] == before;
    }
  }

  /** Decoding inverts encoding for every 64-bit time and every id, colons included. */
  lemma CursorRoundTrip(b64: Base64, c: Cursor)
    requires Lawful(b64) && IsInt64(c.tsMs)
    ensures DecodeCursor(b64, EncodeCursor(b64, c)) == Some(c)
  {
    IntRoundTrip(c.tsMs);
    SplitsAtFirst(FormatInt(c.tsMs), c.id);
    assert Lawful(b64) ==> b64.decode(b64.encode(FormatInt(c.tsMs) + ":" + c.id))
                           == Some(FormatInt(c.tsMs) + ":" + c.id);
  }
}
