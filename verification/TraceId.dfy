/** Trace identifiers: base 36 printing and parsing (internal/traffic/store.go, formatID and
    parseTraceID). */
module TraceId {

  const MAX_INT64 := 0x7fff_ffff_ffff_ffff
  const PREFIX := "trace-"

  datatype ParseResult = Parsed(value: int) | ParseError

  /** The digits 0-9 and a-z. */
  function DigitChar(d: nat): char
    requires d < 36
  {
    if d < 10 then (d + '0' as int) as char else (d - 10 + 'a' as int) as char
  }

  /** The base 36 numeral of `n`, without leading zeros; empty for zero. */
  function Numeral(n: nat): string {
    if n == 0 then "" else Numeral(n / 36) + [DigitChar(n % 36)]
  }

  /** What formatID returns for every 64-bit value. */
  function Formatted(value: int): string {
    if value == 0 then "0" else if value < 0 then "" else Numeral(value)
  }

  function Pow36(k: nat): nat {
    if k == 0 then 1 else 36 * Pow36(k - 1)
  }

  lemma {:induction false} NumeralLength(n: nat, k: nat)
    requires n < Pow36(k)
    ensures |Numeral(n)| <= k
  {
    if n > 0 {
      NumeralLength(n / 36, k - 1);
    }
  }

  /** Every 64-bit value needs at most 13 digits, so the 16-byte buffer is large enough. */
  lemma Int64Fits(n: nat)
    requires n <= MAX_INT64
    ensures |Numeral(n)| <= 13
  {
    assert Pow36(13) > MAX_INT64 by {
      assert Pow36(3) == 46656;
      assert Pow36(6) == 46656 * 46656;
      assert Pow36(9) == 46656 * 46656 * 46656;
      assert Pow36(12) == 46656 * 46656 * 46656 * 46656;
    }
    NumeralLength(n, 13);
  }

  /** One turn of the loop moves the last digit from the numeral to the text. */
  lemma NextDigit(v: nat, low: string)
    requires v > 0
    ensures Numeral(v) + low == Numeral(v / 36) + ([DigitChar(v % 36)] + low)
    ensures |Numeral(v)| == |Numeral(v / 36)| + 1
  {
  }

  /** formatID: fills a 16-byte buffer from its end.  Every index stays within the buffer. */
  method FormatId(value: int) returns (text: string)
    requires value <= MAX_INT64
    ensures text == Formatted(value)
  {
    if value == 0 {
      return "0";
    }
    var buf := new char[16];
    var i := buf.Length;
    var v := value;
    if value > 0 {
      Int64Fits(value);
    }
    while v > 0
      invariant v <= value && 0 <= i <= 16 && (value > 0 ==> v >= 0)
      invariant value > 0 ==> i == 16 - |Numeral(value)| + |Numeral(v)|
      invariant value > 0 ==> Numeral(value) == Numeral(v) + buf[i..]
      invariant value < 0 ==> i == 16
    {
      ghost var low := buf[i..];
      NextDigit(v, low);
      i := i - 1;
      buf[i] := DigitChar(v % 36);
      assert buf[i..] == [DigitChar(v % 36)] + low;
      v := v / 36;
    }
    return buf[i..];
  }

  /** The value of a base 36 digit in either case, or -1. */
  function DigitValue(c: char): int {
    if '0' <= c <= '9' then c as int - '0' as int
    else if 'a' <= c <= 'z' then c as int - 'a' as int + 10
    else if 'A' <= c <= 'Z' then c as int - 'A' as int + 10
    else -1
  }

  /** The number written by base 36 digits. */
  function DigitsValue(s: string): ParseResult {
    if s == "" then Parsed(0)
    else
      var d, head := DigitValue(s[|s| - 1]), DigitsValue(s[..|s| - 1]);
      if d < 0 || head.ParseError? then ParseError else Parsed(36 * head.value + d)
  }

  /** strconv.ParseInt(s, 36, 64): an optional sign and at least one digit, within 64 bits. */
  function ParseInt36(s: string): ParseResult {
    var negative := s != "" && s[0] == '-';
    var digits := if s != "" && (s[0] == '-' || s[0] == '+') then s[1..] else s;
    var magnitude := DigitsValue(digits);
    if digits == "" || magnitude.ParseError? then ParseError
    else
      var v := if negative then -magnitude.value else magnitude.value;
      if -MAX_INT64 - 1 <= v <= MAX_INT64 then Parsed(v) else ParseError
  }

  /** parseTraceID: an unreadable identifier counts as 0. */
  function ParseTraceId(id: string): int {
    var raw := if PREFIX <= id then id[|PREFIX|..] else id;
    match ParseInt36(raw)
    case Parsed(v) => v
    case ParseError => 0
  }

  /** The identifier that Record gives to the `n`-th trace. */
  function IdOf(n: int): string { PREFIX + Formatted(n) }

  lemma DigitReadsBack(d: nat)
    requires d < 36
    ensures DigitValue(DigitChar(d)) == d
  {
  }

  lemma AppendDigit(head: string, d: nat, n: nat)
    requires d < 36 && DigitsValue(head) == Parsed(n)
    ensures DigitsValue(head + [DigitChar(d)]) == Parsed(36 * n + d)
  {
    var s := head + [DigitChar(d)];
    assert s[..|s| - 1] == head;
    DigitReadsBack(d);
  }

  lemma {:induction false} FirstDigit(n: nat)
    requires n > 0
    ensures Numeral(n) != "" && DigitValue(Numeral(n)[0]) >= 0
  {
    DigitReadsBack(n % 36);
    if n >= 36 {
      FirstDigit(n / 36);
    }
  }

  lemma {:induction false} NumeralReadsBack(n: nat)
    ensures DigitsValue(Numeral(n)) == Parsed(n)
  {
    if n > 0 {
      NumeralReadsBack(n / 36);
      AppendDigit(Numeral(n / 36), n % 36, n / 36);
    }
  }

  lemma FormattedReadsBack(n: nat)
    requires n <= MAX_INT64
    ensures ParseInt36(Formatted(n)) == Parsed(n)
  {
    if n == 0 {
      AppendDigit("", 0, 0);
      assert "" + [DigitChar(0)] == "0";
    } else {
      NumeralReadsBack(n);
      FirstDigit(n);
    }
  }

  /** Parsing what was printed gives the number back, for every 64-bit counter value. */
  lemma RoundTrip(n: nat)
    requires n <= MAX_INT64
    ensures ParseTraceId(IdOf(n)) == n
  {
    FormattedReadsBack(n);
    assert IdOf(n)[|PREFIX|..] == Formatted(n);
  }

  /** Different counter values never share an identifier. */
  lemma IdsAreDistinct(m: nat, n: nat)
    requires m <= MAX_INT64 && n <= MAX_INT64 && m != n
    ensures IdOf(m) != IdOf(n)
  {
    RoundTrip(m);
    RoundTrip(n);
  }
}
