/**
 The JSON form of a log event (src/build_engine/agent/protocol.py): compact, keys sorted,
 ASCII only, with the string escapes of section 7 of RFC 8259.
 */
module Envelope {
  import opened Outcomes
  import opened LogFrames
  import Utf8

  const MAX_FRAME_BYTES: nat := 1_048_576

  // ---------- strings ----------

  function HexDigit(n: nat): char
    requires n < 16
  {
    if n < 10 then '0' + n as char else 'a' + (n - 10) as char
  }

  function Hex4(n: nat): string
    requires n < 0x10000
  {
    [HexDigit(n / 4096), HexDigit(n / 256 % 16), HexDigit(n / 16 % 16), HexDigit(n % 16)]
  }

  function EscapedChar(c: char): string {
    if c == '"' then "\\\""
    else if c == '\\' then "\\\\"
    else if c == '\n' then "\\n"
    else if c == '\r' then "\\r"
    else if c == '\t' then "\\t"
    else if c == '\U{0008}' then "\\b"
    else if c == '\U{000C}' then "\\f"
    else if ' ' <= c <= '~' then [c]
    else if c < '\U{10000}' then "\\u" + Hex4(c as int)
    else "\\u" + Hex4(HighSurrogate(c)) + "\\u" + Hex4(LowSurrogate(c))
  }

  function HighSurrogate(c: char): (n: nat)
    requires c >= '\U{10000}'
    ensures 0xD800 <= n < 0xDC00
  {
    0xD800 + (c as int - 0x10000) / 1024
  }

  function LowSurrogate(c: char): (n: nat)
    requires c >= '\U{10000}'
    ensures 0xDC00 <= n < 0xE000
    ensures 0x10000 + (HighSurrogate(c) - 0xD800) * 1024 + (n - 0xDC00) == c as int
  {
    0xDC00 + (c as int - 0x10000) % 1024
  }

  function Escaped(s: string): string {
    if s == "" then "" else EscapedChar(s[0]) + Escaped(s[1..])
  }

  function Decimal(n: nat): string {
    if n < 10 then ['0' + n as char] else Decimal(n / 10) + ['0' + (n % 10) as char]
  }

  // ---------- the log envelope ----------

  datatype LogEvent = LogEvent(
    attempt: string, build: string, engine: string, id: string,
    data: string, stream: string, num: nat, ts: string)

  // One member of the object: what comes before its value, a string value, and the rest.
  function Member(before: string, value: string, rest: string): string {
    before + ("\"" + (Escaped(value) + ("\"" + rest)))
  }

  function NumberMember(before: string, n: nat, rest: string): string {
    before + (Decimal(n) + rest)
  }

  // Compact JSON, keys sorted.
  function Json(e: LogEvent): string {
    Member("{\"attempt_id\":", e.attempt,
    Member(",\"build_job_id\":", e.build,
    Member(",\"engine_id\":", e.engine,
    Member(",\"id\":", e.id,
    Member(",\"payload\":{\"data\":", e.data,
    Member(",\"stream\":", e.stream,
    NumberMember("},\"seq\":", e.num,
    Member(",\"ts\":", e.ts, LOG_TRAILER))))))))
  }

  const LOG_TRAILER := ",\"type\":\"attempt.log\",\"v\":2}"

  datatype ProtocolError = FrameTooLarge | LogTooLarge

  // The log check of `validate_envelope`, then the size check of `to_json`.
  function Checked(data: string, json: string): Result<string, ProtocolError> {
    if Utf8Length(data) > MAX_LOG_DATA_BYTES then Err(LogTooLarge)
    else if Utf8Length(json) > MAX_FRAME_BYTES then Err(FrameTooLarge)
    else Ok(json)
  }

  function Encode(e: LogEvent): Result<string, ProtocolError> {
    Checked(e.data, Json(e))
  }

  // UUIDs have 36 characters, `_format_timestamp` at most 32, and SQLite integers 19 digits.
  predicate Addressed(e: LogEvent) {
    && |e.attempt| == 36 && |e.build| == 36 && |e.engine| == 36 && |e.id| == 36
    && |e.ts| <= 32 && |e.stream| <= 6 && e.num < 0x8000_0000_0000_0000
  }

  // ---------- lengths ----------

  predicate Ascii(s: string) {
    forall i | 0 <= i < |s| :: s[i] < '\U{80}'
  }

  lemma Hex4Ascii(n: nat)
    requires n < 0x10000
    ensures Ascii(Hex4(n)) && |Hex4(n)| == 4
  {
  }

  lemma AsciiAppend(s: string, t: string)
    requires Ascii(s) && Ascii(t)
    ensures Ascii(s + t)
  {
  }

  lemma EscapedCharBound(c: char)
    ensures Ascii(EscapedChar(c)) && 1 <= |EscapedChar(c)| <= 6 * |Utf8.EncodedChar(c)| && |EscapedChar(c)| <= 12
  {
    if c in {'"', '\\', '\n', '\r', '\t', '\U{0008}', '\U{000C}'} || ' ' <= c <= '~' {
    } else if c < '\U{10000}' {
      Hex4Ascii(c as int);
      AsciiAppend("\\u", Hex4(c as int));
    } else {
      var high, low := Hex4(HighSurrogate(c)), Hex4(LowSurrogate(c));
      Hex4Ascii(HighSurrogate(c));
      Hex4Ascii(LowSurrogate(c));
      AsciiAppend("\\u", high);
      AsciiAppend("\\u" + high, "\\u");
      AsciiAppend("\\u" + high + "\\u", low);
    }
  }

  /** Escaping gives ASCII of at most six bytes for each byte of UTF-8. */
  lemma {:induction false} EscapedBound(s: string)
    ensures Ascii(Escaped(s)) && |Escaped(s)| <= 6 * Utf8Length(s) && |Escaped(s)| <= 12 * |s|
  {
    if s != "" {
      EscapedCharBound(s[0]);
      EscapedBound(s[1..]);
    }
  }

  lemma {:induction false} AsciiLength(s: string)
    requires Ascii(s)
    ensures Utf8Length(s) == |s|
  {
    if s != "" {
      assert forall i | 0 <= i < |s[1..]| :: s[1..][i] == s[i + 1];
      AsciiLength(s[1..]);
    }
  }

  lemma {:induction false} DecimalBound(n: nat, digits: nat, power: nat)
    requires digits >= 1 && power == Power(digits) && n < power
    ensures Ascii(Decimal(n)) && 1 <= |Decimal(n)| <= digits
    decreases digits
  {
    if n >= 10 {
      DecimalBound(n / 10, digits - 1, Power(digits - 1));
    }
  }

  function Power(digits: nat): nat {
    if digits == 0 then 1 else 10 * Power(digits - 1)
  }

  lemma NineteenDigits()
    ensures Power(19) == 10_000_000_000_000_000_000
  {
    assert Power(5) == 100_000;
    assert Power(10) == 100_000 * Power(5);
    assert Power(15) == 100_000 * Power(10);
    assert Power(19) == 10_000 * Power(15);
  }

  lemma MemberBound(before: string, value: string, rest: string)
    requires Ascii(before) && Ascii(rest)
    ensures Ascii(Member(before, value, rest))
    ensures |Member(before, value, rest)| <= |before| + 6 * Utf8Length(value) + 2 + |rest|
    ensures |Member(before, value, rest)| <= |before| + 12 * |value| + 2 + |rest|
  {
    EscapedBound(value);
    var quote := "\"";
    AsciiAppend(quote, rest);
    AsciiAppend(Escaped(value), quote + rest);
    AsciiAppend(quote, Escaped(value) + (quote + rest));
    AsciiAppend(before, quote + (Escaped(value) + (quote + rest)));
  }

  lemma NumberBound(before: string, n: nat, rest: string)
    requires Ascii(before) && Ascii(rest) && n < 0x8000_0000_0000_0000
    ensures Ascii(NumberMember(before, n, rest)) && |NumberMember(before, n, rest)| <= |before| + 19 + |rest|
  {
    NineteenDigits();
    DecimalBound(n, 19, Power(19));
    AsciiAppend(Decimal(n), rest);
    AsciiAppend(before, Decimal(n) + rest);
  }

  lemma TrailerBound(e: LogEvent) returns (rest: string)
    requires Addressed(e)
    ensures rest == Member(",\"stream\":", e.stream, NumberMember("},\"seq\":", e.num, Member(",\"ts\":", e.ts, LOG_TRAILER)))
    ensures Ascii(rest) && |rest| <= 700
  {
    MemberBound(",\"ts\":", e.ts, LOG_TRAILER);
    rest := Member(",\"ts\":", e.ts, LOG_TRAILER);
    NumberBound("},\"seq\":", e.num, rest);
    rest := NumberMember("},\"seq\":", e.num, rest);
    MemberBound(",\"stream\":", e.stream, rest);
    rest := Member(",\"stream\":", e.stream, rest);
  }

  lemma UuidBound(before: string, id: string, rest: string)
    requires Ascii(before) && Ascii(rest) && |before| <= 20 && |id| == 36
    ensures Ascii(Member(before, id, rest)) && |Member(before, id, rest)| <= |rest| + 460
  {
    MemberBound(before, id, rest);
  }

  lemma HeadBound(e: LogEvent, rest: string) returns (json: string)
    requires Addressed(e) && Ascii(rest)
    ensures json == Member("{\"attempt_id\":", e.attempt, Member(",\"build_job_id\":", e.build,
                    Member(",\"engine_id\":", e.engine, Member(",\"id\":", e.id, rest))))
    ensures Ascii(json) && |json| <= |rest| + 1_840
  {
    UuidBound(",\"id\":", e.id, rest);
    json := Member(",\"id\":", e.id, rest);
    UuidBound(",\"engine_id\":", e.engine, json);
    json := Member(",\"engine_id\":", e.engine, json);
    UuidBound(",\"build_job_id\":", e.build, json);
    json := Member(",\"build_job_id\":", e.build, json);
    UuidBound("{\"attempt_id\":", e.attempt, json);
    json := Member("{\"attempt_id\":", e.attempt, json);
  }

  lemma JsonBound(e: LogEvent)
    requires Addressed(e)
    ensures Utf8Length(Json(e)) == |Json(e)| <= 6 * Utf8Length(e.data) + 3_100
  {
    var rest := TrailerBound(e);
    MemberBound(",\"payload\":{\"data\":", e.data, rest);
    var json := HeadBound(e, Member(",\"payload\":{\"data\":", e.data, rest));
    AsciiLength(json);
  }

  lemma SmallFrameAccepted(data: string, json: string)
    requires Utf8Length(json) == |json| <= 6 * Utf8Length(data) + 3_100
    ensures Checked(data, json) == if Fits(data) then Ok(json) else Err(LogTooLarge)
    ensures Fits(data) ==> |json| < MAX_FRAME_BYTES / 2
  {
  }

  /** The size check of `to_json` never rejects a log event that passes the log check, as every chunk does. */
  lemma FramedLogsFit(e: LogEvent)
    requires Addressed(e)
    ensures Encode(e) == if Fits(e.data) then Ok(Json(e)) else Err(LogTooLarge)
    ensures |Utf8.Encoded(e.data)| <= 65_536 ==> |Json(e)| < 1_048_576 / 2
  {
    JsonBound(e);
    SmallFrameAccepted(e.data, Json(e));
  }

  // ---------- reading an escaped string back ----------

  function HexValue(c: char): Option<nat> {
    if '0' <= c <= '9' then Some(c as int - '0' as int)
    else if 'a' <= c <= 'f' then Some(c as int - 'a' as int + 10)
    else None
  }

  function Unit(s: string): Option<nat> {
    if |s| < 4 then None
    else
      match (HexValue(s[0]), HexValue(s[1]), HexValue(s[2]), HexValue(s[3]))
      case (Some(a), Some(b), Some(c), Some(d)) => Some(a * 4096 + b * 256 + c * 16 + d)
      case _ => None
  }

  // The first character that an escaped string spells, and how many characters spell it.
  function FirstChar(s: string): Option<(char, nat)> {
    if s == "" then None
    else if s[0] != '\\' then Some((s[0], 1))
    else if |s| < 2 then None
    else match s[1]
      case '"' => Some(('"', 2))
      case '\\' => Some(('\\', 2))
      case 'n' => Some(('\n', 2))
      case 'r' => Some(('\r', 2))
      case 't' => Some(('\t', 2))
      case 'b' => Some(('\U{0008}', 2))
      case 'f' => Some(('\U{000C}', 2))
      case 'u' =>
        (match Unit(s[2..])
         case None => None
         case Some(n) =>
           if n < 0xD800 || 0xE000 <= n < 0x10000 then Some((n as char, 6))
           else if |s| < 12 || s[6..8] != "\\u" then None
           else match Unit(s[8..])
             case None => None
             case Some(m) =>
               if 0xD800 <= n < 0xDC00 && 0xDC00 <= m < 0xE000
               then Some(((0x10000 + (n - 0xD800) * 1024 + (m - 0xDC00)) as char, 12)) else None)
      case _ => None
  }

  function Unescaped(s: string): Option<string>
    decreases |s|
  {
    if s == "" then Some("")
    else match FirstChar(s)
      case None => None
      case Some((c, n)) =>
        if n == 0 || n > |s| then None
        else match Unescaped(s[n..])
          case None => None
          case Some(rest) => Some([c] + rest)
  }

  lemma HexDigitValue(n: nat)
    requires n < 16
    ensures HexValue(HexDigit(n)) == Some(n)
  {
  }

  lemma NibblesOf(n: nat)
    requires n < 0x10000
    ensures n == n / 4096 * 4096 + n / 256 % 16 * 256 + n / 16 % 16 * 16 + n % 16
  {
    var a := n / 16;
    var b := a / 16;
    assert n / 256 == b && n / 4096 == b / 16;
    assert n == a * 16 + n % 16;
    assert a == b * 16 + a % 16;
    assert b == b / 16 * 16 + b % 16;
  }

  lemma UnitOfHex4(n: nat, rest: string)
    requires n < 0x10000
    ensures Unit(Hex4(n) + rest) == Some(n)
  {
    HexDigitValue(n / 4096);
    HexDigitValue(n / 256 % 16);
    HexDigitValue(n / 16 % 16);
    HexDigitValue(n % 16);
    NibblesOf(n);
  }

  lemma ShortEscape(c: char, rest: string)
    requires c in {'"', '\\', '\n', '\r', '\t', '\U{0008}', '\U{000C}'} || ' ' <= c <= '~'
    ensures FirstChar(EscapedChar(c) + rest) == Some((c, |EscapedChar(c)|))
  {
  }

  lemma UnitEscape(c: char, rest: string)
    requires c !in {'"', '\\', '\n', '\r', '\t', '\U{0008}', '\U{000C}'} && !(' ' <= c <= '~') && c < '\U{10000}'
    ensures FirstChar(EscapedChar(c) + rest) == Some((c, 6))
  {
    var s := EscapedChar(c) + rest;
    UnitOfHex4(c as int, rest);
    assert s[2..] == Hex4(c as int) + rest;
  }

  lemma PairRead(n: nat, m: nat, rest: string)
    requires 0xD800 <= n < 0xDC00 <= m < 0xE000
    ensures FirstChar("\\u" + Hex4(n) + "\\u" + Hex4(m) + rest)
         == Some(((0x10000 + (n - 0xD800) * 1024 + (m - 0xDC00)) as char, 12))
  {
    var s := "\\u" + Hex4(n) + "\\u" + Hex4(m) + rest;
    UnitOfHex4(n, "\\u" + Hex4(m) + rest);
    assert s[2..] == Hex4(n) + ("\\u" + Hex4(m) + rest);
    UnitOfHex4(m, rest);
    assert s[8..] == Hex4(m) + rest;
    assert s[6..8] == "\\u";
    assert Unit(s[2..]) == Some(n) && Unit(s[8..]) == Some(m);
  }

  lemma PairEscape(c: char, rest: string)
    requires c >= '\U{10000}'
    ensures FirstChar(EscapedChar(c) + rest) == Some((c, 12))
  {
    PairRead(HighSurrogate(c), LowSurrogate(c), rest);
  }

  lemma FirstOfEscaped(c: char, rest: string)
    ensures FirstChar(EscapedChar(c) + rest) == Some((c, |EscapedChar(c)|))
  {
    if c in {'"', '\\', '\n', '\r', '\t', '\U{0008}', '\U{000C}'} || ' ' <= c <= '~' {
      ShortEscape(c, rest);
    } else if c < '\U{10000}' {
      UnitEscape(c, rest);
    } else {
      PairEscape(c, rest);
    }
  }

  /** Round trip: reading an escaped text gives the text back, so the frame carries the log unchanged. */
  lemma {:induction false} EscapeRoundTrip(s: string)
    ensures Unescaped(Escaped(s)) == Some(s)
  {
    if s != "" {
      EscapeRoundTrip(s[1..]);
      EscapedCharBound(s[0]);
      FirstOfEscaped(s[0], Escaped(s[1..]));
      assert Escaped(s)[|EscapedChar(s[0])|..] == Escaped(s[1..]);
      assert [s[0]] + s[1..] == s;
    }
  }

  // ---------- reading a frame back ----------

  function After(s: string, before: string): Option<string> {
    if |before| <= |s| && s[..|before|] == before then Some(s[|before|..]) else None
  }

  // The characters up to the closing quote, and what follows it.
  function ReadChars(s: string): Option<(string, string)>
    decreases |s|
  {
    if s == "" then None
    else if s[0] == '"' then Some(("", s[1..]))
    else match FirstChar(s)
      case None => None
      case Some((c, n)) =>
        if n == 0 || n > |s| then None
        else match ReadChars(s[n..])
          case None => None
          case Some((value, rest)) => Some(([c] + value, rest))
  }

  function ReadMember(s: string, before: string): Option<(string, string)> {
    match After(s, before + "\"")
    case None => None
    case Some(rest) => ReadChars(rest)
  }

  function LeadingDigits(s: string): nat {
    if s != "" && '0' <= s[0] <= '9' then 1 + LeadingDigits(s[1..]) else 0
  }

  function ValueOf(digits: string): nat {
    if digits == "" then 0
    else
      var last := digits[|digits| - 1];
      10 * ValueOf(digits[..|digits| - 1]) + (if '0' <= last <= '9' then last as int - '0' as int else 0)
  }

  function ReadNumber(s: string, before: string): Option<(nat, string)> {
    match After(s, before)
    case None => None
    case Some(rest) =>
      var n := LeadingDigits(rest);
      if n == 0 || n > |rest| then None else Some((ValueOf(rest[..n]), rest[n..]))
  }

  function ReadLog(s: string): Option<LogEvent> {
    match ReadMember(s, "{\"attempt_id\":") case None => None case Some((attempt, s1)) =>
    match ReadMember(s1, ",\"build_job_id\":") case None => None case Some((build, s2)) =>
    match ReadMember(s2, ",\"engine_id\":") case None => None case Some((engine, s3)) =>
    match ReadMember(s3, ",\"id\":") case None => None case Some((id, s4)) =>
    match ReadMember(s4, ",\"payload\":{\"data\":") case None => None case Some((data, s5)) =>
    match ReadMember(s5, ",\"stream\":") case None => None case Some((stream, s6)) =>
    match ReadNumber(s6, "},\"seq\":") case None => None case Some((num, s7)) =>
    match ReadMember(s7, ",\"ts\":") case None => None case Some((ts, s8)) =>
    if s8 == LOG_TRAILER then Some(LogEvent(attempt, build, engine, id, data, stream, num, ts)) else None
  }

  lemma CharRead(c: char, more: string, value: string, rest: string)
    requires ReadChars(more) == Some((value, rest))
    ensures ReadChars(EscapedChar(c) + more) == Some(([c] + value, rest))
  {
    var s := EscapedChar(c) + more;
    EscapedCharBound(c);
    FirstOfEscaped(c, more);
    NoQuoteFirst(c);
    assert s[0] == EscapedChar(c)[0];
    assert s[|EscapedChar(c)|..] == more;
  }

  lemma NothingRead(rest: string)
    ensures ReadChars(Escaped("") + ("\"" + rest)) == Some(("", rest))
  {
    var tail := "\"" + rest;
    assert Escaped("") + tail == tail;
    assert tail[0] == '"' && tail[1..] == rest;
  }

  lemma Unfolded(value: string, tail: string)
    requires value != ""
    ensures Escaped(value) + tail == EscapedChar(value[0]) + (Escaped(value[1..]) + tail)
  {
    Regrouped(EscapedChar(value[0]), Escaped(value[1..]), tail);
  }

  lemma Regrouped(first: string, middle: string, last: string)
    ensures (first + middle) + last == first + (middle + last)
  {
  }

  lemma {:induction false} CharsRead(value: string, rest: string)
    ensures ReadChars(Escaped(value) + ("\"" + rest)) == Some((value, rest))
  {
    if value == "" {
      NothingRead(rest);
    } else {
      CharsRead(value[1..], rest);
      CharRead(value[0], Escaped(value[1..]) + ("\"" + rest), value[1..], rest);
      Unfolded(value, "\"" + rest);
      assert [value[0]] + value[1..] == value;
    }
  }

  lemma NoQuoteFirst(c: char)
    ensures EscapedChar(c) != "" && EscapedChar(c)[0] != '"'
  {
  }

  lemma MemberRead(before: string, value: string, rest: string)
    ensures ReadMember(Member(before, value, rest), before) == Some((value, rest))
  {
    var inner := Escaped(value) + ("\"" + rest);
    var s := Member(before, value, rest);
    assert s == (before + "\"") + inner;
    assert s[..|before + "\""|] == before + "\"" && s[|before + "\""|..] == inner;
    CharsRead(value, rest);
  }

  lemma {:induction false} DecimalIsDigits(n: nat)
    ensures Decimal(n) != "" && forall i | 0 <= i < |Decimal(n)| :: '0' <= Decimal(n)[i] <= '9'
  {
    if n >= 10 { DecimalIsDigits(n / 10); }
  }

  lemma {:induction false} DecimalValue(n: nat)
    ensures ValueOf(Decimal(n)) == n
  {
    if n < 10 {
      assert Decimal(n)[..0] == "";
    } else {
      DecimalValue(n / 10);
      assert Decimal(n)[..|Decimal(n)| - 1] == Decimal(n / 10);
    }
  }

  lemma {:induction false} DigitsEnd(digits: string, rest: string)
    requires forall i | 0 <= i < |digits| :: '0' <= digits[i] <= '9'
    requires rest != "" && !('0' <= rest[0] <= '9')
    ensures LeadingDigits(digits + rest) == |digits|
  {
    if digits == "" {
      assert digits + rest == rest;
    } else {
      DigitsEnd(digits[1..], rest);
      assert (digits + rest)[1..] == digits[1..] + rest;
    }
  }

  lemma NumberRead(before: string, n: nat, rest: string)
    requires rest != "" && !('0' <= rest[0] <= '9')
    ensures ReadNumber(NumberMember(before, n, rest), before) == Some((n, rest))
  {
    var inner := Decimal(n) + rest;
    assert (before + inner)[..|before|] == before && (before + inner)[|before|..] == inner;
    DecimalIsDigits(n);
    DigitsEnd(Decimal(n), rest);
    DecimalValue(n);
    assert inner[..|Decimal(n)|] == Decimal(n) && inner[|Decimal(n)|..] == rest;
  }

  /** Round trip of a whole frame: the JSON of a log event gives the event back, each member in its place. */
  lemma FrameRoundTrip(e: LogEvent)
    ensures ReadLog(Json(e)) == Some(e)
  {
    var s8 := Member(",\"ts\":", e.ts, LOG_TRAILER);
    var s7 := NumberMember("},\"seq\":", e.num, s8);
    var s6 := Member(",\"stream\":", e.stream, s7);
    var s5 := Member(",\"payload\":{\"data\":", e.data, s6);
    var s4 := Member(",\"id\":", e.id, s5);
    var s3 := Member(",\"engine_id\":", e.engine, s4);
    var s2 := Member(",\"build_job_id\":", e.build, s3);
    MemberRead(",\"ts\":", e.ts, LOG_TRAILER);
    assert s8[0] == ',';
    NumberRead("},\"seq\":", e.num, s8);
    MemberRead(",\"stream\":", e.stream, s7);
    MemberRead(",\"payload\":{\"data\":", e.data, s6);
    MemberRead(",\"id\":", e.id, s5);
    MemberRead(",\"engine_id\":", e.engine, s4);
    MemberRead(",\"build_job_id\":", e.build, s3);
    MemberRead("{\"attempt_id\":", e.attempt, s2);
  }
}
