/** UTF-8 as section 3 of RFC 3629 defines it: `str.encode("utf-8")` and its strict inverse. */
module Utf8 {
  import opened Outcomes

  type Byte = b: int | 0 <= b < 256

  // 0xxxxxxx | 110xxxxx 10xxxxxx | 1110xxxx 10xxxxxx 10xxxxxx | 11110xxx 10xxxxxx 10xxxxxx 10xxxxxx
  function EncodedChar(c: char): (bytes: seq<Byte>)
    ensures |bytes| == if c < '\U{80}' then 1 else if c < '\U{800}' then 2 else if c < '\U{10000}' then 3 else 4
  {
    var n := c as int;
    if n < 0x80 then [n]
    else if n < 0x800 then [0xC0 + n / 0x40, Tail(n)]
    else if n < 0x10000 then [0xE0 + n / 0x40 / 0x40, Tail(n / 0x40), Tail(n)]
    else [0xF0 + n / 0x40 / 0x40 / 0x40, Tail(n / 0x40 / 0x40), Tail(n / 0x40), Tail(n)]
  }

  function Tail(n: nat): Byte {
    0x80 + n % 0x40
  }

  function Encoded(s: string): seq<Byte> {
    if s == "" then [] else EncodedChar(s[0]) + Encoded(s[1..])
  }

  // ---------- reading it back ----------

  predicate IsTail(bytes: seq<Byte>, i: nat) {
    i < |bytes| && 0x80 <= bytes[i] < 0xC0
  }

  // Six more bits.
  function Joined(high: int, tail: Byte): int {
    high * 0x40 + (tail as int - 0x80)
  }

  predicate Scalar(n: int) {
    0 <= n < 0xD800 || 0xE000 <= n < 0x110000
  }

  // The first character and its length; no value is accepted in more bytes than it needs.
  function FirstDecoded(bytes: seq<Byte>): Option<(char, nat)> {
    if bytes == [] then None
    else
      var b := bytes[0];
      if b < 0x80 then Some((b as char, 1))
      else if 0xC0 <= b < 0xE0 then
        if !IsTail(bytes, 1) then None
        else
          var n := Joined(b as int - 0xC0, bytes[1]);
          if n >= 0x80 then Some((n as char, 2)) else None
      else if 0xE0 <= b < 0xF0 then
        if !IsTail(bytes, 1) || !IsTail(bytes, 2) then None
        else
          var n := Joined(Joined(b as int - 0xE0, bytes[1]), bytes[2]);
          if n >= 0x800 && Scalar(n) then Some((n as char, 3)) else None
      else if 0xF0 <= b < 0xF8 then
        if !IsTail(bytes, 1) || !IsTail(bytes, 2) || !IsTail(bytes, 3) then None
        else
          var n := Joined(Joined(Joined(b as int - 0xF0, bytes[1]), bytes[2]), bytes[3]);
          if n >= 0x10000 && Scalar(n) then Some((n as char, 4)) else None
      else None
  }

  function Decoded(bytes: seq<Byte>): Option<string>
    decreases |bytes|
  {
    if bytes == [] then Some("")
    else match FirstDecoded(bytes)
      case None => None
      case Some((c, n)) =>
        if n == 0 || n > |bytes| then None
        else match Decoded(bytes[n..])
          case None => None
          case Some(rest) => Some([c] + rest)
  }

  // ---------- both directions ----------

  lemma JoinedTail(n: nat)
    ensures Joined(n / 0x40, Tail(n)) == n
  {
  }

  lemma TailJoined(high: nat, tail: Byte)
    requires 0x80 <= tail < 0xC0
    ensures Joined(high, tail) / 0x40 == high && Tail(Joined(high, tail)) == tail
  {
  }

  lemma FirstOfEncoded(c: char, rest: seq<Byte>)
    ensures FirstDecoded(EncodedChar(c) + rest) == Some((c, |EncodedChar(c)|))
  {
    var n := c as int;
    JoinedTail(n);
    JoinedTail(n / 0x40);
    JoinedTail(n / 0x40 / 0x40);
  }

  lemma DecodedIsEncoded(bytes: seq<Byte>)
    requires FirstDecoded(bytes).Some?
    ensures var (c, n) := FirstDecoded(bytes).value; n == |EncodedChar(c)| <= |bytes| && bytes[..n] == EncodedChar(c)
  {
    var b := bytes[0] as int;
    if b < 0x80 {
    } else if b < 0xE0 {
      TailJoined(b - 0xC0, bytes[1]);
    } else if b < 0xF0 {
      TailJoined(b - 0xE0, bytes[1]);
      TailJoined(Joined(b - 0xE0, bytes[1]), bytes[2]);
    } else {
      var high := Joined(b - 0xF0, bytes[1]);
      TailJoined(b - 0xF0, bytes[1]);
      TailJoined(high, bytes[2]);
      TailJoined(Joined(high, bytes[2]), bytes[3]);
    }
  }

  /** Round trip: every text is read back from its encoding. */
  lemma {:induction false} DecodeEncoded(s: string)
    ensures Decoded(Encoded(s)) == Some(s)
  {
    if s != "" {
      DecodeEncoded(s[1..]);
      FirstOfEncoded(s[0], Encoded(s[1..]));
      assert Encoded(s)[|EncodedChar(s[0])|..] == Encoded(s[1..]);
      assert [s[0]] + s[1..] == s;
    }
  }

  /** And nothing else is: bytes that can be read are the encoding of what is read. */
  lemma {:induction false} EncodeDecoded(bytes: seq<Byte>)
    requires Decoded(bytes).Some?
    ensures Encoded(Decoded(bytes).value) == bytes
    decreases |bytes|
  {
    if bytes != [] {
      var (c, n) := FirstDecoded(bytes).value;
      DecodedIsEncoded(bytes);
      EncodeDecoded(bytes[n..]);
      var rest := Decoded(bytes[n..]).value;
      assert ([c] + rest)[1..] == rest;
      assert bytes == bytes[..n] + bytes[n..];
    }
  }

  /** Examples of section 7 of RFC 3629, and one character of four bytes. */
  lemma Examples()
    ensures Encoded("A\U{2262}\U{391}.") == [0x41, 0xE2, 0x89, 0xA2, 0xCE, 0x91, 0x2E]
    ensures Encoded("\U{65E5}") == [0xE6, 0x97, 0xA5] && Encoded("\U{233B4}") == [0xF0, 0xA3, 0x8E, 0xB4]
  {
    var s := "A\U{2262}\U{391}.";
    assert s[1..] == "\U{2262}\U{391}." && s[1..][1..] == "\U{391}." && s[1..][1..][1..] == ".";
    assert Encoded(".") == [0x2E];
    assert "\U{65E5}"[1..] == "" && "\U{233B4}"[1..] == "";
  }

  /** The lengths are those of section 3: a text of k characters has one byte for each, and one more at U+0080, U+0800 and U+10000. */
  lemma {:induction false} LengthByRange(s: string)
    ensures |Encoded(s)| == |s| + CountFrom(s, '\U{80}') + CountFrom(s, '\U{800}') + CountFrom(s, '\U{10000}')
  {
    if s != "" { LengthByRange(s[1..]); }
  }

  function CountFrom(s: string, low: char): nat {
    if s == "" then 0 else (if s[0] >= low then 1 else 0) + CountFrom(s[1..], low)
  }
}
