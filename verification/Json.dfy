/** Escaping the purged key for the JSON response. */
module Json {
  import opened Bytes
  import opened FileNames

  const QUOTE: Octet := 34
  const BACKSLASH: Octet := 92
  const ZERO: Octet := 48
  const LETTER_U: Octet := 117

  function EscapedOctet(c: Octet): seq<Octet> {
    if c == QUOTE || c == BACKSLASH then [BACKSLASH, c]
    else if c < 0x20 then [BACKSLASH, LETTER_U, ZERO, ZERO, HexDigit(c / 16), HexDigit(c % 16)]
    else [c]
  }

  function Escaped(value: seq<Octet>): seq<Octet> {
    if value == [] then [] else Escaped(value[..|value| - 1]) + EscapedOctet(value[|value| - 1])
  }

  /** json_escaped_len counts what json_escape will write. */
  method EscapedLen(value: seq<Octet>) returns (len: nat)
    ensures len == |Escaped(value)|
  {
    len := |value|;
    for i := 0 to |value|
      invariant len == |Escaped(value[..i])| + |value| - i
    {
      assert value[..i + 1][..i] == value[..i];
      if value[i] == QUOTE || value[i] == BACKSLASH {
        len := len + 1;
        continue;
      }
      if value[i] < 0x20 {
        len := len + 5;
      }
    }
    assert value[..|value|] == value;
  }

  method Put(dst: array<Octet>, at: nat, bytes: seq<Octet>) returns (end: nat)
    requires at + |bytes| <= dst.Length
    modifies dst
    ensures end == at + |bytes| && dst[..end] == old(dst[..at]) + bytes && dst[end..] == old(dst[end..])
  {
    for i := 0 to |bytes|
      invariant dst[..at + i] == old(dst[..at]) + bytes[..i] && dst[at + i..] == old(dst[at + i..])
    {
      dst[at + i] := bytes[i];
    }
    end := at + |bytes|;
  }

  /** json_escape fills exactly the computed length, in a buffer at least that long. */
  method Escape(dst: array<Octet>, value: seq<Octet>) returns (end: nat)
    requires |Escaped(value)| <= dst.Length
    modifies dst
    ensures end == |Escaped(value)| && dst[..end] == Escaped(value) && dst[end..] == old(dst[end..])
  {
    end := 0;
    for i := 0 to |value|
      invariant end == |Escaped(value[..i])| <= dst.Length
      invariant dst[..end] == Escaped(value[..i]) && dst[end..] == old(dst[end..])
    {
      assert value[..i + 1][..i] == value[..i];
      EscapedPrefix(value, i + 1);
      end := Put(dst, end, EscapedOctet(value[i]));
    }
    assert value[..|value|] == value;
  }

  lemma {:induction false} EscapedPrefix(value: seq<Octet>, i: nat)
    requires i <= |value|
    ensures |Escaped(value[..i])| <= |Escaped(value)|
    decreases |value|
  {
    if i < |value| {
      EscapedPrefix(value[..|value| - 1], i);
      assert value[..|value| - 1][..i] == value[..i];
    } else {
      assert value[..i] == value;
    }
  }

  // ----- reading a JSON string back (section 7 of RFC 8259) -----

  /** The short escapes: quote, backslash, solidus, b, f, n, r and t. */
  function ShortEscape(c: Octet): Option<Octet> {
    if c == QUOTE || c == BACKSLASH || c == 47 then Some(c)
    else if c == 98 then Some(8)
    else if c == 102 then Some(12)
    else if c == 110 then Some(10)
    else if c == 114 then Some(13)
    else if c == 116 then Some(9)
    else None
  }

  /** The octets that a string body stands for. A raw quote, a raw control octet or
      a broken escape makes the body invalid; so does, here, an escape beyond ASCII. */
  function Unescaped(body: seq<Octet>): Option<seq<Octet>> {
    if body == [] then Some([])
    else if body[0] == BACKSLASH then
      if |body| >= 2 && ShortEscape(body[1]).Some? then
        Prepend(ShortEscape(body[1]).value, Unescaped(body[2..]))
      else if |body| >= 6 && body[1] == LETTER_U && body[2] == ZERO && body[3] == ZERO
              && IsHex(body[4]) && IsHex(body[5]) && HexValue(body[4]).value < 8 then
        Prepend(HexValue(body[4]).value * 16 + HexValue(body[5]).value, Unescaped(body[6..]))
      else None
    else if body[0] == QUOTE || body[0] < 0x20 then None
    else Prepend(body[0], Unescaped(body[1..]))
  }

  function Prepend(c: Octet, rest: Option<seq<Octet>>): Option<seq<Octet>> {
    if rest.None? then None else Some([c] + rest.value)
  }

  lemma OneOctet(c: Octet, rest: seq<Octet>)
    ensures Unescaped(EscapedOctet(c) + rest) == Prepend(c, Unescaped(rest))
  {
    var body := EscapedOctet(c) + rest;
    assert body[|EscapedOctet(c)|..] == rest;
    if c == QUOTE || c == BACKSLASH {
      assert body[0] == BACKSLASH && body[1] == c;
    } else if c < 0x20 {
      assert body[1] == LETTER_U && body[4] == HexDigit(c / 16) && body[5] == HexDigit(c % 16);
    }
  }

  lemma {:induction false} UnescapeInto(value: seq<Octet>, rest: seq<Octet>)
    requires Unescaped(rest).Some?
    ensures Unescaped(Escaped(value) + rest) == Some(value + Unescaped(rest).value)
  {
    hide EscapedOctet, Unescaped;
    if value == [] {
      assert Escaped(value) + rest == rest && value + Unescaped(rest).value == Unescaped(rest).value;
    } else {
      var n := |value| - 1;
      var tail := EscapedOctet(value[n]) + rest;
      OneOctet(value[n], rest);
      UnescapeInto(value[..n], tail);
      assert Escaped(value) + rest == Escaped(value[..n]) + tail;
      assert value[..n] + ([value[n]] + Unescaped(rest).value) == value + Unescaped(rest).value;
    }
  }

  /** What is written is a valid JSON string body, and reads back as the key. */
  lemma EscapeRoundTrip(value: seq<Octet>)
    ensures Unescaped(Escaped(value)) == Some(value)
  {
    UnescapeInto(value, []);
    assert Escaped(value) + [] == Escaped(value) && value + [] == value;
  }
}
