/** The encoder behind byte positions and the table of well-formed byte sequences behind the frame readers agree. */
module Encoding {
  import opened Text
  import opened Positions
  import opened Framing

  /** The scalar value of a sequence of the given length (RFC 3629, section 3). */
  function Decoded(s: string): int
    requires s != ""
  {
    match |s|
    case 1 => s[0] as int
    case 2 => (s[0] as int - 0xC0) * 64 + Low(s[1])
    case 3 => (s[0] as int - 0xE0) * 4096 + Low(s[1]) * 64 + Low(s[2])
    case _ => if |s| < 4 then 0
              else (s[0] as int - 0xF0) * 262144 + Low(s[1]) * 4096 + Low(s[2]) * 64 + Low(s[3])
  }

  /** The six low bits of a continuation byte. */
  function Low(c: char): int {
    c as int - 0x80
  }

  /** The bytes of a character are one well-formed sequence (RFC 3629, section 4), whatever follows, and decode to it. */
  lemma CharacterEncoded(c: char, rest: string)
    ensures SequenceLength(Utf8Char(c) + rest) == |Utf8Char(c)|
    ensures Decoded(Utf8Char(c)) == c as int
  {
    var u := c as int;
    if 0x800 <= u < 0x10000 {
      ThreeBytes(u);
    } else if u >= 0x10000 {
      FourBytes(u);
    }
  }

  lemma ThreeBytes(u: int)
    requires 0x800 <= u < 0x10000 && !(0xD800 <= u <= 0xDFFF)
    ensures u == u / 4096 * 4096 + u / 64 % 64 * 64 + u % 64
    ensures 0 <= u / 4096 <= 15 && 0 <= u / 64 % 64 < 64
    ensures u / 4096 == 0 ==> u / 64 % 64 >= 0x20
    ensures u / 4096 == 13 ==> u / 64 % 64 <= 0x1F
  {}

  lemma FourBytes(u: int)
    requires 0x10000 <= u < 0x110000
    ensures u == u / 262144 * 262144 + u / 4096 % 64 * 4096 + u / 64 % 64 * 64 + u % 64
    ensures 0 <= u / 262144 <= 4 && 0 <= u / 4096 % 64 < 64 && 0 <= u / 64 % 64 < 64
    ensures u / 262144 == 0 ==> u / 4096 % 64 >= 0x10
    ensures u / 262144 == 4 ==> u / 4096 % 64 <= 0x0F
  {}

  lemma {:induction false} EncodedConcat(text: string, rest: string)
    requires IsUtf8(rest)
    ensures IsUtf8(Utf8(text) + rest)
    decreases |text|
  {
    if text == [] {
      assert Utf8(text) + rest == rest;
    } else {
      var n := |text| - 1;
      var last := Utf8Char(text[n]);
      CharacterEncoded(text[n], rest);
      assert (last + rest)[|last|..] == rest;
      EncodedConcat(text[..n], last + rest);
      Assoc(Utf8(text[..n]), last, rest);
    }
  }

  /** The bytes of a text are well-formed UTF-8. */
  lemma TextEncoded(text: string)
    ensures IsUtf8(Utf8(text))
  {
    EncodedConcat(text, "");
    assert Utf8(text) + "" == Utf8(text);
  }
}
