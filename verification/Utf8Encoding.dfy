/**
 What `Utf8Size` counts: the bytes of the encoding of section 3 of RFC 3629, which is well formed and can
 be read back.
 */
module Utf8Encoding {
  import opened Utf8Text
  import opened ContextItems

  function EncodeChar(c: char): (t: Text)
    ensures |t| == Utf8Width(c)
  {
    var n := c as int;
    if n < 0x80 then [n as Byte]
    else if n < 0x800 then [(0xC0 + n / 0x40) as Byte, Low(n)]
    else if n < 0x1_0000 then [(0xE0 + n / 0x1000) as Byte, Low(n / 0x40), Low(n)]
    else [(0xF0 + n / 0x4_0000) as Byte, Low(n / 0x1000), Low(n / 0x40), Low(n)]
  }

  function Low(n: int): Byte
    requires n >= 0
  {
    (0x80 + n % 0x40) as Byte
  }

  /** The six low bits of a continuation byte. */
  function Bits(b: Byte): int {
    b as int % 0x40
  }

  /** The number that the first character of well-formed text stands for. */
  function CodePoint(t: Text): int
    requires CharLength(t) > 0
  {
    var first := t[0] as int;
    match CharLength(t)
    case 1 => first
    case 2 => first % 0x20 * 0x40 + Bits(t[1])
    case 3 => first % 0x10 * 0x1000 + Bits(t[1]) * 0x40 + Bits(t[2])
    case _ => first % 8 * 0x4_0000 + Bits(t[1]) * 0x1000 + Bits(t[2]) * 0x40 + Bits(t[3])
  }

  lemma TwoByteChar(x: int, y: int)
    requires 2 <= x < 0x20 && 0 <= y < 0x40
    ensures var t: Text := [(0xC0 + x) as Byte, (0x80 + y) as Byte]; CharLength(t) == 2 && CodePoint(t) == x * 0x40 + y
  {
  }

  lemma ThreeByteChar(x: int, y: int, z: int)
    requires 0 <= x < 0x10 && 0 <= y < 0x40 && 0 <= z < 0x40
    requires (x == 0 ==> y >= 0x20) && (x == 0xD ==> y < 0x20)
    ensures var t: Text := [(0xE0 + x) as Byte, (0x80 + y) as Byte, (0x80 + z) as Byte];
      CharLength(t) == 3 && CodePoint(t) == x * 0x1000 + y * 0x40 + z
  {
  }

  lemma FourByteChar(w: int, x: int, y: int, z: int)
    requires 0 <= w < 5 && 0 <= x < 0x40 && 0 <= y < 0x40 && 0 <= z < 0x40
    requires (w == 0 ==> x >= 0x10) && (w == 4 ==> x < 0x10)
    ensures var t: Text := [(0xF0 + w) as Byte, (0x80 + x) as Byte, (0x80 + y) as Byte, (0x80 + z) as Byte];
      CharLength(t) == 4 && CodePoint(t) == w * 0x4_0000 + x * 0x1000 + y * 0x40 + z
  {
  }

  /** The encoding of a character is one well-formed character, and it stands for that character. */
  lemma EncodedCharIsRead(c: char)
    ensures var t := EncodeChar(c); CharLength(t) == |t| > 0 && CodePoint(t) == c as int
  {
    hide CharLength, CodePoint;
    var n := c as int;
    if n < 0x80 {
      OneByteChar(n);
    } else if n < 0x800 {
      TwoByteChar(n / 0x40, n % 0x40);
    } else if n < 0x1_0000 {
      ThreeBytes(n);
      ThreeByteChar(n / 0x1000, n / 0x40 % 0x40, n % 0x40);
    } else {
      FourBytes(n);
      FourByteChar(n / 0x4_0000, n / 0x1000 % 0x40, n / 0x40 % 0x40, n % 0x40);
    }
  }

  lemma OneByteChar(n: int)
    requires 0 <= n < 0x80
    ensures CharLength([n as Byte]) == 1 && CodePoint([n as Byte]) == n
  {
  }

  lemma ThreeBytes(n: int)
    requires 0x800 <= n < 0x1_0000 && !(0xD800 <= n < 0xE000)
    ensures n == n / 0x1000 * 0x1000 + n / 0x40 % 0x40 * 0x40 + n % 0x40 && n / 0x1000 < 0x10
    ensures n / 0x1000 == 0 ==> n / 0x40 % 0x40 >= 0x20
    ensures n / 0x1000 == 0xD ==> n / 0x40 % 0x40 < 0x20
  {
    assert n / 0x1000 == n / 0x40 / 0x40;
  }

  lemma FourBytes(n: int)
    requires 0x1_0000 <= n < 0x11_0000
    ensures n == n / 0x4_0000 * 0x4_0000 + n / 0x1000 % 0x40 * 0x1000 + n / 0x40 % 0x40 * 0x40 + n % 0x40
    ensures n / 0x4_0000 < 5
    ensures n / 0x4_0000 == 0 ==> n / 0x1000 % 0x40 >= 0x10
    ensures n / 0x4_0000 == 4 ==> n / 0x1000 % 0x40 < 0x10
  {
    assert n / 0x1000 == n / 0x40 / 0x40 && n / 0x4_0000 == n / 0x1000 / 0x40;
  }

  function Encode(s: string): Text {
    if s == [] then [] else EncodeChar(s[0]) + Encode(s[1..])
  }

  /** The encoding of text is well formed and as long as `Utf8Size` says. */
  lemma {:induction false} EncodedIsValid(s: string)
    ensures ValidUtf8(Encode(s)) && |Encode(s)| == Utf8Size(s)
  {
    hide EncodeChar, CharLength;
    if s == [] {
    } else {
      EncodedCharIsRead(s[0]);
      EncodedIsValid(s[1..]);
      OneCharIsValid(EncodeChar(s[0]));
      ConcatIsValid(EncodeChar(s[0]), Encode(s[1..]));
    }
  }

  lemma OneCharIsValid(t: Text)
    requires CharLength(t) == |t| > 0
    ensures ValidUtf8(t)
  {
    assert t[|t|..] == [];
  }
}
