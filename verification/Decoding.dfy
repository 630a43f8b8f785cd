// Reading UTF-8 back: characters and texts can be told from their bytes.
module Decoding {
  import opened Bytes

  function LengthFrom(first: Byte): nat {
    if first < 0x80 then 1 else if first < 0xe0 then 2 else if first < 0xf0 then 3 else 4
  }

  lemma LengthInFirstByte(c: char)
    ensures |EncodeChar(c)| == LengthFrom(EncodeChar(c)[0])
  {
  }

  // The code point of one encoded character.
  function CodePoint(a: seq<Byte>): int
    requires 1 <= |a| <= 4
  {
    match |a|
    case 1 => a[0] as int
    case 2 => (a[0] as int - 0xc0) * 64 + Low(a[1])
    case 3 => (a[0] as int - 0xe0) * 4096 + Low(a[1]) * 64 + Low(a[2])
    case _ => (a[0] as int - 0xf0) * 262144 + Low(a[1]) * 4096 + Low(a[2]) * 64 + Low(a[3])
  }

  // The bits a continuation byte carries.
  function Low(b: Byte): int {
    b as int - 0x80
  }

  lemma CharInBytes(c: char)
    ensures CodePoint(EncodeChar(c)) == c as int
  {
    var n := c as int;
    assert n / 4096 == n / 64 / 64 && n / 262144 == n / 64 / 64 / 64;
  }

  // The first character can be told from its bytes.
  lemma FirstCharReads(c: char, d: char, x: seq<Byte>, y: seq<Byte>)
    requires EncodeChar(c) + x == EncodeChar(d) + y
    ensures c == d && x == y
  {
    hide EncodeChar;
    var a, b := EncodeChar(c), EncodeChar(d);
    LengthInFirstByte(c);
    LengthInFirstByte(d);
    assert (a + x)[0] == a[0] && (b + y)[0] == b[0];
    SamePrefix(a, x, b, y);
    CharInBytes(c);
    CharInBytes(d);
  }

  lemma SamePrefix(a: seq<Byte>, x: seq<Byte>, b: seq<Byte>, y: seq<Byte>)
    requires a + x == b + y && |a| == |b|
    ensures a == b && x == y
  {
    assert a == (a + x)[..|a|] == (b + y)[..|b|] == b;
    assert x == (a + x)[|a|..] == (b + y)[|b|..] == y;
  }

  // Different texts have different bytes.
  lemma {:induction false} EncodeInjective(s: string, t: string)
    requires Encode(s) == Encode(t)
    ensures s == t
    decreases |s|
  {
    if s != "" && t != "" {
      FirstCharReads(s[0], t[0], Encode(s[1..]), Encode(t[1..]));
      EncodeInjective(s[1..], t[1..]);
      assert s == [s[0]] + s[1..] && t == [t[0]] + t[1..];
    }
  }
}
