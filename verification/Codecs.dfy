// The text encoders, each with a decoder that undoes it on every input.
module Codecs {
  import opened Text
  import opened Bytes
  import opened Decoding
  import Expander

  // ---- Hexadecimal cursor ids, section 8 of RFC 4648

  function HexDigit(n: nat): char
    requires n < 16
  {
    if n < 10 then ('0' as int + n) as char else ('a' as int + n - 10) as char
  }

  function HexEncode(b: seq<Byte>): string {
    if b == [] then "" else [HexDigit(b[0] as int / 16), HexDigit(b[0] as int % 16)] + HexEncode(b[1..])
  }

  method EncodeHex(b: seq<Byte>) returns (out: string)
    ensures out == HexEncode(b)
  {
    out := "";
    assert b[0..] == b;
    for k := 0 to |b|
      invariant out + HexEncode(b[k..]) == HexEncode(b)
    {
      assert b[k..][0] == b[k] && b[k..][1..] == b[k + 1..];
      out := out + [HexDigit(b[k] as int / 16)];
      out := out + [HexDigit(b[k] as int % 16)];
    }
    assert out + "" == out;
  }

  // Either case is accepted.
  function FromHexDigit(c: char): (r: Option<nat>)
    ensures r.Some? ==> r.value < 16
  {
    if '0' <= c <= '9' then Some(c as int - '0' as int)
    else if 'a' <= c <= 'f' then Some(c as int - 'a' as int + 10)
    else if 'A' <= c <= 'F' then Some(c as int - 'A' as int + 10)
    else None
  }

  function HexDecode(s: string): Option<seq<Byte>> {
    if s == "" then Some([])
    else if |s| == 1 then None
    else
      var hi, lo, rest := FromHexDigit(s[0]), FromHexDigit(s[1]), HexDecode(s[2..]);
      if hi.None? || lo.None? || rest.None? then None
      else Some([(16 * hi.value + lo.value) as Byte] + rest.value)
  }

  const ID_BYTES := 16

  // `hex_decode_id`: the length is checked in bytes, before any digit.
  method HexDecodeId(s: string) returns (r: Option<seq<Byte>>)
    ensures r == if |Encode(s)| == 32 then HexDecode(s) else None
  {
    if |Encode(s)| != 2 * ID_BYTES {
      return None;
    }
    hide HexDecode;
    var out: seq<Byte> := [];
    var i := 0;
    Decoded([], s, s);
    assert s[0..] == s;
    while i + 2 <= |s|
      invariant 0 <= i <= |s| && HexDecode(s) == Prefixed(out, HexDecode(s[i..]))
    {
      HexStep(s[i..]);
      var hi, lo := FromHexDigit(s[i]), FromHexDigit(s[i + 1]);
      assert s[i..][2..] == s[i + 2..];
      if hi.None? || lo.None? {
        return None;
      }
      ghost var rest := HexDecode(s[i + 2..]);
      if rest.Some? {
        Assoc(out, [(16 * hi.value + lo.value) as Byte], rest.value);
      }
      out := out + [(16 * hi.value + lo.value) as Byte];
      i := i + 2;
    }
    HexEnd(s[i..]);
    if i < |s| {
      return None;
    }
    assert out + [] == out;
    r := Some(out);
  }

  function Prefixed(out: seq<Byte>, rest: Option<seq<Byte>>): Option<seq<Byte>> {
    if rest.Some? then Some(out + rest.value) else None
  }

  lemma Decoded(out: seq<Byte>, s: string, rest: string)
    requires out == [] && s == rest
    ensures HexDecode(s) == Prefixed(out, HexDecode(rest))
  {
    if HexDecode(s).Some? {
      assert [] + HexDecode(s).value == HexDecode(s).value;
    }
  }

  lemma HexStep(s: string)
    requires |s| >= 2
    ensures var hi, lo := FromHexDigit(s[0]), FromHexDigit(s[1]);
      HexDecode(s) == if hi.None? || lo.None? then None
                      else Prefixed([(16 * hi.value + lo.value) as Byte], HexDecode(s[2..]))
  {
  }

  lemma HexEnd(s: string)
    requires |s| < 2
    ensures HexDecode(s) == if s == "" then Some([]) else None
  {
  }

  predicate IsHex(s: string) {
    |s| % 2 == 0 && forall k | 0 <= k < |s| :: FromHexDigit(s[k]).Some?
  }

  function LowerHex(s: string): string
    requires forall k | 0 <= k < |s| :: FromHexDigit(s[k]).Some?
  {
    if s == "" then "" else [HexDigit(FromHexDigit(s[0]).value)] + LowerHex(s[1..])
  }

  lemma DigitsOf(b: Byte)
    ensures FromHexDigit(HexDigit(b as int / 16)) == Some(b as int / 16)
    ensures FromHexDigit(HexDigit(b as int % 16)) == Some(b as int % 16)
    ensures FromHexDigit(UpperHexDigit(b as int / 16)) == Some(b as int / 16)
    ensures FromHexDigit(UpperHexDigit(b as int % 16)) == Some(b as int % 16)
    ensures (16 * (b as int / 16) + b as int % 16) as Byte == b
  {
  }

  // Decoding undoes encoding; what can be decoded is what is hexadecimal, and
  // encoding it again only changes the case of its letters.
  lemma {:induction false} HexRoundTrip(b: seq<Byte>)
    ensures HexDecode(HexEncode(b)) == Some(b) && |HexEncode(b)| == 2 * |b|
    ensures forall c | c in HexEncode(b) :: '0' <= c <= '9' || 'a' <= c <= 'f'
  {
    if b != [] {
      HexRoundTrip(b[1..]);
      DigitsOf(b[0]);
      var s := HexEncode(b);
      assert s[2..] == HexEncode(b[1..]);
      assert [b[0]] + b[1..] == b;
    }
  }

  // Each byte is written as the digits of its upper and its lower half.
  lemma {:induction false} HexDigitsInOrder(b: seq<Byte>, k: nat)
    requires k < |b|
    ensures var s := HexEncode(b);
      && |s| == 2 * |b|
      && s[2 * k] == "0123456789abcdef"[b[k] as int / 16] && s[2 * k + 1] == "0123456789abcdef"[b[k] as int % 16]
  {
    HexRoundTrip(b);
    EncodeStep(b[0], b[1..]);
    assert [b[0]] + b[1..] == b;
    hide HexEncode, HexDecode, HexDigit;
    if k > 0 {
      HexDigitsInOrder(b[1..], k - 1);
      var s, rest := HexEncode(b), HexEncode(b[1..]);
      assert s[2 * k] == rest[2 * (k - 1)] && s[2 * k + 1] == rest[2 * (k - 1) + 1];
    } else {
      LowerDigit(b[0] as int / 16);
      LowerDigit(b[0] as int % 16);
    }
  }

  lemma LowerDigit(n: nat)
    requires n < 16
    ensures HexDigit(n) == "0123456789abcdef"[n]
  {
  }

  lemma {:induction false} HexDecodesExactly(s: string)
    ensures HexDecode(s).Some? <==> IsHex(s)
    ensures IsHex(s) ==> HexEncode(HexDecode(s).value) == LowerHex(s)
    decreases |s|
  {
    hide HexDecode, HexEncode, LowerHex;
    if |s| < 2 {
      HexEnd(s);
      EncodeStep(0, []);
      if s == "" {
        LowerStep(s);
      }
    } else {
      HexDecodesExactly(s[2..]);
      HexStep(s);
      TailIsHex(s);
      if IsHex(s) {
        LowerStep(s);
        var hi, lo := FromHexDigit(s[0]).value, FromHexDigit(s[1]).value;
        EncodeStep((16 * hi + lo) as Byte, HexDecode(s[2..]).value);
        assert (16 * hi + lo) / 16 == hi && (16 * hi + lo) % 16 == lo;
      }
    }
  }

  lemma TailIsHex(s: string)
    requires |s| >= 2
    ensures IsHex(s) <==> FromHexDigit(s[0]).Some? && FromHexDigit(s[1]).Some? && IsHex(s[2..])
  {
    assert forall k | 0 <= k < |s[2..]| :: s[2..][k] == s[k + 2];
    if FromHexDigit(s[0]).Some? && FromHexDigit(s[1]).Some? && IsHex(s[2..]) {
      forall k | 0 <= k < |s| ensures FromHexDigit(s[k]).Some? {
        if k >= 2 {
          assert s[k] == s[2..][k - 2];
        }
      }
    }
  }

  lemma LowerStep(s: string)
    requires IsHex(s)
    ensures LowerHex(s) == if s == "" then ""
      else [HexDigit(FromHexDigit(s[0]).value), HexDigit(FromHexDigit(s[1]).value)] + LowerHex(s[2..])
  {
    if s != "" {
      assert s[1..][1..] == s[2..];
    }
  }

  lemma EncodeStep(b: Byte, rest: seq<Byte>)
    ensures HexEncode([b] + rest) == [HexDigit(b as int / 16), HexDigit(b as int % 16)] + HexEncode(rest)
    ensures HexEncode([]) == ""
  {
    assert ([b] + rest)[1..] == rest;
  }

  // ---- Percent-encoding, sections 2.1 and 2.3 of RFC 3986

  // Unreserved characters, and `/` so that a target keeps its segments.
  predicate KeptInPath(b: Byte) {
    65 <= b <= 90 || 97 <= b <= 122 || 48 <= b <= 57 || b == 45 || b == 46 || b == 95 || b == 126 || b == 47
  }

  function UpperHexDigit(n: nat): char
    requires n < 16
  {
    if n < 10 then ('0' as int + n) as char else ('A' as int + n - 10) as char
  }

  function EncodeByte(b: Byte): string {
    if KeptInPath(b) then [(b as int) as char]
    else ['%', UpperHexDigit(b as int / 16), UpperHexDigit(b as int % 16)]
  }

  function PercentEncode(b: seq<Byte>): string {
    if b == [] then "" else EncodeByte(b[0]) + PercentEncode(b[1..])
  }

  function PercentDecode(s: string): Option<seq<Byte>> {
    if s == "" then Some([])
    else if s[0] == '%' then
      if |s| < 3 || FromHexDigit(s[1]).None? || FromHexDigit(s[2]).None? then None
      else
        var rest := PercentDecode(s[3..]);
        if rest.None? then None
        else Some([(16 * FromHexDigit(s[1]).value + FromHexDigit(s[2]).value) as Byte] + rest.value)
    else if s[0] as int >= 128 then None
    else
      var rest := PercentDecode(s[1..]);
      if rest.None? then None else Some([(s[0] as int) as Byte] + rest.value)
  }

  lemma {:induction false} PercentRoundTrip(b: seq<Byte>)
    ensures PercentDecode(PercentEncode(b)) == Some(b)
  {
    hide PercentDecode, EncodeByte;
    if b == [] {
      NothingToDecode();
    } else {
      PercentRoundTrip(b[1..]);
      DecodeByte(b[0], PercentEncode(b[1..]));
      assert [b[0]] + b[1..] == b;
    }
  }

  lemma NothingToDecode()
    ensures PercentDecode("") == Some([])
  {
  }

  lemma DecodeByte(b: Byte, rest: string)
    ensures PercentDecode(EncodeByte(b) + rest) == Prefixed([b], PercentDecode(rest))
  {
    DigitsOf(b);
    var s := EncodeByte(b) + rest;
    assert s[0] == EncodeByte(b)[0] && s[|EncodeByte(b)|..] == rest;
    if !KeptInPath(b) {
      assert s[1] == EncodeByte(b)[1] && s[2] == EncodeByte(b)[2];
    }
  }

  // `encode_path_segment`
  function EncodePathSegment(target: string): string {
    PercentEncode(Encode(target))
  }

  method EncodePath(input: string) returns (out: string)
    ensures out == EncodePathSegment(input)
  {
    var b := Encode(input);
    out := "";
    assert b[0..] == b;
    for k := 0 to |b|
      invariant out + PercentEncode(b[k..]) == PercentEncode(b)
    {
      assert b[k..][0] == b[k] && b[k..][1..] == b[k + 1..];
      Assoc(out, EncodeByte(b[k]), PercentEncode(b[k + 1..]));
      out := out + EncodeByte(b[k]);
    }
    assert out + "" == out;
  }

  // Different targets have different paths.
  lemma PathsAreDistinct(a: string, b: string)
    requires EncodePathSegment(a) == EncodePathSegment(b)
    ensures a == b
  {
    PercentRoundTrip(Encode(a));
    PercentRoundTrip(Encode(b));
    EncodeInjective(a, b);
  }

  // ---- Which characters a path is made of

  // The characters a path keeps.
  predicate KeptChar(c: char) {
    'A' <= c <= 'Z' || 'a' <= c <= 'z' || '0' <= c <= '9' || c in "-._~/"
  }

  predicate UpperHex(c: char) {
    c in "0123456789ABCDEF"
  }

  // Kept characters, and `%` followed by two upper-case digits.
  predicate WellEscaped(s: string) {
    if s == "" then true
    else if s[0] == '%' then |s| >= 3 && UpperHex(s[1]) && UpperHex(s[2]) && WellEscaped(s[3..])
    else KeptChar(s[0]) && WellEscaped(s[1..])
  }

  lemma UpperDigits(n: nat)
    requires n < 16
    ensures UpperHex(UpperHexDigit(n)) && UpperHexDigit(n) == "0123456789ABCDEF"[n]
  {
    assert "0123456789ABCDEF"[n] == UpperHexDigit(n);
  }

  lemma KeptIff(b: Byte)
    ensures KeptInPath(b) <==> b < 128 && KeptChar((b as int) as char)
  {
    assert "-._~/" == ['-', '.', '_', '~', '/'];
  }

  // A byte that is not kept is its two digits behind a percent sign.
  lemma ByteInPath(b: Byte)
    ensures EncodeByte(b) == if b < 128 && KeptChar((b as int) as char) then [(b as int) as char]
                             else ['%', "0123456789ABCDEF"[b as int / 16], "0123456789ABCDEF"[b as int % 16]]
  {
    KeptIff(b);
    hide KeptChar, KeptInPath;
    UpperDigits(b as int / 16);
    UpperDigits(b as int % 16);
  }

  lemma {:induction false} PathIsWellEscaped(b: seq<Byte>)
    ensures WellEscaped(PercentEncode(b))
  {
    if b != [] {
      PathIsWellEscaped(b[1..]);
      KeptIff(b[0]);
      UpperDigits(b[0] as int / 16);
      UpperDigits(b[0] as int % 16);
      hide UpperHex, KeptChar, UpperHexDigit, KeptInPath;
      ByteThenRest(b[0], PercentEncode(b[1..]));
    }
  }

  lemma ByteThenRest(b: Byte, rest: string)
    requires UpperHex(UpperHexDigit(b as int / 16)) && UpperHex(UpperHexDigit(b as int % 16)) && WellEscaped(rest)
    requires KeptInPath(b) ==> KeptChar((b as int) as char) && b != 37
    ensures WellEscaped(EncodeByte(b) + rest)
  {
    hide UpperHex, KeptChar, UpperHexDigit, KeptInPath;
    var s := EncodeByte(b) + rest;
    if KeptInPath(b) {
      assert s[0] == (b as int) as char && s[1..] == rest;
    } else {
      assert s[0] == '%' && s[1] == EncodeByte(b)[1] && s[2] == EncodeByte(b)[2] && s[3..] == rest;
    }
  }

  lemma {:induction false} PercentBoth(a: seq<Byte>, b: seq<Byte>)
    ensures PercentEncode(a + b) == PercentEncode(a) + PercentEncode(b)
    ensures |PercentEncode(a)| >= |a|
  {
    hide EncodeByte;
    if a == [] {
      assert a + b == b;
    } else {
      assert (a + b)[1..] == a[1..] + b;
      PercentBoth(a[1..], b);
      Assoc(EncodeByte(a[0]), PercentEncode(a[1..]), PercentEncode(b));
      ByteIsWritten(a[0]);
    }
  }

  lemma ByteIsWritten(b: Byte)
    ensures EncodeByte(b) != ""
  {
  }

  // A character is written as it is, or in three or more.
  lemma CharInPath(c: char)
    ensures KeptChar(c) ==> PercentEncode(EncodeChar(c)) == [c]
    ensures !KeptChar(c) ==> |PercentEncode(EncodeChar(c))| >= 3
  {
    var b := EncodeChar(c);
    if (c as int) < 128 {
      KeptIff(b[0]);
      hide KeptChar, KeptInPath;
      assert b[1..] == [] && PercentEncode([]) == "";
      assert PercentEncode(b) == EncodeByte(b[0]) + "" == EncodeByte(b[0]);
    } else {
      FirstByteIsHigh(c);
      HighIsLong(b);
    }
  }

  lemma FirstByteIsHigh(c: char)
    requires c as int >= 128
    ensures !KeptChar(c) && !KeptInPath(EncodeChar(c)[0])
  {
    assert "-._~/" == ['-', '.', '_', '~', '/'];
  }

  lemma HighIsLong(b: seq<Byte>)
    requires b != [] && !KeptInPath(b[0])
    ensures |PercentEncode(b)| >= 3
  {
    assert |EncodeByte(b[0])| == 3;
  }

  lemma PathOfFirst(target: string)
    requires target != ""
    ensures EncodePathSegment(target) == PercentEncode(EncodeChar(target[0])) + EncodePathSegment(target[1..])
  {
    PercentBoth(EncodeChar(target[0]), Encode(target[1..]));
  }

  // Exactly the targets made of kept characters are their own paths; every other
  // target gets longer.
  lemma {:induction false} PathIsTargetIff(target: string)
    ensures EncodePathSegment(target) == target <==> forall c | c in target :: KeptChar(c)
    ensures |EncodePathSegment(target)| >= |target|
    ensures (exists c | c in target :: !KeptChar(c)) ==> |EncodePathSegment(target)| > |target|
  {
    hide KeptChar, PercentEncode, EncodePathSegment;
    if target == "" {
      EmptyPath();
    } else {
      var c, rest := target[0], target[1..];
      PathOfFirst(target);
      CharInPath(c);
      PathIsTargetIff(rest);
      assert target == [c] + rest;
      assert forall x :: x in target <==> x == c || x in rest;
      assert ([c] + EncodePathSegment(rest))[1..] == EncodePathSegment(rest);
    }
  }

  lemma EmptyPath()
    ensures EncodePathSegment("") == ""
  {
  }

  // ---- XML entities

  // `str::replace` of one character.
  function Replace(s: string, c: char, sub: string): string {
    if s == "" then "" else (if s[0] == c then sub else [s[0]]) + Replace(s[1..], c, sub)
  }

  function XmlEscape(s: string): string {
    Replace(Replace(Replace(Replace(Replace(s, '&', "&amp;"), '<', "&lt;"), '>', "&gt;"), '"', "&quot;"), '\'', "&apos;")
  }

  function Entity(c: char): string {
    match c
    case '&' => "&amp;"
    case '<' => "&lt;"
    case '>' => "&gt;"
    case '"' => "&quot;"
    case '\'' => "&apos;"
    case _ => [c]
  }

  // One character at a time.
  function EscapeEach(s: string): string {
    if s == "" then "" else Entity(s[0]) + EscapeEach(s[1..])
  }

  lemma {:induction false} ReplaceAppend(a: string, b: string, c: char, sub: string)
    ensures Replace(a + b, c, sub) == Replace(a, c, sub) + Replace(b, c, sub)
  {
    if a == "" {
      assert a + b == b;
    } else {
      assert (a + b)[1..] == a[1..] + b;
      ReplaceAppend(a[1..], b, c, sub);
    }
  }

  lemma {:induction false} ReplaceNothing(s: string, c: char, sub: string)
    requires c !in s
    ensures Replace(s, c, sub) == s
  {
    if s != "" {
      ReplaceNothing(s[1..], c, sub);
    }
  }

  // The later replacements do not touch what the earlier ones have written.
  lemma EscapeFirst(c: char)
    ensures XmlEscape([c]) == Entity(c)
  {
    hide Replace;
    var a := ReplaceOne(c, '&', "&amp;");
    ReplaceSingle(c, '&', "&amp;");
    if c == '&' {
      ReplaceNothing("&amp;", '<', "&lt;");
      ReplaceNothing("&amp;", '>', "&gt;");
      ReplaceNothing("&amp;", '"', "&quot;");
      ReplaceNothing("&amp;", '\'', "&apos;");
    } else {
      ReplaceSingle(c, '<', "&lt;");
      if c == '<' {
        ReplaceNothing("&lt;", '>', "&gt;");
        ReplaceNothing("&lt;", '"', "&quot;");
        ReplaceNothing("&lt;", '\'', "&apos;");
      } else {
        ReplaceSingle(c, '>', "&gt;");
        if c == '>' {
          ReplaceNothing("&gt;", '"', "&quot;");
          ReplaceNothing("&gt;", '\'', "&apos;");
        } else {
          ReplaceSingle(c, '"', "&quot;");
          if c == '"' {
            ReplaceNothing("&quot;", '\'', "&apos;");
          } else {
            ReplaceSingle(c, '\'', "&apos;");
          }
        }
      }
    }
  }

  function ReplaceOne(x: char, c: char, sub: string): string {
    if x == c then sub else [x]
  }

  lemma ReplaceSingle(x: char, c: char, sub: string)
    ensures Replace([x], c, sub) == ReplaceOne(x, c, sub)
  {
    assert [x][1..] == "";
  }

  // Five replacements in a row are one pass over the characters.
  lemma {:induction false} FivePassesAreOne(s: string)
    ensures XmlEscape(s) == EscapeEach(s)
  {
    if s != "" {
      var c, rest := [s[0]], s[1..];
      assert s == c + rest;
      FivePassesAreOne(rest);
      EscapeFirst(s[0]);
      hide Replace;
      ReplaceAppend(c, rest, '&', "&amp;");
      var c1, r1 := Replace(c, '&', "&amp;"), Replace(rest, '&', "&amp;");
      ReplaceAppend(c1, r1, '<', "&lt;");
      var c2, r2 := Replace(c1, '<', "&lt;"), Replace(r1, '<', "&lt;");
      ReplaceAppend(c2, r2, '>', "&gt;");
      var c3, r3 := Replace(c2, '>', "&gt;"), Replace(r2, '>', "&gt;");
      ReplaceAppend(c3, r3, '"', "&quot;");
      var c4, r4 := Replace(c3, '"', "&quot;"), Replace(r3, '"', "&quot;");
      ReplaceAppend(c4, r4, '\'', "&apos;");
    }
  }

  // Reading both spellings of the apostrophe.
  function Unescape(s: string): string {
    if s == "" then ""
    else if "&amp;" <= s then "&" + Unescape(s[5..])
    else if "&lt;" <= s then "<" + Unescape(s[4..])
    else if "&gt;" <= s then ">" + Unescape(s[4..])
    else if "&quot;" <= s then "\"" + Unescape(s[6..])
    else if "&apos;" <= s then "'" + Unescape(s[6..])
    else if "&#39;" <= s then "'" + Unescape(s[5..])
    else [s[0]] + Unescape(s[1..])
  }

  predicate MarkupFree(s: string) {
    '<' !in s && '>' !in s && '"' !in s && '\'' !in s
  }

  lemma AmpReads(rest: string)
    ensures Unescape("&amp;" + rest) == "&" + Unescape(rest)
  {
    assert ("&amp;" + rest)[5..] == rest;
  }

  lemma LtReads(rest: string)
    ensures Unescape("&lt;" + rest) == "<" + Unescape(rest)
  {
    var s := "&lt;" + rest;
    assert s[4..] == rest && s[1] == 'l';
  }

  lemma GtReads(rest: string)
    ensures Unescape("&gt;" + rest) == ">" + Unescape(rest)
  {
    var s := "&gt;" + rest;
    assert s[4..] == rest && s[1] == 'g';
  }

  lemma QuotReads(rest: string)
    ensures Unescape("&quot;" + rest) == "\"" + Unescape(rest)
  {
    var s := "&quot;" + rest;
    assert s[6..] == rest && s[1] == 'q';
  }

  lemma AposReads(rest: string)
    ensures Unescape("&apos;" + rest) == "'" + Unescape(rest)
    ensures Unescape("&#39;" + rest) == "'" + Unescape(rest)
  {
    var s, t := "&apos;" + rest, "&#39;" + rest;
    assert s[6..] == rest && s[1] == 'a' && s[2] == 'p';
    assert t[5..] == rest && t[1] == '#';
  }

  lemma OtherReads(c: char, rest: string)
    requires c != '&'
    ensures Unescape([c] + rest) == [c] + Unescape(rest)
  {
    var s := [c] + rest;
    assert s[1..] == rest && s[0] == c;
  }

  lemma EntityReads(c: char, rest: string)
    ensures Unescape(Entity(c) + rest) == [c] + Unescape(rest)
    ensures Unescape(Expander.EscapeChar(c) + rest) == [c] + Unescape(rest)
  {
    hide Unescape;
    match c
    case '&' => AmpReads(rest);
    case '<' => LtReads(rest);
    case '>' => GtReads(rest);
    case '"' => QuotReads(rest);
    case '\'' => AposReads(rest);
    case _ => OtherReads(c, rest);
  }

  lemma EntityIsMarkupFree(c: char)
    ensures MarkupFree(Entity(c)) && MarkupFree(Expander.EscapeChar(c))
  {
  }

  lemma MarkupFreeBoth(a: string, b: string)
    requires MarkupFree(a) && MarkupFree(b)
    ensures MarkupFree(a + b)
  {
  }

  // Escaped text reads back as the text, and contains no markup of its own.
  lemma {:induction false} XmlRoundTrip(s: string)
    ensures Unescape(XmlEscape(s)) == s && MarkupFree(XmlEscape(s))
  {
    FivePassesAreOne(s);
    if s != "" {
      XmlRoundTrip(s[1..]);
      FivePassesAreOne(s[1..]);
      hide XmlEscape, Unescape, Entity, MarkupFree;
      EntityReads(s[0], EscapeEach(s[1..]));
      EntityIsMarkupFree(s[0]);
      MarkupFreeBoth(Entity(s[0]), EscapeEach(s[1..]));
      assert [s[0]] + s[1..] == s;
    }
  }

  // The same for the renderer's escaping of messages and attributes.
  lemma {:induction false} HtmlRoundTrip(s: string)
    ensures Unescape(Expander.EscapeHtml(s)) == s && MarkupFree(Expander.EscapeHtml(s))
  {
    if s != "" {
      HtmlRoundTrip(s[1..]);
      hide Unescape, Expander.EscapeChar, MarkupFree;
      EntityReads(s[0], Expander.EscapeHtml(s[1..]));
      EntityIsMarkupFree(s[0]);
      MarkupFreeBoth(Expander.EscapeChar(s[0]), Expander.EscapeHtml(s[1..]));
      assert [s[0]] + s[1..] == s;
    }
  }
}
