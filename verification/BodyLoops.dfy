// The two outer loops over a text, on its UTF-8 bytes: the worker that cuts a
// body into pieces, and the prefetcher that looks for calls. They slice at
// character boundaries only, and see what their counterparts on characters see.
module BodyLoops {
  import opened Text
  import opened Scanner
  import opened Bytes
  import opened Decoding
  import opened ScannerLoops
  import opened Pieces
  import opened ScannedCalls

  // ---- The worker's loop

  function EncodePiece(p: Piece<string>): Piece<seq<Byte>> {
    match p
    case Copied(text) => Copied(Encode(text))
    case Reference(inner) => Reference(Encode(inner))
    case Called(inner) => Called(Encode(inner))
  }

  function EncodePieces(ps: seq<Piece<string>>): seq<Piece<seq<Byte>>> {
    if ps == [] then [] else [EncodePiece(ps[0])] + EncodePieces(ps[1..])
  }

  lemma OnePieceMore(s: string, inTemplate: bool)
    requires s != ""
    ensures var (piece, n) := FirstPiece(s, inTemplate);
      EncodePieces(PiecesOf(s, inTemplate)) == [EncodePiece(piece)] + EncodePieces(PiecesOf(s[n..], inTemplate))
  {
    hide FirstPiece, EncodePiece;
    var (piece, n) := FirstPiece(s, inTemplate);
    assert PiecesOf(s, inTemplate)[1..] == PiecesOf(s[n..], inTemplate);
  }

  // A slice of text between two characters.
  lemma SliceAt(t: string, i: nat, j: nat)
    requires i <= j <= |t|
    ensures Offset(t, i) <= Offset(t, j) <= |Encode(t)|
    ensures IsBoundary(Encode(t), Offset(t, i)) && IsBoundary(Encode(t), Offset(t, j))
    ensures Encode(t)[Offset(t, i)..Offset(t, j)] == Encode(t[i..j])
  {
    hide Encode, Offset, IsBoundary;
    OffsetSplit(t, i, j - i);
    EncodeAt(t, i);
    EncodeAt(t, j);
    EncodeAt(t[i..], j - i);
    OffsetIsBoundary(t, i);
    OffsetIsBoundary(t, j);
    assert t[i..][..j - i] == t[i..j];
    assert Encode(t)[Offset(t, i)..][..Offset(t[i..], j - i)] == Encode(t)[Offset(t, i)..Offset(t, j)];
  }

  // Behind `n` braces.
  lemma BehindBraces(t: string, n: nat)
    requires n <= |t| && forall k | 0 <= k < n :: Ascii(t[k])
    ensures n <= |Encode(t)| && IsBoundary(Encode(t), n) && Encode(t)[n..] == Encode(t[n..]) && Offset(t, n) == n
  {
    hide Encode, Offset, IsBoundary;
    AsciiRun(t, n);
    OffsetIsBoundary(t, n);
  }

  // `{{{inner}}}` at the head of `rest`, `close` bytes long inside.
  method Triple(rest: seq<Byte>, ghost t: string) returns (close: Option<nat>)
    requires rest == Encode(t) && Thrice(t, '{')
    ensures var k := FindTriple(t[3..]);
      && (close.Some? <==> k.Some?)
      && (close.Some? ==>
            && 3 + close.value + 3 == Offset(t, 3 + k.value + 3)
            && SliceIs(rest, 3, 3 + close.value, t[3..3 + k.value])
            && SliceIs(rest, 0, 3 + close.value + 3, t[..3 + k.value + 3]))
  {
    hide Encode, Offset, IsBoundary, FindTriple;
    BehindBraces(t, 3);
    close := FindMatchingTripleClose(From(rest, 3), t[3..]);
    ghost var k := FindTriple(t[3..]);
    if close.Some? {
      TripleWidth(t);
      SliceAt(t, 0, 3 + k.value + 3);
      OffsetZero(t);
      assert t[0..3 + k.value + 3] == t[..3 + k.value + 3];
      InnerAt(t, 3, k.value);
    }
  }

  // `{{inner}}` at the head of `rest`.
  method Pair(rest: seq<Byte>, ghost t: string) returns (close: Option<nat>)
    requires rest == Encode(t) && Twice(t, '{')
    ensures var k := Find(t[2..], 0, AtClose);
      && (close.Some? <==> k.Some?)
      && (close.Some? ==>
            && 2 + close.value + 2 == Offset(t, 2 + k.value + 2)
            && SliceIs(rest, 2, 2 + close.value, t[2..2 + k.value]))
  {
    hide Encode, Offset, IsBoundary, Find;
    BehindBraces(t, 2);
    close := FindMatchingDoubleClose(From(rest, 2), t[2..]);
    ghost var k := Find(t[2..], 0, AtClose);
    if close.Some? {
      InnerAt(t, 2, k.value);
      PairWidth(t, k.value);
    }
  }

  // Slicing from `i` to `j` is allowed and gives `t`.
  ghost predicate SliceIs(b: seq<Byte>, i: nat, j: nat, t: string) {
    i <= j <= |b| && IsBoundary(b, i) && IsBoundary(b, j) && b[i..j] == Encode(t)
  }

  // ---- Whether braces are a call

  // The Unicode `White_Space` property, on code points.
  predicate IsWhitespaceCode(n: int) {
    9 <= n <= 13 || n == 32 || n == 0x85 || n == 0xa0 || n == 0x1680 || 0x2000 <= n <= 0x200a
    || n == 0x2028 || n == 0x2029 || n == 0x202f || n == 0x205f || n == 0x3000
  }

  lemma WhitespaceOnBytes(c: char)
    ensures IsWhitespace(c) <==> IsWhitespaceCode(CodePoint(EncodeChar(c)))
  {
    hide EncodeChar, CodePoint;
    CharInBytes(c);
  }

  // `str::trim_start`: how many bytes it drops.
  method LeadingSpace(b: seq<Byte>, ghost s: string) returns (i: nat)
    requires b == Encode(s)
    ensures i <= |b| && IsBoundary(b, i) && b[i..] == Encode(TrimStart(s))
  {
    hide Encode, Offset, IsBoundary, EncodeChar, CharLength, IsWhitespace, CodePoint, IsWhitespaceCode;
    i := 0;
    ghost var k := 0;
    OffsetZero(s);
    assert s[0..] == s;
    while i < |b|
      invariant k <= |s| && i == Offset(s, k) <= |b| && TrimStart(s[k..]) == TrimStart(s)
    {
      EncodeAt(s, k);
      OffsetIsBoundary(s, k);
      ghost var t := s[k..];
      SomeTextLeft(t);
      OneChar(t);
      var rest := From(b, i);
      var n := CharLength(rest);
      OneCharIs(t);
      WhitespaceOnBytes(t[0]);
      if !IsWhitespaceCode(CodePoint(Between(rest, 0, n))) {
        return;
      }
      OffsetSplit(s, k, 1);
      EncodeAt(s, k + 1);
      assert t[1..] == s[k + 1..];
      i := i + n;
      k := k + 1;
    }
    EncodeAt(s, k);
    OffsetIsBoundary(s, k);
    SomeTextLeft(s[k..]);
  }

  lemma OneCharIs(t: string)
    requires t != ""
    ensures Encode(t[..1]) == EncodeChar(t[0]) && 1 <= |EncodeChar(t[0])| <= 4
  {
    assert t[..1][1..] == "" && EncodeChar(t[0]) + [] == EncodeChar(t[0]);
  }

  const HASH: Byte := 35

  // The decision `try_template_call` makes on the inner text.
  method TakesCall(inner: seq<Byte>, ghost t: string) returns (taken: bool)
    requires inner == Encode(t)
    ensures taken <==> IsCall(t)
  {
    hide Encode, IsBoundary, EncodeAll, Split, TrimStart, Trim;
    var j := LeadingSpace(inner, t);
    AsciiHead(TrimStart(t), '#', HASH);
    if j < |inner| && inner[j] == HASH {
      return true;
    }
    var parts := SplitTopLevelPipes(inner, t);
    FirstPart(Split(t));
    var m := LeadingSpace(parts[0], Split(t)[0]);
    SomeTextLeft(TrimStart(Split(t)[0]));
    TrimIsEmptyIff(Split(t)[0]);
    taken := m < |parts[0]|;
  }

  lemma FirstPart(parts: seq<string>)
    requires parts != []
    ensures EncodeAll(parts) != [] && EncodeAll(parts)[0] == Encode(parts[0])
  {
    hide Encode;
  }

  // The piece at the head of `rest`.
  method NextPiece(rest: seq<Byte>, inTemplate: bool, ghost t: string)
    returns (piece: Piece<seq<Byte>>, n: nat)
    requires rest == Encode(t) && t != ""
    ensures var (p, k) := FirstPiece(t, inTemplate); piece == EncodePiece(p) && n == Offset(t, k)
  {
    hide Encode, Offset, IsBoundary, Find, FindTriple, IsCall, CharLength, EncodeChar;
    AsciiHead(t, '{', LB);
    if ThriceB(rest, LB) {
      var close := Triple(rest, t);
      if close.Some? {
        n := 3 + close.value + 3;
        piece := if inTemplate then Reference(Between(rest, 3, 3 + close.value)) else Copied(Between(rest, 0, n));
        return;
      }
    }
    if TwiceB(rest, LB) {
      var close := Pair(rest, t);
      if close.Some? {
        ghost var k := Find(t[2..], 0, AtClose);
        var inner := Between(rest, 2, 2 + close.value);
        var taken := TakesCall(inner, t[2..2 + k.value]);
        if taken {
          return Called(inner), 2 + close.value + 2;
        }
      }
    }
    OneChar(t);
    n := CharLength(rest);
    piece := Copied(Between(rest, 0, n));
  }

  lemma OffsetZero(t: string)
    ensures Offset(t, 0) == 0 && IsBoundary(Encode(t), 0)
  {
  }

  // What stands between the braces.
  lemma InnerAt(t: string, n: nat, k: nat)
    requires n <= |t| && k <= |t| - n && forall j | 0 <= j < n :: Ascii(t[j])
    ensures var m := Offset(t[n..], k);
      && n + m <= |Encode(t)| && IsBoundary(Encode(t), n) && IsBoundary(Encode(t), n + m)
      && Encode(t)[n..n + m] == Encode(t[n..n + k])
  {
    hide Encode, Offset, IsBoundary;
    AsciiRun(t, n);
    OffsetSplit(t, n, k);
    SliceAt(t, n, n + k);
  }

  // Past `{{`, `k` characters and `}}`.
  lemma PairWidth(t: string, k: nat)
    requires k + 4 <= |t| && Ascii(t[0]) && Ascii(t[1]) && t[2..][k] == '}' && t[2..][k + 1] == '}'
    ensures Offset(t, 2 + k + 2) == 2 + Offset(t[2..], k) + 2
  {
    hide Offset;
    AsciiRun(t, 2);
    OffsetSplit(t, 2, k + 2);
    OffsetSplit(t[2..], k, 2);
    AsciiRun(t[2..][k..], 2);
  }

  lemma OneChar(t: string)
    requires t != ""
    ensures var n := CharLength(Encode(t));
      n == Offset(t, 1) && IsBoundary(Encode(t), 0) && IsBoundary(Encode(t), n) && Encode(t)[0..n] == Encode(t[..1])
  {
    hide CharLength, EncodeChar;
    CharLengthIs(t);
    SliceAt(t, 0, 1);
    assert Offset(t, 1) == |EncodeChar(t[0])| by { assert Offset(t[1..], 0) == 0; }
    assert t[0..1] == t[..1];
  }

  // `expand_body`: the pieces of a text, in order.
  method CutBody(b: seq<Byte>, inTemplate: bool, ghost s: string)
    returns (pieces: seq<Piece<seq<Byte>>>)
    requires b == Encode(s)
    ensures pieces == EncodePieces(PiecesOf(s, inTemplate))
  {
    hide Encode, Offset, IsBoundary, FirstPiece, PiecesOf, EncodePieces, EncodePiece, IsCall;
    pieces := [];
    var i := 0;
    ghost var k := 0;
    OffsetZero(s);
    assert s[0..] == s;
    while i < |b|
      invariant k <= |s| && i == Offset(s, k) <= |b|
      invariant pieces + EncodePieces(PiecesOf(s[k..], inTemplate)) == EncodePieces(PiecesOf(s, inTemplate))
    {
      EncodeAt(s, k);
      OffsetIsBoundary(s, k);
      ghost var t := s[k..];
      SomeTextLeft(t);
      var piece, n := NextPiece(From(b, i), inTemplate, t);
      ghost var (p, m) := FirstPiece(t, inTemplate);
      OnePieceMore(t, inTemplate);
      OffsetSplit(s, k, m);
      EncodeAt(s, k + m);
      Assoc(pieces, [piece], EncodePieces(PiecesOf(t[m..], inTemplate)));
      assert t[m..] == s[k + m..];
      NonEmptyChar(t, m);
      pieces := pieces + [piece];
      i := i + n;
      k := k + m;
    }
    EncodeAt(s, k);
    NoTextLeft(s[k..], inTemplate);
    assert pieces + [] == pieces;
  }

  lemma SomeTextLeft(t: string)
    ensures Encode(t) != [] <==> t != ""
  {
  }

  lemma NonEmptyChar(t: string, m: nat)
    requires 0 < m <= |t|
    ensures Offset(t, m) > 0
  {
  }

  lemma NoTextLeft(t: string, inTemplate: bool)
    requires Encode(t) == []
    ensures EncodePieces(PiecesOf(t, inTemplate)) == []
  {
  }

  // ---- The prefetcher's loop

  function CallsB(b: seq<Byte>): set<seq<Byte>>
    decreases |b|
  {
    if b == [] then {}
    else if !TwiceB(b, LB) then CallsB(b[1..])
    else if ThriceB(b, LB) then
      var close := FindTripleB(b[3..]);
      if close.Some? then CallsB(b[3 + close.value + 3..]) else {}
    else
      var close := FindB(b[2..], 0, None);
      if close.None? || close.value + 2 > |b| - 2 then {}
      else
        var inner := b[2..2 + close.value];
        CallsB(inner) + {inner} + CallsB(b[2 + close.value + 2..])
  }

  function EncodeSet(texts: set<string>): set<seq<Byte>> {
    set t | t in texts :: Encode(t)
  }

  lemma {:induction false} SkipHighCalls(p: seq<Byte>, b: seq<Byte>)
    requires High(p)
    ensures CallsB(p + b) == CallsB(b)
  {
    if p == [] {
      assert p + b == b;
    } else {
      assert (p + b)[1..] == p[1..] + b;
      assert (p + b)[0] == p[0];
      SkipHighCalls(p[1..], b);
    }
  }

  lemma PlainCalls(s: string)
    requires s != "" && !Twice(s, '{')
    ensures CallsB(Encode(s)) == CallsB(Encode(s[1..])) && CallTexts(s) == CallTexts(s[1..])
  {
    hide FindB, Find, FindTriple, FindTripleB;
    AsciiHead(s, '{', LB);
    if Ascii(s[0]) {
      assert Encode(s)[1..] == Encode(s[1..]);
    } else {
      SkipHighCalls(EncodeChar(s[0]), Encode(s[1..]));
    }
  }

  lemma StepCalls(b: seq<Byte>)
    requires TwiceB(b, LB)
    ensures ThriceB(b, LB) ==>
              var close := FindTripleB(b[3..]);
              CallsB(b) == if close.Some? then CallsB(b[3 + close.value + 3..]) else {}
    ensures !ThriceB(b, LB) ==>
              var close := FindB(b[2..], 0, None);
              CallsB(b) == if close.None? || close.value + 2 > |b| - 2 then {}
                           else CallsB(b[2..2 + close.value]) + {b[2..2 + close.value]} + CallsB(b[2 + close.value + 2..])
  {
    hide FindB, FindTripleB;
  }

  lemma TripleCalls(s: string)
    requires Thrice(s, '{')
    ensures var k := FindTriple(s[3..]);
      && (k.None? ==> CallsB(Encode(s)) == {})
      && (k.Some? ==> CallsB(Encode(s)) == CallsB(Encode(s[3 + k.value + 3..])))
  {
    hide Encode, Offset, FindTriple, FindTripleB, FindB, CallsB;
    AsciiHead(s, '{', LB);
    StepCalls(Encode(s));
    BehindBraces(s, 3);
    TripleOnBytes(s[3..]);
    var k := FindTriple(s[3..]);
    if k.Some? {
      TripleWidth(s);
      EncodeAt(s, 3 + k.value + 3);
    }
  }

  lemma PairCalls(s: string)
    requires Twice(s, '{') && !Thrice(s, '{')
    ensures var k := Find(s[2..], 0, AtClose);
      && (k.None? ==> CallsB(Encode(s)) == {})
      && (k.Some? ==>
            var inner := Encode(s[2..2 + k.value]);
            CallsB(Encode(s)) == CallsB(inner) + {inner} + CallsB(Encode(s[2 + k.value + 2..])))
  {
    hide Encode, Offset, Find, FindB, FindTripleB, CallsB;
    AsciiHead(s, '{', LB);
    StepCalls(Encode(s));
    BehindBraces(s, 2);
    FindOnBytes(s[2..], 0, AtClose);
    var k := Find(s[2..], 0, AtClose);
    if k.Some? {
      InnerAt(s, 2, k.value);
      PairWidth(s, k.value);
      EncodeAt(s, 2 + k.value + 2);
    }
  }

  lemma EncodeSetOf(a: set<string>, x: string, b: set<string>)
    ensures EncodeSet(a + {x} + b) == EncodeSet(a) + {Encode(x)} + EncodeSet(b)
    ensures EncodeSet({}) == {}
  {
    hide Encode;
  }

  // The same step on characters.
  lemma StepTexts(s: string)
    requires Twice(s, '{')
    ensures Thrice(s, '{') ==>
              var k := FindTriple(s[3..]);
              CallTexts(s) == if k.Some? then CallTexts(s[3 + k.value + 3..]) else {}
    ensures !Thrice(s, '{') ==>
              var k := Find(s[2..], 0, AtClose);
              CallTexts(s) == if k.None? then {}
                              else CallTexts(s[2..2 + k.value]) + {s[2..2 + k.value]} + CallTexts(s[2 + k.value + 2..])
  {
    hide Find, FindTriple;
  }

  // On bytes the prefetcher's loop finds the same calls.
  lemma {:induction false} CallsOnBytes(s: string)
    ensures CallsB(Encode(s)) == EncodeSet(CallTexts(s))
    decreases |s|
  {
    EncodeSetOf({}, "", {});
    if s == "" {
      return;
    }
    hide Encode, Find, FindTriple, CallsB, EncodeSet, CallTexts;
    if !Twice(s, '{') {
      PlainCalls(s);
      CallsOnBytes(s[1..]);
    } else if Thrice(s, '{') {
      TripleCalls(s);
      StepTexts(s);
      var k := FindTriple(s[3..]);
      if k.Some? {
        CallsOnBytes(s[3 + k.value + 3..]);
      }
    } else {
      PairCalls(s);
      StepTexts(s);
      var k := Find(s[2..], 0, AtClose);
      if k.Some? {
        var inner, rest := s[2..2 + k.value], s[2 + k.value + 2..];
        CallsOnBytes(inner);
        CallsOnBytes(rest);
        EncodeSetOf(CallTexts(inner), inner, CallTexts(rest));
      }
    }
  }

  // The braces at `i`: how far they reach, 0 when they never close, and the
  // inner text when they are a call.
  method Braces(b: seq<Byte>, ghost s: string, i: nat) returns (n: nat, inner: Option<seq<Byte>>)
    requires b == Encode(s) && i < |b| && TwiceB(b[i..], LB)
    ensures i + n <= |b|
    ensures n == 0 ==> CallsB(b[i..]) == {}
    ensures n > 0 && inner.None? ==> CallsB(b[i..]) == CallsB(b[i + n..])
    ensures n > 0 && inner.Some? ==>
              && Utf8(inner.value) && |inner.value| < |b|
              && CallsB(b[i..]) == CallsB(inner.value) + {inner.value} + CallsB(b[i + n..])
  {
    hide Encode, Offset, IsBoundary, FindTriple, Find, CallsB;
    assert Utf8(b);
    AsciiBoundaries(b, i);
    SliceIsText(b, i);
    var rest := From(b, i);
    ghost var t := TextOf(rest);
    AsciiHead(t, '{', LB);
    inner := None;
    if ThriceB(rest, LB) {
      TripleCalls(t);
      var close := Triple(rest, t);
      if close.None? {
        return 0, None;
      }
      n := 3 + close.value + 3;
      EncodeAt(t, 3 + FindTriple(t[3..]).value + 3);
    } else {
      PairCalls(t);
      var close := Pair(rest, t);
      if close.None? {
        return 0, None;
      }
      n := 2 + close.value + 2;
      EncodeAt(t, 2 + Find(t[2..], 0, AtClose).value + 2);
      inner := Some(Between(rest, 2, 2 + close.value));
    }
    assert rest[n..] == b[i + n..];
  }

  // `scan_template_calls`: goes on byte by byte and slices at braces only.
  method ScanCalls(b: seq<Byte>, ghost s: string) returns (inners: set<seq<Byte>>)
    requires b == Encode(s)
    ensures inners == EncodeSet(CallTexts(s))
    decreases |b|
  {
    hide Encode, CallsB, EncodeSet, CallTexts, Utf8;
    CallsOnBytes(s);
    inners := {};
    var i := 0;
    assert b[0..] == b;
    while i + 2 <= |b|
      invariant i <= |b| && inners + CallsB(b[i..]) == CallsB(b)
    {
      if !TwiceB(b[i..], LB) {
        SkipByte(b, i);
        i := i + 1;
        continue;
      }
      var n, inner := Braces(b, s, i);
      if n == 0 {
        return;
      }
      if inner.Some? {
        ghost var t := TextOf(inner.value);
        CallsOnBytes(t);
        var nested := ScanCalls(inner.value, t);
        inners := inners + nested + {inner.value};
      }
      i := i + n;
    }
    ShortCalls(b[i..]);
  }

  lemma SkipByte(b: seq<Byte>, i: nat)
    requires i < |b| && !TwiceB(b[i..], LB)
    ensures CallsB(b[i..]) == CallsB(b[i + 1..])
  {
    hide FindB, FindTripleB;
    assert b[i..][1..] == b[i + 1..];
  }

  lemma ShortCalls(b: seq<Byte>)
    requires |b| < 2
    ensures CallsB(b) == {}
  {
    if b != [] {
      assert CallsB(b) == CallsB(b[1..]);
    }
  }
}
