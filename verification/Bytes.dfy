// The scanners as they run: on the UTF-8 bytes of the text, one byte or one
// token at a time.
//
// They find exactly what `Scanner` finds on characters, and every index at
// which they slice the text lies on a character boundary, although some of them
// step through the middle of characters.
module Bytes {
  import opened Text
  import opened Scanner

  newtype Byte = b: int | 0 <= b < 256

  // UTF-8, section 3 of RFC 3629.
  function EncodeChar(c: char): (r: seq<Byte>)
    ensures 1 <= |r| <= 4
    ensures c as int < 128 ==> r == [(c as int) as Byte]
    ensures c as int >= 128 ==> 2 <= |r| && r[0] >= 0xc0 && forall k | 1 <= k < |r| :: 0x80 <= r[k] < 0xc0
  {
    var n := c as int;
    if n < 0x80 then [n as Byte]
    else if n < 0x800 then [(0xc0 + n / 64) as Byte, Tail(n)]
    else if n < 0x10000 then [(0xe0 + n / 4096) as Byte, Tail(n / 64), Tail(n)]
    else [(0xf0 + n / 262144) as Byte, Tail(n / 4096), Tail(n / 64), Tail(n)]
  }

  function Tail(n: nat): (r: Byte)
    ensures 0x80 <= r < 0xc0
  {
    (0x80 + n % 64) as Byte
  }

  function Encode(s: string): seq<Byte> {
    if s == "" then [] else EncodeChar(s[0]) + Encode(s[1..])
  }

  ghost predicate Utf8(b: seq<Byte>) {
    exists s :: Encode(s) == b
  }

  // Byte offset of character `k`.
  function Offset(s: string, k: nat): nat
    requires k <= |s|
  {
    if k == 0 then 0 else |EncodeChar(s[0])| + Offset(s[1..], k - 1)
  }

  // `str::is_char_boundary`.
  predicate IsBoundary(b: seq<Byte>, i: nat) {
    i == 0 || i == |b| || (i < |b| && !(0x80 <= b[i] < 0xc0))
  }

  // `&s[i..]`: slicing inside a character is a panic.
  function From(b: seq<Byte>, i: nat): seq<Byte>
    requires i <= |b| && IsBoundary(b, i)
  {
    b[i..]
  }

  // `&s[i..j]`
  function Between(b: seq<Byte>, i: nat, j: nat): seq<Byte>
    requires i <= j <= |b| && IsBoundary(b, i) && IsBoundary(b, j)
  {
    b[i..j]
  }

  // ---- Boundaries are character offsets

  lemma {:induction false} EncodeAt(s: string, k: nat)
    requires k <= |s|
    ensures Offset(s, k) <= |Encode(s)| && Encode(s)[Offset(s, k)..] == Encode(s[k..])
    ensures Encode(s)[..Offset(s, k)] == Encode(s[..k])
    decreases k
  {
    if k > 0 {
      var head := EncodeChar(s[0]);
      EncodeAt(s[1..], k - 1);
      assert s[1..][k - 1..] == s[k..];
      assert s[..k][1..] == s[1..][..k - 1];
      assert Encode(s)[Offset(s, k)..] == Encode(s[1..])[Offset(s[1..], k - 1)..];
      assert Encode(s)[..Offset(s, k)] == head + Encode(s[1..])[..Offset(s[1..], k - 1)];
    }
  }

  // An index is a boundary exactly when it is the offset of some character.
  lemma OffsetIsBoundary(s: string, k: nat)
    requires k <= |s|
    ensures IsBoundary(Encode(s), Offset(s, k))
  {
    EncodeAt(s, k);
    FirstByte(s[k..]);
    if Offset(s, k) < |Encode(s)| {
      assert Encode(s)[Offset(s, k)] == Encode(s[k..])[0];
    }
  }

  lemma {:induction false} BoundaryIsOffset(s: string, i: nat) returns (k: nat)
    requires i <= |Encode(s)| && IsBoundary(Encode(s), i)
    ensures k <= |s| && Offset(s, k) == i
    decreases |s|
  {
    if i == 0 {
      return 0;
    }
    var head, rest := EncodeChar(s[0]), Encode(s[1..]);
    assert Encode(s) == head + rest;
    assert forall n | 0 <= n < |head| :: Encode(s)[n] == head[n];
    if i < |head| {
      assert false;
    } else {
      assert i < |Encode(s)| ==> Encode(s)[i] == rest[i - |head|];
      k := BoundaryIsOffset(s[1..], i - |head|);
      k := k + 1;
    }
  }

  lemma FirstByte(s: string)
    ensures s != "" ==> Encode(s) != [] && !(0x80 <= Encode(s)[0] < 0xc0)
  {
  }

  // Next to an ASCII byte there are boundaries on both sides.
  lemma AsciiBoundaries(b: seq<Byte>, i: nat)
    requires Utf8(b) && i < |b| && b[i] < 0x80
    ensures IsBoundary(b, i) && IsBoundary(b, i + 1)
  {
    hide Encode, EncodeChar, Offset;
    var s :| Encode(s) == b;
    var k := BoundaryIsOffset(s, i);
    EncodeAt(s, k);
    assert Encode(s[k..])[0] == b[i];
    FirstIsAscii(s[k..]);
    OffsetSplit(s, k, 1);
    OffsetIsBoundary(s, k + 1);
  }

  lemma FirstIsAscii(s: string)
    requires Encode(s) != [] && Encode(s)[0] < 0x80
    ensures s != "" && Offset(s, 1) == 1
  {
    assert Offset(s[1..], 0) == 0;
  }

  lemma SliceIsText(b: seq<Byte>, i: nat)
    requires Utf8(b) && i <= |b| && IsBoundary(b, i)
    ensures Utf8(b[i..]) && Utf8(b[..i])
  {
    var s :| Encode(s) == b;
    var k := BoundaryIsOffset(s, i);
    EncodeAt(s, k);
  }

  // ---- What the byte loops compute

  const LB: Byte := 123
  const RB: Byte := 125
  const BAR: Byte := 124
  const EQUALS: Byte := 61

  predicate TwiceB(b: seq<Byte>, x: Byte) {
    2 <= |b| && b[0] == x && b[1] == x
  }

  predicate ThriceB(b: seq<Byte>, x: Byte) {
    3 <= |b| && b[0] == x && b[1] == x && b[2] == x
  }

  function FindTripleB(b: seq<Byte>): (r: Option<nat>)
    ensures r.Some? ==> r.value + 3 <= |b| && b[r.value] == RB && b[r.value + 2] == RB
  {
    if b == [] then None
    else if ThriceB(b, RB) then Some(0)
    else Shift(1, FindTripleB(b[1..]))
  }

  // `None` as `stop` looks for the unmatched `}}`.
  function FindB(b: seq<Byte>, depth: int, stop: Option<Byte>): (r: Option<nat>)
    ensures r.Some? ==> r.value < |b| && b[r.value] == if stop.Some? then stop.value else RB
    decreases |b|
  {
    if b == [] then None
    else if ThriceB(b, LB) then
      var close := FindTripleB(b[3..]);
      if close.Some? then Shift(3 + close.value + 3, FindB(b[3 + close.value + 3..], depth, stop)) else None
    else if TwiceB(b, LB) then Shift(2, FindB(b[2..], depth + 1, stop))
    else if TwiceB(b, RB) then
      if stop.None? && depth == 0 then Some(0) else Shift(2, FindB(b[2..], depth - 1, stop))
    else if stop.Some? && depth == 0 && b[0] == stop.value then Some(0)
    else Shift(1, FindB(b[1..], depth, stop))
  }

  // ---- Bytes and characters agree

  function ToBytes(s: string, r: Option<nat>): Option<nat>
    requires r.Some? ==> r.value <= |s|
  {
    if r.Some? then Some(Offset(s, r.value)) else None
  }

  predicate Ascii(c: char) {
    c as int < 128
  }

  lemma AsciiHead(s: string, c: char, x: Byte)
    requires Ascii(c) && x as int == c as int
    ensures TwiceB(Encode(s), x) <==> Twice(s, c)
    ensures ThriceB(Encode(s), x) <==> Thrice(s, c)
    ensures Encode(s) != [] && Encode(s)[0] == x <==> s != "" && s[0] == c
  {
    HeadIs(s, c, x);
    if s != "" && s[0] == c {
      HeadIs(s[1..], c, x);
      if s[1..] != "" && s[1] == c {
        HeadIs(s[1..][1..], c, x);
      }
    }
  }

  lemma HeadIs(s: string, c: char, x: Byte)
    requires Ascii(c) && x as int == c as int
    ensures Encode(s) != [] && Encode(s)[0] == x <==> s != "" && s[0] == c
    ensures s != "" && s[0] == c ==> Encode(s)[1..] == Encode(s[1..])
  {
    if s != "" {
      var head := EncodeChar(s[0]);
      assert Encode(s)[0] == head[0];
      if s[0] == c {
        assert head == [x];
      }
    }
  }

  predicate High(p: seq<Byte>) {
    forall k | 0 <= k < |p| :: p[k] >= 128
  }

  lemma {:induction false} SkipHighTriple(p: seq<Byte>, b: seq<Byte>)
    requires High(p)
    ensures FindTripleB(p + b) == Shift(|p|, FindTripleB(b))
  {
    if p == [] {
      assert p + b == b;
    } else {
      assert (p + b)[1..] == p[1..] + b;
      assert (p + b)[0] == p[0];
      SkipHighTriple(p[1..], b);
    }
  }

  lemma {:induction false} SkipHigh(p: seq<Byte>, b: seq<Byte>, depth: int, stop: Option<Byte>)
    requires High(p) && (stop.Some? ==> stop.value < 128)
    ensures FindB(p + b, depth, stop) == Shift(|p|, FindB(b, depth, stop))
  {
    hide FindB;
    if p == [] {
      assert p + b == b;
    } else {
      assert (p + b)[1..] == p[1..] + b;
      assert (p + b)[0] == p[0];
      StepPairB(p + b, depth, stop);
      SkipHigh(p[1..], b, depth, stop);
    }
  }

  lemma {:induction false} OffsetSplit(s: string, n: nat, m: nat)
    requires n + m <= |s|
    ensures Offset(s, n + m) == Offset(s, n) + Offset(s[n..], m)
    decreases n
  {
    if n > 0 {
      OffsetSplit(s[1..], n - 1, m);
      assert s[1..][n - 1..] == s[n..];
    }
  }

  // Leaving out the first `n` characters.
  lemma ToBytesRest(s: string, n: nat, r: Option<nat>)
    requires n <= |s| && (r.Some? ==> r.value <= |s| - n)
    ensures ToBytes(s, Shift(n, r)) == Shift(Offset(s, n), ToBytes(s[n..], r))
  {
    hide Offset;
    if r.Some? {
      OffsetSplit(s, n, r.value);
    }
  }

  // Over a run of `n` ASCII characters byte and character offsets agree.
  lemma {:induction false} AsciiRun(s: string, n: nat)
    requires n <= |s| && forall k | 0 <= k < n :: Ascii(s[k])
    ensures Offset(s, n) == n && |Encode(s)| >= n && Encode(s)[n..] == Encode(s[n..])
    decreases n
  {
    if n > 0 {
      AsciiRun(s[1..], n - 1);
    }
    EncodeAt(s, n);
  }

  lemma {:induction false} TripleOnBytes(s: string)
    ensures FindTripleB(Encode(s)) == ToBytes(s, FindTriple(s))
    decreases |s|
  {
    if s != "" {
      AsciiHead(s, '}', RB);
      TripleOnBytes(s[1..]);
      ToBytesRest(s, 1, FindTriple(s[1..]));
      assert Offset(s, 1) == |EncodeChar(s[0])| by { assert Offset(s[1..], 0) == 0; }
      if !Thrice(s, '}') {
        if Ascii(s[0]) {
          assert Encode(s)[1..] == Encode(s[1..]);
        } else {
          SkipHighTriple(EncodeChar(s[0]), Encode(s[1..]));
        }
      }
    }
  }

  function StopByte(stop: Stop): Option<Byte>
    requires stop.AtChar? ==> Ascii(stop.c)
  {
    if stop.AtChar? then Some((stop.c as int) as Byte) else None
  }

  // Past a complete `{{{...}}}`.
  lemma TripleWidth(s: string)
    requires Thrice(s, '{') && FindTriple(s[3..]).Some?
    ensures var k := FindTriple(s[3..]).value; var w := 3 + k + 3;
      Offset(s, w) == 3 + Offset(s[3..], k) + 3
  {
    var k := FindTriple(s[3..]).value;
    FindTripleIs(s[3..]);
    AsciiRun(s, 3);
    OffsetSplit(s, 3, k + 3);
    OffsetSplit(s[3..], k, 3);
    AsciiRun(s[3..][k..], 3);
  }

  lemma {:induction false} FindTripleIs(s: string)
    ensures var r := FindTriple(s); r.Some? ==> Thrice(s[r.value..], '}')
  {
    if s != "" && !Thrice(s, '}') {
      FindTripleIs(s[1..]);
      var r := FindTriple(s[1..]);
      if r.Some? {
        assert s[1..][r.value..] == s[1 + r.value..];
      }
    }
  }

  predicate Searchable(stop: Stop) {
    stop.AtChar? ==> Ascii(stop.c) && stop.c != '{' && stop.c != '}'
  }

  predicate SameFind(s: string, depth: int, stop: Stop)
    requires Searchable(stop)
  {
    FindB(Encode(s), depth, StopByte(stop)) == ToBytes(s, Find(s, depth, stop))
  }

  lemma TokenOnBytes(s: string, w: nat, r: Option<nat>)
    requires w <= |s| && (r.Some? ==> r.value <= |s| - w)
    ensures Offset(s, w) <= |Encode(s)| && Encode(s)[Offset(s, w)..] == Encode(s[w..])
    ensures ToBytes(s, Shift(w, r)) == Shift(Offset(s, w), ToBytes(s[w..], r))
  {
    EncodeAt(s, w);
    ToBytesRest(s, w, r);
  }

  lemma WideOnBytes(s: string, depth: int, stop: Stop)
    requires Searchable(stop) && s != "" && !Ascii(s[0]) && SameFind(s[1..], depth, stop)
    ensures SameFind(s, depth, stop)
  {
    hide FindB, Find, Encode, EncodeChar;
    SkipHigh(EncodeChar(s[0]), Encode(s[1..]), depth, StopByte(stop));
    TokenOnBytes(s, 1, Find(s[1..], depth, stop));
    WideChar(s, depth, stop);
  }

  lemma WideChar(s: string, depth: int, stop: Stop)
    requires Searchable(stop) && s != "" && !Ascii(s[0])
    ensures High(EncodeChar(s[0])) && Encode(s) == EncodeChar(s[0]) + Encode(s[1..])
    ensures Offset(s, 1) == |EncodeChar(s[0])|
    ensures Find(s, depth, stop) == Shift(1, Find(s[1..], depth, stop))
  {
    assert Offset(s[1..], 0) == 0;
  }

  lemma PlainOnBytes(s: string, depth: int, stop: Stop)
    requires Searchable(stop) && s != "" && Ascii(s[0]) && Lex(s).Single? && SameFind(s[1..], depth, stop)
    ensures SameFind(s, depth, stop)
  {
    AsciiHead(s, '{', LB);
    AsciiHead(s, '}', RB);
    AsciiRun(s, 1);
    TokenOnBytes(s, 1, Find(s[1..], depth, stop));
    hide Encode, EncodeChar, Offset;
  }

  lemma OpenOnBytes(s: string, depth: int, stop: Stop)
    requires Searchable(stop) && s != "" && Lex(s).Open? && SameFind(s[2..], depth + 1, stop)
    ensures SameFind(s, depth, stop)
  {
    AsciiHead(s, '{', LB);
    AsciiRun(s, 2);
    TokenOnBytes(s, 2, Find(s[2..], depth + 1, stop));
    hide Encode, EncodeChar, Offset;
  }

  lemma CloseOnBytes(s: string, depth: int, stop: Stop)
    requires Searchable(stop) && s != "" && Lex(s).Close? && SameFind(s[2..], depth - 1, stop)
    ensures SameFind(s, depth, stop)
  {
    AsciiHead(s, '{', LB);
    AsciiHead(s, '}', RB);
    AsciiRun(s, 2);
    TokenOnBytes(s, 2, Find(s[2..], depth - 1, stop));
    hide Encode, EncodeChar, Offset;
    assert Find(s, depth, stop) ==
      if stop.AtClose? && depth == 0 then Some(0) else Shift(2, Find(s[2..], depth - 1, stop));
  }

  // One step of either scanner over `{{{`.
  lemma StepTriple(s: string, depth: int, stop: Stop)
    requires Thrice(s, '{')
    ensures var k := FindTriple(s[3..]);
      Find(s, depth, stop) ==
      if k.Some? then Shift(3 + k.value + 3, Find(s[3 + k.value + 3..], depth, stop)) else None
  {
    hide FindTriple;
  }

  lemma StepTripleB(b: seq<Byte>, depth: int, stop: Option<Byte>)
    requires ThriceB(b, LB)
    ensures var k := FindTripleB(b[3..]);
      FindB(b, depth, stop) ==
      if k.Some? then Shift(3 + k.value + 3, FindB(b[3 + k.value + 3..], depth, stop)) else None
  {
    hide FindTripleB;
  }

  // One step of the byte scanner over anything else.
  lemma StepPairB(b: seq<Byte>, depth: int, stop: Option<Byte>)
    requires b != [] && !ThriceB(b, LB)
    ensures TwiceB(b, LB) ==> FindB(b, depth, stop) == Shift(2, FindB(b[2..], depth + 1, stop))
    ensures TwiceB(b, RB) && stop.None? && depth == 0 ==> FindB(b, depth, stop) == Some(0)
    ensures TwiceB(b, RB) && !(stop.None? && depth == 0) ==>
              FindB(b, depth, stop) == Shift(2, FindB(b[2..], depth - 1, stop))
    ensures !TwiceB(b, LB) && !TwiceB(b, RB) ==>
              FindB(b, depth, stop) == (if stop.Some? && depth == 0 && b[0] == stop.value then Some(0)
                                        else Shift(1, FindB(b[1..], depth, stop)))
  {
  }

  lemma TripleTokenOnBytes(s: string, depth: int, stop: Stop)
    requires Searchable(stop) && Thrice(s, '{')
    requires var k := FindTriple(s[3..]); k.Some? ==> SameFind(s[3 + k.value + 3..], depth, stop)
    ensures SameFind(s, depth, stop)
  {
    hide Encode, EncodeChar, Offset, FindTriple, FindTripleB, Find, FindB;
    AsciiHead(s, '{', LB);
    AsciiRun(s, 3);
    TripleOnBytes(s[3..]);
    StepTriple(s, depth, stop);
    StepTripleB(Encode(s), depth, StopByte(stop));
    var k := FindTriple(s[3..]);
    if k.Some? {
      var w := 3 + k.value + 3;
      TripleWidth(s);
      TokenOnBytes(s, w, Find(s[w..], depth, stop));
    }
  }

  // The byte scanners find the byte offset of what the character scanners find.
  lemma {:induction false} FindOnBytes(s: string, depth: int, stop: Stop)
    requires Searchable(stop)
    ensures SameFind(s, depth, stop)
    decreases |s|
  {
    if s != "" {
      hide SameFind;
      match Lex(s)
      case Triple(w) =>
        FindOnBytes(s[w..], depth, stop);
        TripleTokenOnBytes(s, depth, stop);
      case Unclosed => TripleTokenOnBytes(s, depth, stop);
      case Open =>
        FindOnBytes(s[2..], depth + 1, stop);
        OpenOnBytes(s, depth, stop);
      case Close =>
        FindOnBytes(s[2..], depth - 1, stop);
        CloseOnBytes(s, depth, stop);
      case Single =>
        FindOnBytes(s[1..], depth, stop);
        if Ascii(s[0]) {
          PlainOnBytes(s, depth, stop);
        } else {
          WideOnBytes(s, depth, stop);
        }
    }
  }
}
