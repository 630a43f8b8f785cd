// The scanner loops themselves, over bytes. `From` and `Between` can only be
// called at character boundaries, so these methods never slice inside a character.
module ScannerLoops {
  import opened Text
  import opened Scanner
  import opened Bytes

  // `find_matching_triple_close`, and `find_close` in the prefetcher.
  method FindMatchingTripleClose(b: seq<Byte>, ghost s: string) returns (r: Option<nat>)
    requires b == Encode(s)
    ensures r == ToBytes(s, FindTriple(s))
  {
    hide FindTripleB, Encode;
    TripleOnBytes(s);
    var i := 0;
    assert b[0..] == b;
    while i + 3 <= |b|
      invariant i <= |b| && FindTripleB(b) == Shift(i, FindTripleB(b[i..]))
    {
      StepFindTripleB(b[i..]);
      if b[i] == RB && b[i + 1] == RB && b[i + 2] == RB {
        return Some(i);
      }
      assert b[i..][1..] == b[i + 1..];
      i := i + 1;
    }
    TooShortForTriple(b[i..]);
    return None;
  }

  lemma StepFindTripleB(b: seq<Byte>)
    requires b != []
    ensures FindTripleB(b) == if ThriceB(b, RB) then Some(0) else Shift(1, FindTripleB(b[1..]))
  {
  }

  lemma {:induction false} TooShortForTriple(b: seq<Byte>)
    requires |b| < 3
    ensures FindTripleB(b).None?
  {
    if b != [] {
      TooShortForTriple(b[1..]);
    }
  }

  // What one turn of a scanner loop knows: `i` bytes in, `depth` pairs deep.
  ghost predicate At(b: seq<Byte>, i: nat, depth: int, stop: Option<Byte>) {
    i <= |b| && FindB(b, 0, stop) == Shift(i, FindB(b[i..], depth, stop))
  }

  lemma AtStart(b: seq<Byte>, stop: Option<Byte>)
    ensures At(b, 0, 0, stop)
  {
    assert b[0..] == b;
  }

  ghost function TextOf(b: seq<Byte>): (s: string)
    requires Utf8(b)
    ensures Encode(s) == b
  {
    var s :| Encode(s) == b;
    s
  }

  // Where the `{{{` at `i` closes, counted from behind it.
  method CloseOfTriple(ghost b: seq<Byte>, ghost i: nat, rest: seq<Byte>) returns (close: Option<nat>)
    requires Utf8(b) && i + 3 <= |b| && rest == b[i..] && ThriceB(rest, LB)
    ensures close == FindTripleB(b[i + 3..])
    ensures close.Some? ==> close.value + 3 <= |b| - i - 3 && b[i + 3 + close.value + 2] == RB
  {
    hide FindTripleB, Encode, Utf8;
    AsciiBoundaries(b, i);
    AsciiBoundaries(b, i + 2);
    SliceIsText(b, i);
    AsciiBoundaries(rest, 2);
    var behind := From(rest, 3);
    assert behind == b[i + 3..];
    SliceIsText(b, i + 3);
    ghost var t := TextOf(behind);
    close := FindMatchingTripleClose(behind, t);
    TripleOnBytes(t);
    assert close.Some? ==> behind[close.value + 2] == RB;
  }

  lemma AtTriple(b: seq<Byte>, i: nat, depth: int, stop: Option<Byte>)
    requires At(b, i, depth, stop) && i < |b| && ThriceB(b[i..], LB)
    ensures var close := FindTripleB(b[i + 3..]);
      if close.Some? then At(b, i + 3 + close.value + 3, depth, stop) else FindB(b, 0, stop).None?
  {
    hide FindB, FindTripleB;
    assert b[i..][3..] == b[i + 3..];
    StepTripleB(b[i..], depth, stop);
    var close := FindTripleB(b[i + 3..]);
    if close.Some? {
      assert b[i..][3 + close.value + 3..] == b[i + 3 + close.value + 3..];
    }
  }

  lemma AtPair(b: seq<Byte>, i: nat, depth: int, stop: Option<Byte>)
    requires At(b, i, depth, stop) && i < |b| && !ThriceB(b[i..], LB)
    ensures TwiceB(b[i..], LB) ==> At(b, i + 2, depth + 1, stop)
    ensures TwiceB(b[i..], RB) && !(stop.None? && depth == 0) ==> At(b, i + 2, depth - 1, stop)
    ensures TwiceB(b[i..], RB) && stop.None? && depth == 0 ==> FindB(b, 0, stop) == Some(i)
  {
    hide FindB, TwiceB, ThriceB;
    var rest := b[i..];
    StepPairB(rest, depth, stop);
    if 2 <= |rest| {
      assert rest[2..] == b[i + 2..];
    } else {
      TwiceIsLong(rest, LB);
      TwiceIsLong(rest, RB);
    }
  }

  lemma TwiceIsLong(b: seq<Byte>, x: Byte)
    ensures TwiceB(b, x) ==> 2 <= |b|
  {
  }

  lemma AtByte(b: seq<Byte>, i: nat, depth: int, stop: Option<Byte>)
    requires At(b, i, depth, stop) && i < |b|
    requires !TwiceB(b[i..], LB) && !TwiceB(b[i..], RB)
    ensures if stop.Some? && depth == 0 && b[i] == stop.value then FindB(b, 0, stop) == Some(i)
            else At(b, i + 1, depth, stop)
  {
    hide FindB, TwiceB, ThriceB;
    var rest := b[i..];
    NotThrice(rest);
    OneByteOn(b, i);
    StepPairB(rest, depth, stop);
  }

  lemma OneByteOn(b: seq<Byte>, i: nat)
    requires i < |b|
    ensures b[i..] != [] && b[i..][0] == b[i] && b[i..][1..] == b[i + 1..]
  {
  }

  lemma NotThrice(b: seq<Byte>)
    requires !TwiceB(b, LB)
    ensures !ThriceB(b, LB)
  {
  }

  lemma AtEnd(b: seq<Byte>, depth: int, stop: Option<Byte>)
    requires At(b, |b|, depth, stop)
    ensures FindB(b, 0, stop).None?
  {
  }

  // `find_matching_double_close`, and `find_matching_double` in the prefetcher.
  method FindMatchingDoubleClose(b: seq<Byte>, ghost s: string) returns (r: Option<nat>)
    requires b == Encode(s)
    ensures r == ToBytes(s, Find(s, 0, AtClose))
  {
    hide FindB, FindTripleB, Encode, EncodeChar, At;
    FindOnBytes(s, 0, AtClose);
    AtStart(b, None);
    var depth := 0;
    var i := 0;
    while i < |b|
      invariant i <= |b| && At(b, i, depth, None)
    {
      var rest := b[i..];
      if ThriceB(rest, LB) {
        AtTriple(b, i, depth, None);
        var close := CloseOfTriple(b, i, rest);
        if close.None? {
          return None;
        }
        i := i + 3 + close.value + 3;
        continue;
      }
      AtPair(b, i, depth, None);
      if TwiceB(rest, LB) {
        depth := depth + 1;
        i := i + 2;
        continue;
      }
      if TwiceB(rest, RB) {
        if depth == 0 {
          return Some(i);
        }
        depth := depth - 1;
        i := i + 2;
        continue;
      }
      AtByte(b, i, depth, None);
      i := i + 1;
    }
    AtEnd(b, depth, None);
    return None;
  }

  // The first top-level `stop`: the loop of `find_top_level_equals` and of
  // `split_top_level_pipe`.
  method FindTopLevel(b: seq<Byte>, stop: Byte, ghost c: char, ghost s: string) returns (r: Option<nat>)
    requires b == Encode(s) && Searchable(AtChar(c)) && stop as int == c as int
    ensures r == ToBytes(s, Find(s, 0, AtChar(c)))
    ensures r.Some? ==> r.value < |b| && b[r.value] == stop
  {
    hide FindB, FindTripleB, Encode, EncodeChar, At;
    FindOnBytes(s, 0, AtChar(c));
    AtStart(b, Some(stop));
    var depth := 0;
    var i := 0;
    while i < |b|
      invariant i <= |b| && At(b, i, depth, Some(stop))
    {
      var rest := b[i..];
      if ThriceB(rest, LB) {
        AtTriple(b, i, depth, Some(stop));
        var close := CloseOfTriple(b, i, rest);
        if close.None? {
          return None;
        }
        i := i + 3 + close.value + 3;
        continue;
      }
      AtPair(b, i, depth, Some(stop));
      if TwiceB(rest, LB) {
        depth := depth + 1;
        i := i + 2;
        continue;
      }
      if TwiceB(rest, RB) {
        depth := depth - 1;
        i := i + 2;
        continue;
      }
      AtByte(b, i, depth, Some(stop));
      if depth == 0 && b[i] == stop {
        return Some(i);
      }
      i := i + 1;
    }
    AtEnd(b, depth, Some(stop));
    return None;
  }

  // `split_top_level_pipe`: both halves are text again.
  method SplitTopLevelPipe(b: seq<Byte>, ghost s: string) returns (r: Option<(seq<Byte>, seq<Byte>)>)
    requires b == Encode(s)
    ensures var bar := Find(s, 0, AtChar('|'));
      r == if bar.Some? then Some((Encode(s[..bar.value]), Encode(s[bar.value + 1..]))) else None
  {
    hide FindB, FindTripleB, EncodeChar;
    var bar := FindTopLevel(b, BAR, '|', s);
    if bar.None? {
      return None;
    }
    CutAtAscii(b, bar.value, s, Find(s, 0, AtChar('|')).value);
    r := Some((Between(b, 0, bar.value), From(b, bar.value + 1)));
    assert b[0..bar.value] == b[..bar.value];
  }

  // `parse_argument`: key and value around the first top-level `=`.
  method SplitAtEquals(b: seq<Byte>, ghost s: string) returns (r: Option<(seq<Byte>, seq<Byte>)>)
    requires b == Encode(s)
    ensures var eq := Find(s, 0, AtChar('='));
      r == if eq.Some? then Some((Encode(s[..eq.value]), Encode(s[eq.value + 1..]))) else None
  {
    hide FindB, FindTripleB, EncodeChar;
    var eq := FindTopLevel(b, EQUALS, '=', s);
    if eq.None? {
      return None;
    }
    CutAtAscii(b, eq.value, s, Find(s, 0, AtChar('=')).value);
    var key, tail := Between(b, 0, eq.value), From(b, eq.value);
    assert tail[1..] == b[eq.value + 1..] && b[0..eq.value] == b[..eq.value];
    TailBoundary(b, eq.value);
    r := Some((key, From(tail, 1)));
  }

  // The value begins at a boundary of what `split_at` leaves.
  lemma TailBoundary(b: seq<Byte>, i: nat)
    requires i < |b| && IsBoundary(b, i + 1)
    ensures IsBoundary(b[i..], 1)
  {
    if i + 1 < |b| {
      assert b[i..][1] == b[i + 1];
    }
  }

  lemma CutAtAscii(b: seq<Byte>, i: nat, s: string, k: nat)
    requires b == Encode(s) && k < |s| && Ascii(s[k]) && Offset(s, k) == i
    ensures i < |b| && IsBoundary(b, i) && IsBoundary(b, i + 1)
    ensures b[..i] == Encode(s[..k]) && b[i + 1..] == Encode(s[k + 1..])
  {
    EncodeAt(s, k);
    EncodeAt(s, k + 1);
    OffsetSplit(s, k, 1);
    AsciiRun(s[k..], 1);
    assert Encode(s[k..])[0] == b[i];
    assert Encode(s) == b;
    AsciiBoundaries(b, i);
  }

  // ---- Splitting at every top-level pipe

  function EncodeAll(parts: seq<string>): seq<seq<Byte>> {
    if parts == [] then [] else [Encode(parts[0])] + EncodeAll(parts[1..])
  }

  // The bytes of the first character: a leading byte and its continuation bytes.
  function CharLength(b: seq<Byte>): (n: nat)
    requires b != []
    ensures 1 <= n <= |b|
  {
    1 + Continuations(b[1..])
  }

  function Continuations(b: seq<Byte>): (n: nat)
    ensures n <= |b|
  {
    if b != [] && 0x80 <= b[0] < 0xc0 then 1 + Continuations(b[1..]) else 0
  }

  lemma {:induction false} CharLengthIs(s: string)
    requires s != ""
    ensures CharLength(Encode(s)) == |EncodeChar(s[0])|
  {
    var head := EncodeChar(s[0]);
    assert Encode(s)[1..] == head[1..] + Encode(s[1..]);
    ContinuationsOver(head[1..], s[1..]);
  }

  lemma {:induction false} ContinuationsOver(p: seq<Byte>, s: string)
    requires forall k | 0 <= k < |p| :: 0x80 <= p[k] < 0xc0
    ensures Continuations(p + Encode(s)) == |p|
  {
    if p == [] {
      assert p + Encode(s) == Encode(s);
      FirstByte(s);
    } else {
      assert (p + Encode(s))[1..] == p[1..] + Encode(s);
      ContinuationsOver(p[1..], s);
    }
  }

  lemma CharAt(b: seq<Byte>, i: nat)
    requires Utf8(b) && i < |b| && IsBoundary(b, i)
    ensures var n := CharLength(b[i..]);
      && i + n <= |b| && IsBoundary(b, i + n)
      && (n == 1 || High(b[i..i + n]))
  {
    hide CharLength, EncodeChar;
    var s :| Encode(s) == b;
    var k := BoundaryIsOffset(s, i);
    EncodeAt(s, k);
    var t := s[k..];
    assert b[i..] == Encode(t) && t != "";
    CharLengthIs(t);
    var n := CharLength(b[i..]);
    assert Encode(t) == EncodeChar(t[0]) + Encode(t[1..]);
    hide Encode;
    TakeBytes(b, i, n);
    assert b[i..i + n] == EncodeChar(t[0]);
    FirstByte(t[1..]);
    CharIsHigh(t[0]);
  }

  lemma TakeBytes(b: seq<Byte>, i: nat, n: nat)
    requires i + n <= |b|
    ensures b[i..i + n] == b[i..][..n] && (i + n < |b| ==> b[i..][n..] != [] && b[i + n] == b[i..][n..][0])
  {
  }

  lemma CharIsHigh(c: char)
    ensures |EncodeChar(c)| == 1 || High(EncodeChar(c))
  {
  }

  // Stepping over one whole character.
  lemma AtWholeChar(b: seq<Byte>, i: nat, depth: int, stop: Byte)
    requires Utf8(b) && i < |b| && IsBoundary(b, i) && At(b, i, depth, Some(stop)) && stop < 128
    requires !TwiceB(b[i..], LB) && !TwiceB(b[i..], RB) && !(depth == 0 && b[i] == stop)
    ensures var n := CharLength(b[i..]); i + n <= |b| && IsBoundary(b, i + n) && At(b, i + n, depth, Some(stop))
  {
    hide FindB, CharLength, EncodeChar;
    CharAt(b, i);
    var n := CharLength(b[i..]);
    if n == 1 {
      AtByte(b, i, depth, Some(stop));
    } else {
      assert b[i..] == b[i..i + n] + b[i + n..];
      SkipHigh(b[i..i + n], b[i + n..], depth, Some(stop));
    }
  }

  function SplitB(b: seq<Byte>): seq<seq<Byte>>
    decreases |b|
  {
    var bar := FindB(b, 0, Some(BAR));
    if bar.None? then [b] else [b[..bar.value]] + SplitB(b[bar.value + 1..])
  }

  lemma {:induction false} SplitOnBytes(s: string)
    ensures SplitB(Encode(s)) == EncodeAll(Split(s))
    decreases |s|
  {
    hide Encode, FindB, Find, SplitB, EncodeAll, Split;
    FindOnBytes(s, 0, AtChar('|'));
    SplitStep(s);
    SplitStepB(Encode(s));
    var bar := Find(s, 0, AtChar('|'));
    if bar.Some? {
      CutAtAscii(Encode(s), Offset(s, bar.value), s, bar.value);
      SplitOnBytes(s[bar.value + 1..]);
      EncodeAllFirst(s[..bar.value], Split(s[bar.value + 1..]));
    } else {
      EncodeAllFirst(s, []);
    }
  }

  lemma SplitStep(s: string)
    ensures var bar := Find(s, 0, AtChar('|'));
      Split(s) == if bar.None? then [s] + [] else [s[..bar.value]] + Split(s[bar.value + 1..])
  {
    hide Find;
  }

  lemma SplitStepB(b: seq<Byte>)
    ensures var bar := FindB(b, 0, Some(BAR));
      SplitB(b) == if bar.None? then [b] + [] else [b[..bar.value]] + SplitB(b[bar.value + 1..])
  {
    hide FindB;
  }

  lemma EncodeAllFirst(first: string, more: seq<string>)
    ensures EncodeAll([first] + more) == [Encode(first)] + EncodeAll(more)
    ensures EncodeAll([]) == []
  {
    hide Encode;
    assert ([first] + more)[1..] == more;
  }

  // After an ASCII token of `n` bytes there is a boundary.
  lemma AfterToken(b: seq<Byte>, i: nat, n: nat)
    requires Utf8(b) && 0 < n && i + n <= |b| && b[i + n - 1] < 128
    ensures IsBoundary(b, i + n)
  {
    AsciiBoundaries(b, i + n - 1);
  }

  // The token at `j` of `t` when it is not a top-level `|`: how many bytes to
  // copy and the depth behind it; no bytes when `{{{` is never closed.
  method CopyToken(ghost t: seq<Byte>, ghost j: nat, rest: seq<Byte>, depth: int) returns (n: nat, deeper: int)
    requires Utf8(t) && j < |t| && rest == t[j..] && IsBoundary(t, j) && At(t, j, depth, Some(BAR))
    requires TwiceB(rest, LB) || TwiceB(rest, RB) || !(depth == 0 && rest[0] == BAR)
    ensures n == 0 ==> FindB(t, 0, Some(BAR)).None?
    ensures n > 0 ==> j + n <= |t| && IsBoundary(t, j + n) && At(t, j + n, deeper, Some(BAR))
  {
    hide FindB, FindTripleB, Encode, EncodeChar, At, CharLength, IsBoundary;
    if ThriceB(rest, LB) {
      AtTriple(t, j, depth, Some(BAR));
      var close := CloseOfTriple(t, j, rest);
      if close.None? {
        return 0, depth;
      }
      n := 3 + close.value + 3;
      AfterToken(t, j, n);
      return n, depth;
    }
    AtPair(t, j, depth, Some(BAR));
    if TwiceB(rest, LB) {
      AfterToken(t, j, 2);
      return 2, depth + 1;
    }
    if TwiceB(rest, RB) {
      AfterToken(t, j, 2);
      return 2, depth - 1;
    }
    AtWholeChar(t, j, depth, BAR);
    return CharLength(rest), depth;
  }

  // `split_top_level_pipes`: copies whole characters and cuts at every top-level `|`.
  method SplitTopLevelPipes(b: seq<Byte>, ghost s: string) returns (parts: seq<seq<Byte>>)
    requires b == Encode(s)
    ensures parts == EncodeAll(Split(s))
  {
    hide FindB, FindTripleB, Encode, EncodeChar, At, SplitB, CharLength, EncodeAll, Split, IsBoundary, InPart;
    SplitOnBytes(s);
    parts := [];
    var current: seq<Byte> := [];
    var depth := 0;
    var i := 0;
    ghost var start := 0;
    Opening(b);
    while i < |b|
      invariant 0 <= start <= i <= |b|
      invariant InPart(b, start, i, depth, current)
      invariant SplitB(b) == parts + SplitB(b[start..])
    {
      PartSoFar(b, start, i, depth, current);
      WholePart(b, start, i, depth, current);
      PartBoundary(b, start, i, depth, current);
      var rest := From(b, i);
      if depth == 0 && b[i] == BAR {
        PartEnds(b, start, i, current, parts);
        parts := parts + [current];
        current := [];
        i := i + 1;
        start := i;
      } else {
        var n, deeper := CopyToken(b[start..], i - start, rest, depth);
        if n == 0 {
          LastPart(b[start..]);
          return parts + [current + rest];
        }
        depth := deeper;
        Copied(b, start, i, n, depth, current);
        PartBoundary(b, start, i + n, depth, current + b[i..i + n]);
        current := current + Between(b, i, i + n);
        i := i + n;
      }
    }
    PartSoFar(b, start, i, depth, current);
    WholePart(b, start, i, depth, current);
    assert b[i..] == [] && current + [] == current;
    AtEnd(b[start..], depth, Some(BAR));
    LastPart(b[start..]);
    parts := parts + [current];
  }

  // The part begun at `start` has been copied up to `i`.
  ghost predicate InPart(b: seq<Byte>, start: nat, i: nat, depth: int, current: seq<Byte>)
    requires start <= i <= |b|
  {
    && Utf8(b[start..]) && IsBoundary(b[start..], i - start) && current == b[start..i]
    && At(b[start..], i - start, depth, Some(BAR))
  }

  lemma Opening(b: seq<Byte>)
    requires Utf8(b)
    ensures InPart(b, 0, 0, 0, []) && SplitB(b) == [] + SplitB(b[0..])
  {
    assert b[0..] == b;
    Fresh(b, 0);
  }

  lemma PartSoFar(b: seq<Byte>, start: nat, i: nat, depth: int, current: seq<Byte>)
    requires start <= i <= |b| && InPart(b, start, i, depth, current)
    ensures var t, j := b[start..], i - start;
      t[j..] == b[i..] && Utf8(t) && IsBoundary(t, j) && At(t, j, depth, Some(BAR))
  {
  }

  // Where the loop stands is a boundary of the whole text.
  lemma PartBoundary(b: seq<Byte>, start: nat, i: nat, depth: int, current: seq<Byte>)
    requires start <= i <= |b| && InPart(b, start, i, depth, current)
    ensures IsBoundary(b, i)
  {
    hide At, EncodeChar;
    var t := b[start..];
    if i < |b| {
      assert t[i - start] == b[i];
      if i == start {
        var s := TextOf(t);
        assert s != "" && Encode(s)[0] == b[i];
        FirstByte(s);
      }
    }
  }

  lemma WholePart(b: seq<Byte>, start: nat, i: nat, depth: int, current: seq<Byte>)
    requires start <= i <= |b| && InPart(b, start, i, depth, current)
    ensures current + b[i..] == b[start..]
  {
  }

  lemma Copied(b: seq<Byte>, start: nat, i: nat, n: nat, depth: int, current: seq<Byte>)
    requires start <= i && i + n <= |b| && Utf8(b[start..]) && current + b[i..] == b[start..]
    requires IsBoundary(b[start..], i + n - start) && At(b[start..], i + n - start, depth, Some(BAR))
    ensures InPart(b, start, i + n, depth, current + b[i..i + n])
  {
    hide At, IsBoundary;
  }

  lemma PartEnds(b: seq<Byte>, start: nat, i: nat, current: seq<Byte>, parts: seq<seq<Byte>>)
    requires start <= i < |b| && InPart(b, start, i, 0, current) && b[i] == BAR
    requires SplitB(b) == parts + SplitB(b[start..])
    ensures InPart(b, i + 1, i + 1, 0, [])
    ensures SplitB(b) == parts + [current] + SplitB(b[i + 1..])
  {
    hide FindB, SplitB, IsBoundary, At, InPart, Utf8, TwiceB;
    WholePart(b, start, i, 0, current);
    CutPart(b, start, i, current);
    BehindBar(b, start, i, current);
    NextPart(b[start..], i - start);
    Assoc(parts, [current], SplitB(b[i + 1..]));
    Fresh(b, i + 1);
  }

  lemma BehindBar(b: seq<Byte>, start: nat, i: nat, current: seq<Byte>)
    requires start <= i < |b| && InPart(b, start, i, 0, current) && b[i] == BAR
    requires b[start..][i - start + 1..] == b[i + 1..] && b[start..][i - start] == b[i]
    ensures FindB(b[start..], 0, Some(BAR)) == Some(i - start) && Utf8(b[i + 1..])
  {
    hide FindB, IsBoundary, At, InPart, Utf8, TwiceB;
    var t, j := b[start..], i - start;
    PartSoFar(b, start, i, 0, current);
    BarIsNoPair(t, j);
    AtByte(t, j, 0, Some(BAR));
    AfterToken(t, j, 1);
    SliceIsText(t, j + 1);
  }

  lemma BarIsNoPair(b: seq<Byte>, i: nat)
    requires i < |b| && b[i] == BAR
    ensures !TwiceB(b[i..], LB) && !TwiceB(b[i..], RB)
  {
    assert b[i..][0] == b[i];
  }

  lemma CutPart(b: seq<Byte>, start: nat, i: nat, current: seq<Byte>)
    requires start <= i < |b| && current + b[i..] == b[start..]
    ensures b[start..][..i - start] == current && b[start..][i - start + 1..] == b[i + 1..]
    ensures b[start..][i - start] == b[i]
  {
    assert |b[start..]| == |current| + |b[i..]|;
  }

  lemma Fresh(b: seq<Byte>, i: nat)
    requires i <= |b| && Utf8(b[i..])
    ensures InPart(b, i, i, 0, [])
  {
    AtStart(b[i..], Some(BAR));
  }

  lemma LastPart(b: seq<Byte>)
    requires FindB(b, 0, Some(BAR)).None?
    ensures SplitB(b) == [b]
  {
  }

  lemma NextPart(b: seq<Byte>, i: nat)
    requires FindB(b, 0, Some(BAR)) == Some(i) && i < |b|
    ensures SplitB(b) == [b[..i]] + SplitB(b[i + 1..])
  {
  }
}
