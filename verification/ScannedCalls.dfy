// Which calls of a text, well-formed or not, the prefetcher sees.
module ScannedCalls {
  import opened Text
  import opened Scanner
  import opened RoundTrip
  import opened Pieces

  // The inner texts of the calls the prefetcher sees.
  function CallTexts(s: string): set<string>
    decreases |s|
  {
    if s == "" then {}
    else if !Twice(s, '{') then CallTexts(s[1..])
    else if Thrice(s, '{') then
      var close := FindTriple(s[3..]);
      if close.Some? then CallTexts(s[3 + close.value + 3..]) else {}
    else
      var close := Find(s[2..], 0, AtClose);
      if close.None? then {}
      else
        var inner := s[2..2 + close.value];
        CallTexts(inner) + {inner} + CallTexts(s[2 + close.value + 2..])
  }

  // ---- Calls the worker takes

  // Wherever the prefetcher meets braces they are closed.
  predicate AllClosed(s: string)
    decreases |s|
  {
    if s == "" then true
    else if !Twice(s, '{') then AllClosed(s[1..])
    else if Thrice(s, '{') then
      var close := FindTriple(s[3..]);
      close.Some? && AllClosed(s[3 + close.value + 3..])
    else
      var close := Find(s[2..], 0, AtClose);
      close.Some? && AllClosed(s[2..2 + close.value]) && AllClosed(s[2 + close.value + 2..])
  }

  predicate NoBraceFirst(s: string) {
    s == "" || s[0] != '{'
  }

  // The text at whose head the scan gives up, over braces that are never closed;
  // empty when it never does.
  function Behind(s: string): string
    decreases |s|
  {
    if s == "" then ""
    else if !Twice(s, '{') then Behind(s[1..])
    else if Thrice(s, '{') then
      var close := FindTriple(s[3..]);
      if close.Some? then Behind(s[3 + close.value + 3..]) else s
    else
      var close := Find(s[2..], 0, AtClose);
      if close.Some? then Behind(s[2 + close.value + 2..]) else s
  }

  lemma StepPlain(s: string)
    requires s != "" && !Twice(s, '{')
    ensures CallTexts(s) == CallTexts(s[1..]) && Behind(s) == Behind(s[1..]) && (AllClosed(s) <==> AllClosed(s[1..]))
  {
  }

  lemma StepTriple(s: string)
    requires Thrice(s, '{') && FindTriple(s[3..]).Some?
    ensures var rest := s[3 + FindTriple(s[3..]).value + 3..];
      CallTexts(s) == CallTexts(rest) && Behind(s) == Behind(rest) && (AllClosed(s) <==> AllClosed(rest))
  {
    hide FindTriple;
  }

  lemma StepPair(s: string)
    requires Twice(s, '{') && !Thrice(s, '{') && Find(s[2..], 0, AtClose).Some?
    ensures var k := Find(s[2..], 0, AtClose).value; var inner, rest := s[2..2 + k], s[2 + k + 2..];
      && CallTexts(s) == CallTexts(inner) + {inner} + CallTexts(rest) && Behind(s) == Behind(rest)
      && (AllClosed(s) <==> AllClosed(inner) && AllClosed(rest))
  {
    hide Find;
  }

  // The braces at the head of `s` are closed.
  predicate ClosesHere(s: string)
    requires Twice(s, '{')
  {
    if Thrice(s, '{') then FindTriple(s[3..]).Some? else Find(s[2..], 0, AtClose).Some?
  }

  lemma StepOpen(s: string)
    requires Twice(s, '{') && !ClosesHere(s)
    ensures Behind(s) == s && !AllClosed(s)
  {
    hide Find, FindTriple;
  }

  // Behind a text whose braces are closed the scan starts afresh.
  lemma {:induction false} ScansApart(x: string, y: string)
    requires AllClosed(x) && NoBraceFirst(y)
    ensures CallTexts(x + y) == CallTexts(x) + CallTexts(y) && Behind(x + y) == Behind(y)
    ensures AllClosed(y) ==> AllClosed(x + y)
    decreases |x|
  {
    var s := x + y;
    if x == "" {
      assert s == y;
    } else if !Twice(x, '{') {
      assert !Twice(s, '{') && s[1..] == x[1..] + y;
      hide CallTexts, AllClosed, Behind, Twice, Thrice, NoBraceFirst;
      StepPlain(x);
      StepPlain(s);
      ScansApart(x[1..], y);
    } else if Thrice(x, '{') {
      TripleApart(x, y);
      hide CallTexts, AllClosed, Behind, FindTriple;
      ScansApart(x[3 + FindTriple(x[3..]).value + 3..], y);
    } else {
      PairApart(x, y);
      hide CallTexts, AllClosed, Behind, Find;
      ScansApart(x[2 + Find(x[2..], 0, AtClose).value + 2..], y);
    }
  }

  lemma TripleApart(x: string, y: string)
    requires AllClosed(x) && Thrice(x, '{')
    ensures FindTriple(x[3..]).Some?
    ensures var w := 3 + FindTriple(x[3..]).value + 3; var s := x + y;
      && CallTexts(x) == CallTexts(x[w..]) && CallTexts(s) == CallTexts(x[w..] + y) && Behind(s) == Behind(x[w..] + y)
      && AllClosed(x[w..]) && (AllClosed(s) <==> AllClosed(x[w..] + y))
  {
    hide CallTexts, AllClosed, Behind, FindTriple;
    var s := x + y;
    ClosedHere(x);
    DropOver(x, y, 3);
    FindTriplePrefix(x[3..], y);
    DropOver(x, y, 3 + FindTriple(x[3..]).value + 3);
    StillThrice(x, y);
    hide Thrice;
    StepTriple(x);
    StepTriple(s);
  }

  lemma StillThrice(x: string, y: string)
    requires Thrice(x, '{')
    ensures Thrice(x + y, '{')
  {
  }

  lemma DropOver(x: string, y: string, w: nat)
    requires w <= |x|
    ensures (x + y)[w..] == x[w..] + y
  {
  }

  lemma PairApart(x: string, y: string)
    requires AllClosed(x) && Twice(x, '{') && !Thrice(x, '{')
    ensures Find(x[2..], 0, AtClose).Some?
    ensures var k := Find(x[2..], 0, AtClose).value; var s := x + y;
      var inner, rest := x[2..2 + k], x[2 + k + 2..];
      && CallTexts(x) == CallTexts(inner) + {inner} + CallTexts(rest)
      && CallTexts(s) == CallTexts(inner) + {inner} + CallTexts(rest + y) && Behind(s) == Behind(rest + y)
      && AllClosed(rest) && (AllClosed(s) <==> AllClosed(rest + y))
  {
    var s := x + y;
    assert s[2..] == x[2..] + y;
    assert !Thrice(s, '{') && Twice(s, '{');
    ClosedHere(x);
    FindPrefix(x[2..], y, 0, AtClose);
    hide CallTexts, AllClosed, Behind, Find;
    StepPair(x);
    StepPair(s);
    var k := Find(x[2..], 0, AtClose).value;
    SlicesOver(x, y, k);
  }

  lemma SlicesOver(x: string, y: string, k: nat)
    requires 2 + k + 2 <= |x|
    ensures var s := x + y; s[2..2 + k] == x[2..2 + k] && s[2 + k + 2..] == x[2 + k + 2..] + y
  {
  }

  // ---- What stands between a pair and its close is closed itself

  // A close that is found in `s` is found in every part of `s` that has it.
  lemma {:induction false} FindTripleInFront(s: string, q: nat)
    requires q <= |s| && FindTriple(s).Some? && FindTriple(s).value + 3 <= q
    ensures FindTriple(s[..q]) == FindTriple(s)
  {
    if !Thrice(s, '}') {
      assert s[..q][1..] == s[1..][..q - 1];
      FindTripleInFront(s[1..], q - 1);
    }
  }

  lemma {:induction false} FindInFront(s: string, q: nat, depth: int)
    requires q <= |s| && Find(s, depth, AtClose).Some? && Find(s, depth, AtClose).value + 2 <= q
    ensures Find(s[..q], depth, AtClose) == Find(s, depth, AtClose)
    decreases |s|
  {
    hide Find, FindTriple;
    FindNothing(depth, AtClose);
    var p := s[..q];
    if Thrice(s, '{') {
      FindOverTriple(s, depth, AtClose);
      var w := 3 + FindTriple(s[3..]).value + 3;
      assert p[3..] == s[3..][..q - 3] && p[w..] == s[w..][..q - w];
      FindTripleInFront(s[3..], q - 3);
      FindOverTriple(p, depth, AtClose);
      FindInFront(s[w..], q - w, depth);
    } else {
      FindOverRest(s, depth, AtClose);
      FindOverRest(p, depth, AtClose);
      FrontToken(s, q, depth);
      if Twice(s, '{') {
        FindInFront(s[2..], q - 2, depth + 1);
      } else if Twice(s, '}') {
        if depth != 0 {
          FindInFront(s[2..], q - 2, depth - 1);
        }
      } else {
        FindInFront(s[1..], q - 1, depth);
      }
    }
  }

  lemma FrontToken(s: string, q: nat, depth: int)
    requires q <= |s| && q >= 2 && !Thrice(s, '{')
    ensures var p := s[..q];
      && !Thrice(p, '{') && (Twice(p, '{') <==> Twice(s, '{')) && (Twice(p, '}') <==> Twice(s, '}'))
      && p[1..] == s[1..][..q - 1] && p[2..] == s[2..][..q - 2]
  {
  }

  // The scan at depth `outer` finds its close behind that at depth `e`, and from
  // there on the scan at depth `d` finds it at the same place.
  predicate ClosesBehind(s: string, outer: int, e: int, d: int)
    requires Find(s, outer, AtClose).Some?
  {
    var k, j := Find(s, outer, AtClose).value, Find(s, e, AtClose);
    j.Some? && j.value + 2 <= k && Find(s[j.value + 2..], d, AtClose) == Some(k - j.value - 2)
  }

  lemma ClosesFurtherOn(s: string, w: nat, outer: int, e: int, d: int, outer': int, e': int)
    requires w <= |s| && Find(s[w..], outer', AtClose).Some? && ClosesBehind(s[w..], outer', e', d)
    requires Find(s, outer, AtClose) == Shift(w, Find(s[w..], outer', AtClose))
    requires Find(s, e, AtClose) == Shift(w, Find(s[w..], e', AtClose))
    ensures ClosesBehind(s, outer, e, d)
  {
    hide Find;
    var j := Find(s[w..], e', AtClose).value;
    assert s[w..][j + 2..] == s[w + j + 2..];
  }

  lemma {:induction false} CloseBehindClose(s: string, e: nat, d: nat)
    requires Find(s, e + 1 + d, AtClose).Some?
    ensures ClosesBehind(s, e + 1 + d, e, d)
    decreases |s|
  {
    hide Find, FindTriple, ClosesBehind;
    var outer := e + 1 + d;
    FindNothing(outer, AtClose);
    if Thrice(s, '{') {
      FindOverTriple(s, outer, AtClose);
      FindOverTriple(s, e, AtClose);
      var w := 3 + FindTriple(s[3..]).value + 3;
      CloseBehindClose(s[w..], e, d);
      ClosesFurtherOn(s, w, outer, e, d, outer, e);
    } else {
      FindOverRest(s, outer, AtClose);
      FindOverRest(s, e, AtClose);
      if Twice(s, '{') {
        CloseBehindClose(s[2..], e + 1, d);
        ClosesFurtherOn(s, 2, outer, e, d, outer + 1, e + 1);
      } else if !Twice(s, '}') {
        CloseBehindClose(s[1..], e, d);
        ClosesFurtherOn(s, 1, outer, e, d, outer, e);
      } else if e > 0 {
        CloseBehindClose(s[2..], e - 1, d);
        ClosesFurtherOn(s, 2, outer, e, d, outer - 1, e - 1);
      } else {
        ClosesAtOnce(s, d);
      }
    }
  }

  lemma ClosesAtOnce(s: string, d: nat)
    requires Twice(s, '}') && Find(s, 1 + d, AtClose).Some?
    ensures ClosesBehind(s, 1 + d, 0, d)
  {
    FindOverRest(s, 1 + d, AtClose);
    FindOverRest(s, 0, AtClose);
    hide Find;
  }

  lemma {:induction false} InFrontIsClosed(s: string, d: nat)
    requires Find(s, d, AtClose).Some?
    ensures AllClosed(s[..Find(s, d, AtClose).value])
    decreases |s|
  {
    hide Find, FindTriple, AllClosed, CallTexts, Behind;
    FindNothing(d, AtClose);
    NothingIsClosed();
    var k := Find(s, d, AtClose).value;
    var p := s[..k];
    if Thrice(s, '{') {
      FindOverTriple(s, d, AtClose);
      var w := 3 + FindTriple(s[3..]).value + 3;
      InFrontIsClosed(s[w..], d);
      assert p[3..] == s[3..][..k - 3] && p[w..] == s[w..][..k - w];
      FindTripleInFront(s[3..], k - 3);
      StepTriple(p);
    } else {
      FindOverRest(s, d, AtClose);
      if Twice(s, '{') {
        PairInFront(s, d);
      } else if Twice(s, '}') {
        if d > 0 {
          InFrontIsClosed(s[2..], d - 1);
          assert p[1..][1..] == s[2..][..k - 2];
          assert p[0] == '}' && p[1..][0] == '}';
          StepPlain(p);
          StepPlain(p[1..]);
        }
      } else {
        InFrontIsClosed(s[1..], d);
        assert p[1..] == s[1..][..k - 1];
        StepPlain(p);
      }
    }
  }

  lemma {:induction false} PairInFront(s: string, d: nat)
    requires Twice(s, '{') && !Thrice(s, '{') && Find(s, d, AtClose).Some?
    ensures AllClosed(s[..Find(s, d, AtClose).value])
    decreases |s|, 0
  {
    hide Find, FindTriple, AllClosed, CallTexts, Behind;
    FindOverRest(s, d, AtClose);
    var y := s[2..];
    var k := Find(y, d + 1, AtClose).value;
    CloseBehindClose(y, 0, d);
    var j := Find(y, 0, AtClose).value;
    FindInFront(y, k, 0);
    InFrontIsClosed(y, 0);
    InFrontIsClosed(y[j + 2..], d);
    var p := s[..2 + k];
    assert p[2..] == y[..k];
    assert p[2..2 + j] == y[..j];
    assert p[2 + j + 2..] == y[j + 2..][..k - j - 2];
    assert Twice(p, '{') && !Thrice(p, '{');
    StepPair(p);
  }

  lemma NothingIsClosed()
    ensures AllClosed("")
  {
  }

  // What is left when the worker copies the first brace of `{{` and goes on.
  lemma BehindOneBrace(s: string)
    requires Twice(s, '{') && !Thrice(s, '{') && ClosesHere(s)
    ensures CallTexts(s[1..]) <= CallTexts(s) && Behind(s[1..]) == Behind(s)
  {
    var k := Find(s[2..], 0, AtClose).value;
    var inner, rest := s[2..2 + k], s[2 + k + 2..];
    var tail := "}}" + rest;
    assert s[1..][1..] == s[2..] == inner + tail;
    assert tail[1..] == "}" + rest && tail[1..][1..] == rest;
    InFrontIsClosed(s[2..], 0);
    assert s[2..][..k] == inner;
    hide CallTexts, AllClosed, Behind, Find;
    StepPair(s);
    StepPlain(s[1..]);
    StepPlain(tail);
    StepPlain(tail[1..]);
    ScansApart(inner, tail);
  }

  // ---- The calls the worker takes

  // The prefetcher does not give up at the head of `s`.
  predicate GoesOn(s: string) {
    Twice(s, '{') ==> ClosesHere(s)
  }

  // Where it goes on, it sees the worker's first piece if that is a call, and no
  // less than from the rest; and it gives up at the same place.
  lemma OnePieceOn(s: string, inTemplate: bool)
    requires s != "" && GoesOn(s)
    ensures var (piece, n) := FirstPiece(s, inTemplate);
      && Behind(s[n..]) == Behind(s) && CallTexts(s[n..]) <= CallTexts(s)
      && (piece.Called? ==> piece.inner in CallTexts(s))
  {
    hide CallTexts, AllClosed, Behind, Find, FindTriple, IsCall, FirstPiece;
    FirstPieceIs(s, inTemplate);
    if !Twice(s, '{') {
      StepPlain(s);
    } else if Thrice(s, '{') {
      StepTriple(s);
    } else {
      StepPair(s);
      BehindOneBrace(s);
    }
  }

  lemma GivesUp(s: string)
    requires !GoesOn(s)
    ensures Behind(s) == s
  {
    StepOpen(s);
  }

  // Every call the worker takes is one the prefetcher sees, or one the worker
  // takes behind the place where the prefetcher gives up.
  lemma {:induction false} SeenOrBehind(s: string, inTemplate: bool, inner: string)
    requires Called(inner) in PiecesOf(s, inTemplate)
    ensures inner in CallTexts(s) || Called(inner) in PiecesOf(Behind(s), inTemplate)
    decreases |s|
  {
    hide CallTexts, Behind, PiecesOf, FirstPiece, GoesOn;
    FirstOrLater(s, inTemplate, inner);
    var (piece, n) := FirstPiece(s, inTemplate);
    if !GoesOn(s) {
      GivesUp(s);
    } else {
      OnePieceOn(s, inTemplate);
      if piece != Called(inner) {
        SeenOrBehind(s[n..], inTemplate, inner);
      }
    }
  }

  // A call taken behind that place is taken in the whole text.
  lemma {:induction false} BehindIsTaken(s: string, inTemplate: bool, inner: string)
    requires Called(inner) in PiecesOf(Behind(s), inTemplate)
    ensures Called(inner) in PiecesOf(s, inTemplate)
    decreases |s|
  {
    if s != "" {
      hide CallTexts, Behind, PiecesOf, FirstPiece, GoesOn;
      if !GoesOn(s) {
        GivesUp(s);
      } else {
        var (_, n) := FirstPiece(s, inTemplate);
        OnePieceOn(s, inTemplate);
        BehindIsTaken(s[n..], inTemplate, inner);
        LaterIsTaken(s, inTemplate, inner);
      }
    }
  }

  lemma LaterIsTaken(s: string, inTemplate: bool, inner: string)
    requires s != ""
    ensures var (_, n) := FirstPiece(s, inTemplate);
      Called(inner) in PiecesOf(s[n..], inTemplate) ==> Called(inner) in PiecesOf(s, inTemplate)
  {
    hide FirstPiece;
  }

  // Every call the worker takes in `part` is one the prefetcher sees in `s`.
  ghost predicate AllSeen(part: string, s: string, inTemplate: bool) {
    forall inner :: Called(inner) in PiecesOf(part, inTemplate) ==> inner in CallTexts(s)
  }

  // For any text at all, in a template or on a page: the prefetcher sees every
  // call the worker takes exactly when it sees those the worker takes behind the
  // place where it gives up.
  lemma WorkerCallsAreScannedIff(s: string, inTemplate: bool)
    ensures AllSeen(s, s, inTemplate) <==> AllSeen(Behind(s), s, inTemplate)
  {
    hide CallTexts, Behind, PiecesOf;
    forall inner: string
      ensures Called(inner) in PiecesOf(Behind(s), inTemplate) ==> Called(inner) in PiecesOf(s, inTemplate)
      ensures Called(inner) in PiecesOf(s, inTemplate) ==>
                inner in CallTexts(s) || Called(inner) in PiecesOf(Behind(s), inTemplate)
    {
      if Called(inner) in PiecesOf(Behind(s), inTemplate) {
        BehindIsTaken(s, inTemplate, inner);
      }
      if Called(inner) in PiecesOf(s, inTemplate) {
        SeenOrBehind(s, inTemplate, inner);
      }
    }
  }

  // The scan gives up nowhere exactly when all braces it meets are closed.
  lemma {:induction false} NothingBehindIff(s: string)
    ensures Behind(s) == "" <==> AllClosed(s)
    decreases |s|
  {
    if s == "" {
      return;
    }
    hide CallTexts, AllClosed, Behind, Find, FindTriple;
    if !Twice(s, '{') {
      StepPlain(s);
      NothingBehindIff(s[1..]);
    } else if !ClosesHere(s) {
      StepOpen(s);
    } else if Thrice(s, '{') {
      StepTriple(s);
      NothingBehindIff(s[3 + FindTriple(s[3..]).value + 3..]);
    } else {
      StepPair(s);
      var k := Find(s[2..], 0, AtClose).value;
      InFrontIsClosed(s[2..], 0);
      assert s[2..][..k] == s[2..2 + k];
      NothingBehindIff(s[2 + k + 2..]);
    }
  }

  // In particular when all braces are closed.
  lemma WorkerCallsAreScanned(s: string, inTemplate: bool, inner: string)
    requires AllClosed(s) && Called(inner) in PiecesOf(s, inTemplate)
    ensures inner in CallTexts(s)
  {
    NothingBehindIff(s);
    SeenOrBehind(s, inTemplate, inner);
    assert PiecesOf("", inTemplate) == [];
  }

  lemma FirstOrLater(s: string, inTemplate: bool, inner: string)
    requires Called(inner) in PiecesOf(s, inTemplate)
    ensures s != ""
    ensures var (piece, n) := FirstPiece(s, inTemplate);
      piece == Called(inner) || Called(inner) in PiecesOf(s[n..], inTemplate)
  {
    hide FirstPiece;
  }

  lemma ClosedHere(s: string)
    requires AllClosed(s) && Twice(s, '{')
    ensures if Thrice(s, '{') then FindTriple(s[3..]).Some? else Find(s[2..], 0, AtClose).Some?
  {
    hide Find, FindTriple;
  }
}
