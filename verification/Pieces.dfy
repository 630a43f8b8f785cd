// The pieces the worker's loop cuts a text into.
module Pieces {
  import opened Text
  import opened Scanner
  import opened Expander

  datatype Piece<T> = Copied(text: T) | Reference(inner: T) | Called(inner: T)

  // Whether the braces around this text are taken as a call.
  predicate IsCall(inner: string) {
    var trimmed := TrimStart(inner);
    (trimmed != "" && trimmed[0] == '#') || Trim(Split(inner)[0]) != ""
  }

  // The next piece, and how much text it covers.
  function FirstPiece(s: string, inTemplate: bool): (r: (Piece<string>, nat))
    requires s != ""
    ensures 0 < r.1 <= |s|
    ensures r.0.Reference? ==> inTemplate && |r.0.inner| < |s|
  {
    var close := if Thrice(s, '{') then FindTriple(s[3..]) else None;
    if close.Some? then
      var n := 3 + close.value + 3;
      (if inTemplate then Reference(s[3..3 + close.value]) else Copied(s[..n]), n)
    else
      var end := if Twice(s, '{') then Find(s[2..], 0, AtClose) else None;
      if end.Some? && IsCall(s[2..2 + end.value]) then (Called(s[2..2 + end.value]), 2 + end.value + 2)
      else (Copied(s[..1]), 1)
  }

  lemma CalledIsClosed(s: string, inTemplate: bool)
    requires s != "" && FirstPiece(s, inTemplate).0.Called?
    ensures var inner := FirstPiece(s, inTemplate).0.inner;
      Twice(s, '{') && Find(s[2..], 0, AtClose) == Some(|inner|) && s[2..2 + |inner|] == inner
  {
    hide Find, FindTriple, IsCall;
  }

  function PiecesOf(s: string, inTemplate: bool): seq<Piece<string>>
    decreases |s|
  {
    if s == "" then []
    else
      var (piece, n) := FirstPiece(s, inTemplate);
      [piece] + PiecesOf(s[n..], inTemplate)
  }

  // Each step of the expansion takes off one piece.
  lemma StepTakesPiece(env: Env, fuel: nat, body: string, i: nat, f: Frame)
    requires i < |body|
    ensures var (piece, n) := FirstPiece(body[i..], f.inTemplate); var step := ExpandStep(env, fuel, body, i, f);
      && step.consumed == n
      && (piece.Copied? ==> step.out == Done(piece.text, []))
      && (piece.Reference? ==> step.out == ExpandRef(env, fuel, piece.inner, f))
      && (piece.Called? ==> Some(step) == ExpandCall(env, fuel, body[i..], SiteAt(f, body, i), f))
  {
    hide FindTriple, ExpandRef, ExpandCall, FirstPiece;
    FirstPieceIs(body[i..], f.inTemplate);
    var s := body[i..];
    if Twice(s, '{') {
      CallIsTaken(env, fuel, s, SiteAt(f, body, i), f);
    }
  }

  lemma FirstPieceIs(s: string, inTemplate: bool)
    requires s != ""
    ensures var close := if Thrice(s, '{') then FindTriple(s[3..]) else None;
      var (piece, n) := FirstPiece(s, inTemplate);
      if close.Some? then
        && n == 3 + close.value + 3
        && piece == if inTemplate then Reference(s[3..3 + close.value]) else Copied(s[..n])
      else if Twice(s, '{') && TakenAt(s) then
        piece == Called(s[2..2 + Find(s[2..], 0, AtClose).value]) && n == 2 + Find(s[2..], 0, AtClose).value + 2
      else piece == Copied(s[..1]) && n == 1
  {
    hide FindTriple, Find, IsCall;
  }

  // The braces at the head of `s` are taken as a call.
  predicate TakenAt(s: string)
    requires Twice(s, '{')
  {
    var end := Find(s[2..], 0, AtClose);
    end.Some? && IsCall(s[2..2 + end.value])
  }

  lemma CallIsTaken(env: Env, fuel: nat, s: string, site: Site, f: Frame)
    requires Twice(s, '{')
    ensures var call := ExpandCall(env, fuel, s, site, f);
      && (call.Some? <==> TakenAt(s))
      && (call.Some? ==> call.value.consumed == 2 + Find(s[2..], 0, AtClose).value + 2)
  {
    hide Find, Transclude, Split, Trim, TrimStart, FunctionName;
  }
}
