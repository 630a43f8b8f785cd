// Where diagnostics are pinned: to the page-level call during whose expansion
// they are emitted.
module Pins {
  import opened Text
  import opened Scanner
  import opened Wikitext
  import opened Expander
  import opened RoundTrip
  import opened Transclusion
  import opened Pieces
  import opened Runs

  // Offsets at which the page's own scan takes a call, from `i` on.
  function PageCalls(source: string, i: nat): (calls: seq<nat>)
    requires i <= |source|
    ensures InText(source, calls)
    decreases |source| - i
  {
    if i == |source| then []
    else
      var (piece, n) := FirstPiece(source[i..], false);
      (if piece.Called? then [i] else []) + PageCalls(source, i + n)
  }

  predicate InText(source: string, calls: seq<nat>) {
    forall k | 0 <= k < |calls| :: calls[k] < |source|
  }

  // What happens while the page-level call at `o` is expanded.
  function CallLog(env: Env, fuel: nat, source: string, o: nat): seq<Event>
    requires o < |source|
  {
    ExpandStep(env, fuel, source, o, TOP).out.log
  }

  // The same for several calls, up to one that does not return.
  function CallLogs(env: Env, fuel: nat, source: string, calls: seq<nat>): seq<Event>
    requires InText(source, calls)
  {
    if calls == [] then []
    else if ExpandStep(env, fuel, source, calls[0], TOP).out.OutOfFuel? then CallLog(env, fuel, source, calls[0])
    else CallLog(env, fuel, source, calls[0]) + CallLogs(env, fuel, source, calls[1..])
  }

  lemma {:induction false} LogIsOfCalls(env: Env, fuel: nat, source: string, i: nat)
    requires i <= |source|
    ensures Expand(env, fuel, source, i, TOP).log == CallLogs(env, fuel, source, PageCalls(source, i))
    decreases |source| - i
  {
    hide ExpandStep, FirstPiece, CallLogs;
    if i < |source| {
      var (piece, n) := FirstPiece(source[i..], false);
      var step := ExpandStep(env, fuel, source, i, TOP);
      StepTakesPiece(env, fuel, source, i, TOP);
      LogIsOfCalls(env, fuel, source, i + n);
      var rest := PageCalls(source, i + n);
      var later := CallLogs(env, fuel, source, rest);
      if piece.Called? {
        FirstCallLog(env, fuel, source, i, rest);
      } else {
        assert [] + rest == rest && [] + later == later;
      }
    } else {
      assert CallLogs(env, fuel, source, []) == [] by { NoCallLogs(env, fuel, source); }
    }
  }

  lemma NoCallLogs(env: Env, fuel: nat, source: string)
    ensures CallLogs(env, fuel, source, []) == []
  {
  }

  lemma FirstCallLog(env: Env, fuel: nat, source: string, o: nat, rest: seq<nat>)
    requires o < |source| && InText(source, rest)
    ensures InText(source, [o] + rest)
    ensures var step := ExpandStep(env, fuel, source, o, TOP);
      CallLogs(env, fuel, source, [o] + rest) ==
      if step.out.OutOfFuel? then step.out.log else step.out.log + CallLogs(env, fuel, source, rest)
  {
    hide ExpandStep;
    assert ([o] + rest)[1..] == rest;
  }

  // Everything that happens on a page happens in its calls, one after the other.
  lemma PageRunsItsCalls(env: Env, fuel: nat, source: string)
    requires fuel > 0
    ensures ExpandPage(env, fuel, source).log
         == [Entered([], 0, 0)] + CallLogs(env, fuel - 1, source, PageCalls(source, 0))
  {
    hide Expand;
    LogIsOfCalls(env, fuel - 1, source, 0);
  }

  lemma CallIsPinned(env: Env, fuel: nat, source: string, o: nat, e: Event)
    requires o < |source| && FirstPiece(source[o..], false).0.Called?
    requires e in CallLog(env, fuel, source, o) && e.Diagnostic?
    ensures e.site == LineCol(source, o)
  {
    hide ExpandStep, ExpandCall, FindTriple, Find, IsCall;
    StepTakesPiece(env, fuel, source, o, TOP);
    CallFits(env, fuel, source[o..], LineCol(source, o), TOP);
  }

  lemma {:induction false} CallsAreCalls(source: string, i: nat, o: nat)
    requires i <= |source| && o in PageCalls(source, i)
    ensures o < |source| && FirstPiece(source[o..], false).0.Called?
    decreases |source| - i
  {
    hide FirstPiece;
    var (piece, n) := FirstPiece(source[i..], false);
    if !(piece.Called? && o == i) {
      CallsAreCalls(source, i + n, o);
    }
  }

  lemma {:induction false} LoggedInACall(env: Env, fuel: nat, source: string, calls: seq<nat>, e: Event)
    requires InText(source, calls)
    requires e in CallLogs(env, fuel, source, calls)
    ensures exists o | o in calls :: e in CallLog(env, fuel, source, o)
  {
    hide CallLog;
    if e in CallLog(env, fuel, source, calls[0]) {
      assert calls[0] in calls;
    } else {
      LoggedInACall(env, fuel, source, calls[1..], e);
    }
  }

  // Every diagnostic, at whatever nesting, carries the line and column of the
  // page-level call during whose expansion it is emitted.
  lemma DiagnosticsPinToThePage(env: Env, fuel: nat, source: string, e: Event)
    requires fuel > 0 && e in ExpandPage(env, fuel, source).log && e.Diagnostic?
    ensures exists o | o in PageCalls(source, 0) ::
              e in CallLog(env, fuel - 1, source, o) && e.site == LineCol(source, o) && Counts(e.site, source, o)
  {
    hide Counts;
    hide ExpandPage, CallLogs, CallLog;
    PageRunsItsCalls(env, fuel, source);
    LoggedInACall(env, fuel - 1, source, PageCalls(source, 0), e);
    var o :| o in PageCalls(source, 0) && e in CallLog(env, fuel - 1, source, o);
    CallsAreCalls(source, 0, o);
    CallIsPinned(env, fuel - 1, source, o, e);
    LineColCounts(source, o);
  }

  // ---- On printed source

  // Offsets of the calls at the top level of a tree written at `i`.
  function TopCalls(t: Doc, i: nat): seq<nat> {
    match t
    case End => []
    case Plain(text, rest) => TopCalls(rest, i + |text|)
    case Ref(name, default, rest) => TopCalls(rest, i + |"{{{" + PrintRef(name, default) + "}}}"|)
    case Call(name, args, rest) => [i] + TopCalls(rest, i + |"{{" + (name + PrintArgs(args)) + "}}"|)
  }

  // What the scan makes of the piece `x` at `i`.
  lemma CallsFrom(source: string, i: nat, x: string, rest: string, called: bool)
    requires i <= |source| && source[i..] == x + rest && x != ""
    requires var (piece, n) := FirstPiece(x + rest, false); n == |x| && (piece.Called? <==> called)
    ensures i + |x| <= |source|
    ensures PageCalls(source, i) == (if called then [i] else []) + PageCalls(source, i + |x|)
  {
    hide FirstPiece;
    assert |source| - i == |x| + |rest|;
  }

  lemma {:induction false} PlainHasNoCalls(source: string, i: nat, text: string, rest: string)
    requires i <= |source| && source[i..] == text + rest && BraceFree(text)
    ensures i + |text| <= |source| && PageCalls(source, i) == PageCalls(source, i + |text|)
    decreases |text|
  {
    hide FirstPiece, PageCalls;
    assert |source| - i == |text| + |rest|;
    if text != "" {
      var c, more := text[..1], text[1..] + rest;
      assert source[i..] == c + more && source[i + 1..] == more;
      assert text[0] in text;
      CharIsCopied(c, more);
      CallsFrom(source, i, c, more, false);
      PlainHasNoCalls(source, i + 1, text[1..], rest);
      assert [] + PageCalls(source, i + 1) == PageCalls(source, i + 1);
    }
  }

  lemma CharIsCopied(c: string, more: string)
    requires |c| == 1 && c[0] != '{'
    ensures FirstPiece(c + more, false) == (Copied(c), 1)
  {
    assert (c + more)[..1] == c;
  }

  lemma RefIsNoCall(inner: string, rest: string)
    requires Closed(inner)
    ensures var s := "{{{" + inner + "}}}" + rest;
      s != "" && FirstPiece(s, false) == (Copied(s[..|inner| + 6]), |inner| + 6)
  {
    hide FindTriple;
    RefCloses(inner, rest);
    Enclosed("{{{", inner, "}}}", rest);
  }

  lemma CallIsCall(name: string, args: Args, rest: string)
    requires BraceFree(name) && '|' !in name && Trim(name) != "" && WellFormedArgs(args)
    ensures var inner := name + PrintArgs(args); var s := "{{" + inner + "}}" + rest;
      s != "" && FirstPiece(s, false) == (Called(inner), |inner| + 4)
  {
    hide Find, FindTriple, PrintArgs, WellFormedArgs, Trim, TrimStart, Split, FunctionName, ArgTexts;
    ReadCall(name, args, rest);
    ReadHead(name, args);
  }

  // The page-level calls of printed source are the calls at the top of the tree:
  // none inside an argument, a default, or a reference.
  lemma {:induction false} PageCallsArePrintedCalls(source: string, i: nat, t: Doc)
    requires i <= |source| && source[i..] == Print(t) && WellFormed(t)
    ensures PageCalls(source, i) == TopCalls(t, i)
    decreases t
  {
    hide FirstPiece, FindTriple, PrintRef, PrintArgs, PageCalls, WellFormedArgs, Trim;
    match t
    case End => NoneLeft(source, i);
    case Plain(text, rest) =>
      PlainHasNoCalls(source, i, text, Print(rest));
      Onward(source, i, text, Print(rest));
      PageCallsArePrintedCalls(source, i + |text|, rest);
    case Ref(name, default, rest) =>
      var written := "{{{" + PrintRef(name, default) + "}}}";
      Onward(source, i, written, Print(rest));
      RefIsNoCall(PrintRef(name, default), Print(rest));
      CallsFrom(source, i, written, Print(rest), false);
      PageCallsArePrintedCalls(source, i + |written|, rest);
      assert [] + PageCalls(source, i + |written|) == PageCalls(source, i + |written|);
    case Call(name, args, rest) =>
      var written := "{{" + (name + PrintArgs(args)) + "}}";
      Onward(source, i, written, Print(rest));
      CallIsCall(name, args, Print(rest));
      CallsFrom(source, i, written, Print(rest), true);
      PageCallsArePrintedCalls(source, i + |written|, rest);
  }

  lemma NoneLeft(source: string, i: nat)
    requires i <= |source| && source[i..] == ""
    ensures PageCalls(source, i) == []
  {
  }

  // ---- Positions

  predicate Before(a: Site, b: Site) {
    a.line < b.line || (a.line == b.line && a.col < b.col)
  }

  lemma {:induction false} AdvanceMoves(at: Site, s: string)
    requires s != "" && at.col >= 1
    ensures Before(at, Advance(at, s))
    decreases |s|
  {
    var next := if s[0] == '\n' then Site(at.line + 1, 1) else Site(at.line, at.col + 1);
    assert Advance(at, s) == Advance(next, s[1..]);
    if |s| > 1 {
      AdvanceMoves(next, s[1..]);
    }
  }

  lemma {:induction false} ColumnsStartAtOne(at: Site, s: string)
    requires at.col >= 1
    ensures Advance(at, s).col >= 1
    decreases |s|
  {
    if s != "" {
      ColumnsStartAtOne(if s[0] == '\n' then Site(at.line + 1, 1) else Site(at.line, at.col + 1), s[1..]);
    }
  }

  // Positions grow strictly with the offset, so a pin identifies one offset.
  lemma LineColIncreases(source: string, i: nat, j: nat)
    requires i < j <= |source|
    ensures Before(LineCol(source, i), LineCol(source, j))
  {
    assert source[..j] == source[..i] + source[i..j];
    AdvanceOver(Site(1, 1), source[..i], source[i..j]);
    ColumnsStartAtOne(Site(1, 1), source[..i]);
    AdvanceMoves(LineCol(source, i), source[i..j]);
  }
}
