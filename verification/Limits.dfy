// When no call carries an argument, the recursion limit cannot be reported.
module Limits {
  import opened Text
  import opened Scanner
  import opened Expander
  import opened RoundTrip
  import opened Pieces
  import opened Runs

  // The call with this inner text is a parser function or only a name.
  predicate OnlyAName(inner: string) {
    var trimmed := TrimStart(inner);
    (trimmed != "" && trimmed[0] == '#') || Find(inner, 0, AtChar('|')).None?
  }

  // No call in `s`, and none in the defaults of its references, carries an
  // argument. A `|` in plain text or before a default is none.
  predicate NoCallArguments(s: string, inTemplate: bool)
    decreases |s|
  {
    s == "" ||
    var (piece, n) := FirstPiece(s, inTemplate);
    && (piece.Called? ==> OnlyAName(piece.inner))
    && (piece.Reference? ==>
          var default := ParseRef(piece.inner).1; default.Some? ==> NoCallArguments(default.value, true))
    && NoCallArguments(s[n..], inTemplate)
  }

  ghost predicate NoneInTemplates(env: Env) {
    forall key | key in env.resolver.sources :: NoCallArguments(env.resolver.sources[key].body, true)
  }

  // ---- A reference that stands for itself stays without calls

  lemma {:induction false} TripleIsFirst(s: string)
    requires FindTriple(s).Some?
    ensures FindTriple(s[..FindTriple(s).value]).None?
  {
    var k := FindTriple(s).value;
    assert s[..k] + s[k..] == s;
    if FindTriple(s[..k]).Some? {
      FindTriplePrefix(s[..k], s[k..]);
    }
  }

  // Trimming makes neither a `}}}` nor a top-level `|`.
  lemma {:induction false} TrimStartKeepsPlain(s: string)
    requires FindTriple(s).None? && Find(s, 0, AtChar('|')).None?
    ensures FindTriple(TrimStart(s)).None? && Find(TrimStart(s), 0, AtChar('|')).None?
  {
    if s != "" && IsWhitespace(s[0]) {
      assert Lex(s).Single?;
      TrimStartKeepsPlain(s[1..]);
    }
  }

  lemma PrefixKeepsPlain(s: string, k: nat)
    requires k <= |s| && FindTriple(s).None? && Find(s, 0, AtChar('|')).None?
    ensures FindTriple(s[..k]).None? && Find(s[..k], 0, AtChar('|')).None?
  {
    assert s == s[..k] + s[k..];
    if FindTriple(s[..k]).Some? {
      FindTriplePrefix(s[..k], s[k..]);
    }
    if Find(s[..k], 0, AtChar('|')).Some? {
      FindPrefix(s[..k], s[k..], 0, AtChar('|'));
    }
  }

  lemma TrimKeepsPlain(s: string)
    requires FindTriple(s).None? && Find(s, 0, AtChar('|')).None?
    ensures FindTriple(Trim(s)).None? && Find(Trim(s), 0, AtChar('|')).None?
  {
    TrimStartKeepsPlain(s);
    var t := TrimStart(s);
    TrimEndStops(t);
    hide Find, FindTriple;
    assert Trim(s) == t[..|Trim(s)|];
    PrefixKeepsPlain(t, |Trim(s)|);
  }

  lemma {:induction false} ClosesAtTheLatest(name: string)
    ensures var k := FindTriple(name + "}}}"); k.Some? && k.value <= |name|
  {
    if name == "" {
      assert name + "}}}" == "}}}";
    } else {
      assert (name + "}}}")[1..] == name[1..] + "}}}";
      ClosesAtTheLatest(name[1..]);
    }
  }

  lemma {:induction false} ClosesHere(s: string)
    ensures var k := FindTriple(s); k.Some? ==> Thrice(s[k.value..], '}')
  {
    if s != "" && !Thrice(s, '}') {
      ClosesHere(s[1..]);
      var k := FindTriple(s[1..]);
      if k.Some? {
        assert s[1..][k.value..] == s[1 + k.value..];
      }
    }
  }

  lemma {:induction false} HasTriple(s: string, k: nat)
    requires k + 3 <= |s| && Thrice(s[k..], '}')
    ensures FindTriple(s).Some?
    decreases k
  {
    if k == 0 {
      assert s[0..] == s;
    } else {
      assert s[1..][k - 1..] == s[k..];
      HasTriple(s[1..], k - 1);
    }
  }

  lemma {:induction false} NoBracesNoCalls(s: string)
    requires '{' !in s
    ensures NoCallArguments(s, true)
    decreases |s|
  {
    if s != "" {
      assert s[0] in s;
      NoBracesNoCalls(s[1..]);
    }
  }

  // Behind the first `}}}` of the literal only braces are left.
  lemma BehindLiteral(name: string)
    requires FindTriple(name).None?
    ensures var s := name + "}}}"; var k := FindTriple(s); k.Some? && '{' !in s[k.value + 3..]
  {
    var s := name + "}}}";
    ClosesAtTheLatest(name);
    ClosesHere(s);
    var k := FindTriple(s).value;
    if k + 3 <= |name| {
      assert s[k..][0] == name[k..][0] && s[k..][1] == name[k..][1] && s[k..][2] == name[k..][2];
      HasTriple(name, k);
    }
    var rest := s[k + 3..];
    forall c | c in rest ensures c == '}' {
      var j :| 0 <= j < |rest| && rest[j] == c;
      assert s[k + 3 + j] == c;
    }
  }

  lemma LiteralTakesNone(name: string)
    requires FindTriple(name).None? && Find(name, 0, AtChar('|')).None?
    ensures NoCallArguments(Literal(name), true)
  {
    hide Find, FindTriple;
    var s := Literal(name);
    var inside := name + "}}}";
    assert s[3..] == inside && Thrice(s, '{');
    ClosesAtTheLatest(name);
    var k := FindTriple(inside).value;
    assert s[3..3 + k] == name[..k];
    assert s[3 + k + 3..] == inside[k + 3..];
    PrefixKeepsPlain(name, k);
    BehindLiteral(name);
    NoBracesNoCalls(inside[k + 3..]);
    assert ParseRef(name[..k]).1.None?;
  }

  // The text of an unbound reference carries no call arguments either.
  lemma RefTakesNone(s: string)
    requires s != "" && NoCallArguments(s, true) && FirstPiece(s, true).0.Reference?
    ensures NoCallArguments(RefText(FirstPiece(s, true).0.inner, []), true)
  {
    hide NoCallArguments, Find, FindTriple;
    var inner := FirstPiece(s, true).0.inner;
    TakesNoneHere(s, true);
    if ParseRef(inner).1.None? {
      TripleIsFirst(s[3..]);
      assert inner == s[3..][..FindTriple(s[3..]).value];
      TrimKeepsPlain(inner);
      LiteralTakesNone(Trim(inner));
    }
  }

  lemma TakesNoneHere(s: string, inTemplate: bool)
    requires s != "" && NoCallArguments(s, inTemplate)
    ensures var (piece, n) := FirstPiece(s, inTemplate);
      && (piece.Called? ==> OnlyAName(piece.inner))
      && (piece.Reference? ==>
            var default := ParseRef(piece.inner).1; default.Some? ==> NoCallArguments(default.value, true))
      && NoCallArguments(s[n..], inTemplate)
  {
    hide FirstPiece, OnlyAName, ParseRef;
  }

  // ---- Whole runs

  ghost predicate NoArguments(log: seq<Event>) {
    forall e | e in log :: e.argLevels == 0
  }

  predicate Bare(body: string, f: Frame) {
    NoCallArguments(body, f.inTemplate) && f.args == [] && f.argLevels == 0
  }

  lemma {:induction false} BodyBare(env: Env, fuel: nat, body: string, f: Frame)
    requires NoneInTemplates(env) && Bare(body, f)
    ensures NoArguments(ExpandBody(env, fuel, body, f).log)
    decreases fuel, 0, 2, 0
  {
    hide NoCallArguments, NoneInTemplates;
    if fuel > 0 {
      assert body[0..] == body;
      ExpandBare(env, fuel - 1, body, 0, f);
    }
  }

  lemma {:induction false} ExpandBare(env: Env, fuel: nat, body: string, i: nat, f: Frame)
    requires i <= |body| && NoneInTemplates(env) && Bare(body[i..], f)
    ensures NoArguments(Expand(env, fuel, body, i, f).log)
    decreases fuel, |body| - i, 1, 0
  {
    hide Expand, ExpandStep, FirstPiece, NoneInTemplates, Bare;
    LogUnfolds(env, fuel, body, i, f);
    if i < |body| {
      StepBare(env, fuel, body, i, f);
      StepLeavesBare(env, fuel, body, i, f);
      ExpandBare(env, fuel, body, i + ExpandStep(env, fuel, body, i, f).consumed, f);
    }
  }

  lemma LogUnfolds(env: Env, fuel: nat, body: string, i: nat, f: Frame)
    requires i <= |body|
    ensures Expand(env, fuel, body, i, f).log ==
            if i == |body| then []
            else
              var step := ExpandStep(env, fuel, body, i, f);
              if step.out.OutOfFuel? then step.out.log
              else step.out.log + Expand(env, fuel, body, i + step.consumed, f).log
  {
    hide ExpandStep;
  }

  lemma StepLeavesBare(env: Env, fuel: nat, body: string, i: nat, f: Frame)
    requires i < |body| && Bare(body[i..], f)
    ensures Bare(body[i + ExpandStep(env, fuel, body, i, f).consumed..], f)
  {
    hide ExpandStep, FirstPiece, Bare, ExpandRef, ExpandCall;
    StepTakesPiece(env, fuel, body, i, f);
    RestIsBare(body, i, f);
  }

  lemma RestIsBare(body: string, i: nat, f: Frame)
    requires i < |body| && Bare(body[i..], f)
    ensures var (_, n) := FirstPiece(body[i..], f.inTemplate); Bare(body[i + n..], f)
  {
    hide NoCallArguments, FirstPiece;
    var s := body[i..];
    var (_, n) := FirstPiece(s, f.inTemplate);
    TakesNoneHere(s, f.inTemplate);
    assert s[n..] == body[i + n..];
  }

  lemma {:induction false} StepBare(env: Env, fuel: nat, body: string, i: nat, f: Frame)
    requires i < |body| && NoneInTemplates(env) && Bare(body[i..], f)
    ensures NoArguments(ExpandStep(env, fuel, body, i, f).out.log)
    decreases fuel, |body| - i, 0, 0
  {
    hide ExpandStep, ExpandCall, RefText, ExpandBody, NoCallArguments, FirstPiece, OnlyAName, NoneInTemplates;
    var s := body[i..];
    var (piece, n) := FirstPiece(s, f.inTemplate);
    StepTakesPiece(env, fuel, body, i, f);
    TakesNoneHere(s, f.inTemplate);
    if piece.Reference? {
      RefTakesNone(s);
      BodyBare(env, fuel, RefText(piece.inner, []), f.(inTemplate := true));
    } else if piece.Called? {
      CalledIsClosed(s, f.inTemplate);
      CallBare(env, fuel, s, SiteAt(f, body, i), f);
    }
  }

  lemma {:induction false} CallBare(env: Env, fuel: nat, s: string, site: Site, f: Frame)
    requires Twice(s, '{') && NoneInTemplates(env) && f.args == [] && f.argLevels == 0
    requires var end := Find(s[2..], 0, AtClose); end.Some? ==> OnlyAName(s[2..2 + end.value])
    ensures var call := ExpandCall(env, fuel, s, site, f); call.Some? ==> NoArguments(call.value.out.log)
    decreases fuel, 0, 5, 0
  {
    hide Transclude, Trim, TrimStart, FunctionName, NoneInTemplates;
    var end := Find(s[2..], 0, AtClose);
    if end.Some? {
      var inner := s[2..2 + end.value];
      var trimmed := TrimStart(inner);
      if !(trimmed != "" && trimmed[0] == '#') {
        assert Split(inner) == [inner] && Split(inner)[1..] == [];
        TranscludeBare(env, fuel, Trim(inner), site, f);
      }
    }
  }

  lemma {:induction false} TranscludeBare(env: Env, fuel: nat, name: string, site: Site, f: Frame)
    requires NoneInTemplates(env) && f.args == [] && f.argLevels == 0
    ensures NoArguments(Transclude(env, fuel, name, [], site, f).log)
    decreases fuel, 0, 4, 0
  {
    hide NoCallArguments, ParseAddress, ExpandBody, RenderError, ShortNames;
    var key := ParseAddress(name);
    if key in env.resolver.sources {
      var source := env.resolver.sources[key];
      BodyBare(env, fuel, source.body, BodyFrame(f, [], source.id, site));
    }
  }

  // When no call carries an argument and the cap is at least the number of
  // templates, the limit is never reported: only the cycle check can stop a run.
  lemma WithoutArgumentsNoLimit(env: Env, fuel: nat, source: string, ids: set<string>, e: Event)
    requires forall key | key in env.resolver.sources :: env.resolver.sources[key].id in ids
    requires |ids| <= env.max && NoneInTemplates(env) && NoCallArguments(source, false)
    requires e in ExpandPage(env, fuel, source).log && e.Diagnostic?
    ensures !e.message.Limit?
  {
    hide NoCallArguments, NoneInTemplates;
    if e.message.Limit? {
      LimitNeedsArguments(env, fuel, source, ids, e);
      BodyBare(env, fuel, source, TOP);
    }
  }
}
