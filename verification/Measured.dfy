// Expansion without scanning substituted text a second time.
//
// This version has a termination measure. It agrees with the renderer unless a
// substituted value itself contains `{{`, and it tells where the renderer would
// go on for ever: a reference that is neither bound nor defaulted stands for
// its own text, which the renderer then expands again.
module Measured {
  import opened Text
  import opened Scanner
  import opened Expander

  // `Settled`: the renderer produces the same text.
  // `Stuck`: the first departure is a reference that stands for itself.
  // `Dirty`: the first departure is a substituted value that has to be scanned again.
  datatype Status = Settled | Stuck | Dirty

  // `need` is a fuel that is enough.
  datatype Meaning = Meaning(text: string, status: Status, need: nat)

  function Max(a: nat, b: nat): nat {
    if a < b then b else a
  }

  function First(a: Status, b: Status): Status {
    if a.Settled? then b else a
  }

  function Both(a: Meaning, b: Meaning): Meaning {
    Meaning(a.text + b.text, First(a.status, b.status), Max(a.need, b.need))
  }

  function Inside(m: Meaning): Meaning {
    m.(need := m.need + 1)
  }

  predicate HasOpen(s: string) {
    exists k | 0 <= k < |s| - 1 :: s[k] == '{' && s[k + 1] == '{'
  }

  // A name whose literal `{{{name}}}` is read back as a reference to that name.
  predicate StandsForItself(name: string) {
    FindTriple(name + "}}}") == Some(|name|) && Find(name, 0, AtChar('|')).None?
  }

  datatype StepMeaning = StepMeaning(consumed: nat, meaning: Meaning)

  datatype ArgsMeaning = ArgsMeaning(args: seq<Arg>, status: Status, need: nat)

  function Meant(env: Env, body: string, i: nat, f: Frame): Meaning
    requires i <= |body| && f.depth <= env.max
    decreases env.max - f.depth, |body| - i, 1, 0
  {
    if i == |body| then Meaning("", Settled, 0)
    else
      var step := MeantStep(env, body, i, f);
      Both(step.meaning, Meant(env, body, i + step.consumed, f))
  }

  function MeantStep(env: Env, body: string, i: nat, f: Frame): (r: StepMeaning)
    requires i < |body| && f.depth <= env.max
    ensures 0 < r.consumed <= |body| - i
    decreases env.max - f.depth, |body| - i, 0, 0
  {
    var s := body[i..];
    var close := if Thrice(s, '{') then FindTriple(s[3..]) else None;
    if close.Some? then
      var consumed := 3 + close.value + 3;
      StepMeaning(consumed,
                  if f.inTemplate then MeantRef(env, s[3..3 + close.value], f)
                  else Meaning(s[..consumed], Settled, 0))
    else if Twice(s, '{') then
      match MeantCall(env, s, SiteAt(f, body, i), f)
      case Some(step) => step
      case None => StepMeaning(1, Meaning(s[..1], Settled, 0))
    else StepMeaning(1, Meaning(s[..1], Settled, 0))
  }

  function MeantRef(env: Env, inner: string, f: Frame): Meaning
    requires f.depth <= env.max
    decreases env.max - f.depth, |inner|, 2, 0
  {
    var (name, default) := ParseRef(inner);
    match Lookup(f.args, name)
    case Some(v) => Meaning(v, if HasOpen(v) then Dirty else Settled, 1)
    case None =>
      match default
      case Some(d) => Inside(Meant(env, d, 0, f.(inTemplate := true)))
      case None => Meaning(Literal(name), if StandsForItself(name) then Stuck else Dirty, 1)
  }

  function MeantCall(env: Env, s: string, site: Site, f: Frame): (r: Option<StepMeaning>)
    requires Twice(s, '{') && f.depth <= env.max
    ensures r.Some? ==> 4 <= r.value.consumed <= |s|
    decreases env.max - f.depth, 0, 5, 0
  {
    var close := Find(s[2..], 0, AtClose);
    if close.None? then None
    else
      var inner := s[2..2 + close.value];
      var consumed := 2 + close.value + 2;
      var trimmed := TrimStart(inner);
      if trimmed != "" && trimmed[0] == '#' then
        Some(StepMeaning(consumed, Meaning(RenderError(ParserFunction(FunctionName(trimmed)), site), Settled, 0)))
      else
        var parts := Split(inner);
        var name := Trim(parts[0]);
        if name == "" then None
        else Some(StepMeaning(consumed, MeantTransclude(env, name, parts[1..], site, f)))
  }

  function MeantTransclude(env: Env, name: string, argTexts: seq<string>, site: Site, f: Frame): Meaning
    requires f.depth <= env.max
    decreases env.max - f.depth, 0, 4, 0
  {
    var key := ParseAddress(name);
    if key !in env.resolver.sources then
      Meaning(RenderError(if ':' in name && key.ns !in env.resolver.known
                          then UnknownNamespace(key.ns) else NotFound(key), site), Settled, 0)
    else
      var source := env.resolver.sources[key];
      if source.id in f.stack then
        Meaning(RenderError(Cycle(ShortNames(f.stack + [source.id])), site), Settled, 0)
      else if f.depth + 1 > env.max then Meaning(RenderError(Limit(env.max), site), Settled, 0)
      else
        var bound := MeantArgs(env, argTexts, 1, f, site);
        var inside := Inside(Meant(env, source.body, 0, BodyFrame(f, bound.args, source.id, site)));
        Meaning(inside.text, First(bound.status, inside.status), Max(bound.need, inside.need))
  }

  function MeantArgs(env: Env, argTexts: seq<string>, next: nat, f: Frame, site: Site): ArgsMeaning
    requires f.depth + 1 <= env.max
    decreases env.max - f.depth, 0, 3, |argTexts|
  {
    if argTexts == [] then ArgsMeaning([], Settled, 0)
    else
      var (name, value, next') := ParseArgument(argTexts[0], next);
      var m := Inside(Meant(env, value, 0, ArgFrame(f, site)));
      var more := MeantArgs(env, argTexts[1..], next', f, site);
      ArgsMeaning([Arg(name, Trim(m.text))] + more.args, First(m.status, more.status), Max(m.need, more.need))
  }

  function MeantPage(env: Env, source: string): Meaning {
    Inside(Meant(env, source, 0, TOP))
  }

  // ---- Text without `{{` expands to itself

  lemma NoPairAt(s: string, i: nat)
    requires i <= |s| && !HasOpen(s)
    ensures !Twice(s[i..], '{')
  {
    if i + 1 < |s| {
      assert s[i..][0] == s[i] && s[i..][1] == s[i + 1];
    }
  }

  lemma {:induction false} NoOpenNoChange(env: Env, fuel: nat, s: string, i: nat, f: Frame)
    requires i <= |s| && !HasOpen(s)
    ensures Expand(env, fuel, s, i, f) == Done(s[i..], [])
    decreases |s| - i
  {
    if i < |s| {
      var tail := s[i..];
      NoPairAt(s, i);
      NoOpenNoChange(env, fuel, s, i + 1, f);
      assert tail[..1] + s[i + 1..] == tail;
    }
  }

  // ---- Where the renderer goes on for ever

  lemma {:induction false} StuckForEver(env: Env, fuel: nat, name: string, f: Frame)
    requires StandsForItself(name) && Trim(name) == name && Lookup(f.args, name).None? && f.inTemplate
    ensures ExpandBody(env, fuel, Literal(name), f).OutOfFuel?
    decreases fuel
  {
    if fuel > 0 {
      var s := Literal(name);
      LiteralParts(name);
      assert ParseRef(name) == (name, None);
      assert RefText(name, f.args) == s;
      StuckForEver(env, fuel - 1, name, f);
      assert f.(inTemplate := true) == f;
      assert s[0..] == s;
      assert ExpandStep(env, fuel - 1, s, 0, f).out == ExpandRef(env, fuel - 1, name, f);
    }
  }

  lemma LiteralParts(name: string)
    ensures var s := Literal(name); Thrice(s, '{') && s[3..] == name + "}}}" && s[3..3 + |name|] == name
  {
  }

  // ---- Agreement with the renderer

  ghost predicate Agrees(m: Meaning, out: Out, fuel: nat) {
    && (m.status.Settled? && fuel >= m.need ==> out.Done?)
    && (m.status.Settled? && out.Done? ==> out.text == m.text)
    && (m.status.Stuck? ==> out.OutOfFuel?)
  }

  lemma {:induction false} ExpandAgrees(env: Env, fuel: nat, body: string, i: nat, f: Frame)
    requires i <= |body| && f.depth <= env.max
    ensures Agrees(Meant(env, body, i, f), Expand(env, fuel, body, i, f), fuel)
    decreases env.max - f.depth, |body| - i, 1, 0
  {
    if i < |body| {
      StepAgrees(env, fuel, body, i, f);
      ExpandAgrees(env, fuel, body, i + MeantStep(env, body, i, f).consumed, f);
    }
  }

  lemma {:induction false} BodyAgrees(env: Env, fuel: nat, body: string, f: Frame)
    requires f.depth <= env.max
    ensures Agrees(Inside(Meant(env, body, 0, f)), ExpandBody(env, fuel, body, f), fuel)
    decreases env.max - f.depth, |body|, 1, 1
  {
    if fuel > 0 {
      ExpandAgrees(env, fuel - 1, body, 0, f);
    }
  }

  lemma {:induction false} StepAgrees(env: Env, fuel: nat, body: string, i: nat, f: Frame)
    requires i < |body| && f.depth <= env.max
    ensures var m := MeantStep(env, body, i, f); var step := ExpandStep(env, fuel, body, i, f);
      m.consumed == step.consumed && Agrees(m.meaning, step.out, fuel)
    decreases env.max - f.depth, |body| - i, 0, 0
  {
    var s := body[i..];
    var close := if Thrice(s, '{') then FindTriple(s[3..]) else None;
    if close.Some? {
      if f.inTemplate {
        RefAgrees(env, fuel, s[3..3 + close.value], f);
      }
    } else if Twice(s, '{') {
      CallAgrees(env, fuel, s, SiteAt(f, body, i), f);
    }
  }

  lemma {:induction false} RefAgrees(env: Env, fuel: nat, inner: string, f: Frame)
    requires f.depth <= env.max && f.inTemplate
    ensures Agrees(MeantRef(env, inner, f), ExpandRef(env, fuel, inner, f), fuel)
    decreases env.max - f.depth, |inner|, 2, 0
  {
    var (name, default) := ParseRef(inner);
    var bound := Lookup(f.args, name);
    assert f.(inTemplate := true) == f;
    if bound.Some? {
      if fuel > 0 && !HasOpen(bound.value) {
        NoOpenNoChange(env, fuel - 1, bound.value, 0, f);
        assert bound.value[0..] == bound.value;
      }
    } else if default.Some? {
      BodyAgrees(env, fuel, default.value, f);
    } else if StandsForItself(name) {
      TrimTwice(inner);
      StuckForEver(env, fuel, name, f);
    }
  }

  lemma {:induction false} CallAgrees(env: Env, fuel: nat, s: string, site: Site, f: Frame)
    requires Twice(s, '{') && f.depth <= env.max
    ensures var m := MeantCall(env, s, site, f); var step := ExpandCall(env, fuel, s, site, f);
      && (m.Some? <==> step.Some?)
      && (m.Some? ==> m.value.consumed == step.value.consumed && Agrees(m.value.meaning, step.value.out, fuel))
    decreases env.max - f.depth, 0, 5, 0
  {
    var close := Find(s[2..], 0, AtClose);
    if close.Some? {
      var inner := s[2..2 + close.value];
      var trimmed := TrimStart(inner);
      if !(trimmed != "" && trimmed[0] == '#') {
        var parts := Split(inner);
        var name := Trim(parts[0]);
        if name != "" {
          TranscludeAgrees(env, fuel, name, parts[1..], site, f);
        }
      }
    }
  }

  lemma {:induction false} TranscludeAgrees(env: Env, fuel: nat, name: string, argTexts: seq<string>, site: Site, f: Frame)
    requires f.depth <= env.max
    ensures Agrees(MeantTransclude(env, name, argTexts, site, f), Transclude(env, fuel, name, argTexts, site, f), fuel)
    decreases env.max - f.depth, 0, 4, 0
  {
    var key := ParseAddress(name);
    if key in env.resolver.sources {
      var source := env.resolver.sources[key];
      if source.id !in f.stack && f.depth + 1 <= env.max {
        ArgsAgree(env, fuel, argTexts, 1, f, site);
        var bound := MeantArgs(env, argTexts, 1, f, site);
        BodyAgrees(env, fuel, source.body, BodyFrame(f, bound.args, source.id, site));
      }
    }
  }

  lemma {:induction false} ArgsAgree(env: Env, fuel: nat, argTexts: seq<string>, next: nat, f: Frame, site: Site)
    requires f.depth + 1 <= env.max
    ensures var m := MeantArgs(env, argTexts, next, f, site);
      var bound := BindArgs(env, fuel, argTexts, next, ArgFrame(f, site));
      && (m.status.Settled? && fuel >= m.need ==> bound.done)
      && (m.status.Settled? && bound.done ==> bound.args == m.args)
      && (m.status.Stuck? ==> !bound.done)
    decreases env.max - f.depth, 0, 3, |argTexts|
  {
    if argTexts != [] {
      var (_, value, next') := ParseArgument(argTexts[0], next);
      BodyAgrees(env, fuel, value, ArgFrame(f, site));
      ArgsAgree(env, fuel, argTexts[1..], next', f, site);
    }
  }

  // For every source, resolver and depth cap: what the measured version settles
  // the renderer returns, and where it is stuck the renderer never returns.
  lemma PageAgrees(env: Env, source: string)
    ensures var m := MeantPage(env, source);
      && (m.status.Settled? ==> Returns(env, source, m.text))
      && (m.status.Stuck? ==> Diverges(env, source))
  {
    var m := MeantPage(env, source);
    forall fuel: nat
      ensures Agrees(m, ExpandPage(env, fuel, source), fuel)
    {
      BodyAgrees(env, fuel, source, TOP);
    }
    if m.status.Settled? {
      assert ReturnsWith(env, source, m.text, m.need);
    }
  }
}
