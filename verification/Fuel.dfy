// A deeper call stack never changes a result that a shallower one has given.
module Fuel {
  import opened Text
  import opened Scanner
  import opened Expander

  // `b` is `a`, unless `a` ran out.
  predicate Keeps(a: Out, b: Out) {
    a.Done? ==> b == a
  }

  lemma {:induction false} BodyKeeps(env: Env, fuel: nat, more: nat, body: string, f: Frame)
    requires fuel <= more
    ensures Keeps(ExpandBody(env, fuel, body, f), ExpandBody(env, more, body, f))
    decreases fuel, 0, 2, 0
  {
    if fuel > 0 {
      ExpandKeeps(env, fuel - 1, more - 1, body, 0, f);
    }
  }

  lemma {:induction false} ExpandKeeps(env: Env, fuel: nat, more: nat, body: string, i: nat, f: Frame)
    requires fuel <= more && i <= |body|
    ensures Keeps(Expand(env, fuel, body, i, f), Expand(env, more, body, i, f))
    decreases fuel, |body| - i, 1, 0
  {
    hide ExpandStep;
    if i < |body| {
      StepKeeps(env, fuel, more, body, i, f);
      ExpandKeeps(env, fuel, more, body, i + ExpandStep(env, fuel, body, i, f).consumed, f);
    }
  }

  lemma {:induction false} StepKeeps(env: Env, fuel: nat, more: nat, body: string, i: nat, f: Frame)
    requires fuel <= more && i < |body|
    ensures var a, b := ExpandStep(env, fuel, body, i, f), ExpandStep(env, more, body, i, f);
      a.consumed == b.consumed && Keeps(a.out, b.out)
    decreases fuel, |body| - i, 0, 0
  {
    hide FindTriple, ExpandCall, RefText, ExpandBody;
    var s := body[i..];
    var close := if Thrice(s, '{') then FindTriple(s[3..]) else None;
    if close.Some? {
      if f.inTemplate {
        BodyKeeps(env, fuel, more, RefText(s[3..3 + close.value], f.args), f.(inTemplate := true));
      }
    } else if Twice(s, '{') {
      CallKeeps(env, fuel, more, s, SiteAt(f, body, i), f);
    }
  }

  lemma {:induction false} CallKeeps(env: Env, fuel: nat, more: nat, s: string, site: Site, f: Frame)
    requires fuel <= more && Twice(s, '{')
    ensures var a, b := ExpandCall(env, fuel, s, site, f), ExpandCall(env, more, s, site, f);
      && (a.Some? <==> b.Some?)
      && (a.Some? ==> a.value.consumed == b.value.consumed && Keeps(a.value.out, b.value.out))
    decreases fuel, 0, 5, 0
  {
    hide Transclude, Find, FunctionName, Trim, TrimStart;
    var end := Find(s[2..], 0, AtClose);
    if end.Some? {
      var parts := Split(s[2..2 + end.value]);
      TranscludeKeeps(env, fuel, more, Trim(parts[0]), parts[1..], site, f);
    }
  }

  lemma {:induction false} TranscludeKeeps(env: Env, fuel: nat, more: nat, name: string, argTexts: seq<string>,
                                           site: Site, f: Frame)
    requires fuel <= more
    ensures Keeps(Transclude(env, fuel, name, argTexts, site, f), Transclude(env, more, name, argTexts, site, f))
    decreases fuel, 0, 4, 0
  {
    hide BindArgs, ExpandBody, ParseAddress, ShortNames, RenderError;
    var key := ParseAddress(name);
    if key in env.resolver.sources {
      var source := env.resolver.sources[key];
      if source.id !in f.stack && f.depth + 1 <= env.max {
        ArgsKeep(env, fuel, more, argTexts, 1, ArgFrame(f, site));
        var bound := BindArgs(env, fuel, argTexts, 1, ArgFrame(f, site));
        BodyKeeps(env, fuel, more, source.body, BodyFrame(f, bound.args, source.id, site));
      }
    }
  }

  lemma {:induction false} ArgsKeep(env: Env, fuel: nat, more: nat, argTexts: seq<string>, next: nat, f: Frame)
    requires fuel <= more
    ensures var a := BindArgs(env, fuel, argTexts, next, f); a.done ==> BindArgs(env, more, argTexts, next, f) == a
    decreases fuel, 0, 3, |argTexts|
  {
    hide ExpandBody, ParseArgument, Trim;
    if argTexts != [] {
      var (_, value, next') := ParseArgument(argTexts[0], next);
      BodyKeeps(env, fuel, more, value, f);
      ArgsKeep(env, fuel, more, argTexts[1..], next', f);
    }
  }

  // For any source, resolver and cap: the page returns exactly one text, or it
  // never returns.
  lemma ReturnsOnceOrDiverges(env: Env, source: string)
    ensures Diverges(env, source) <==> !exists text :: Returns(env, source, text)
    ensures forall a, b :: Returns(env, source, a) && Returns(env, source, b) ==> a == b
  {
    hide ExpandBody;
    if !Diverges(env, source) {
      var enough: nat :| ExpandPage(env, enough, source).Done?;
      var text := ExpandPage(env, enough, source).text;
      forall fuel: nat | fuel >= enough
        ensures var out := ExpandPage(env, fuel, source); out.Done? && out.text == text
      {
        BodyKeeps(env, enough, fuel, source, TOP);
      }
      assert ReturnsWith(env, source, text, enough);
      assert Returns(env, source, text);
    }
    forall a, b | Returns(env, source, a) && Returns(env, source, b)
      ensures a == b && !Diverges(env, source)
    {
      OneText(env, source, a, b);
    }
  }

  lemma OneText(env: Env, source: string, a: string, b: string)
    requires Returns(env, source, a) && Returns(env, source, b)
    ensures a == b && !Diverges(env, source)
  {
    hide ExpandPage;
    var m: nat :| ReturnsWith(env, source, a, m);
    var n: nat :| ReturnsWith(env, source, b, n);
    var out := ExpandPage(env, m + n, source);
    assert out.text == a && out.text == b;
  }
}
