// The recursive worker as the renderer runs it: one mutable expansion stack and
// one per-render template cache, shared by every activation.
//
// Every method is proved against the stackless, cacheless functions of
// `Expander`: the cache changes no result, and each call leaves the stack as it
// found it.
module Renderer {
  import opened Text
  import opened Scanner
  import opened Expander
  import opened Measured
  import Codecs

  // `NotACall` leaves the braces as they are; `text` is `None` when the call stack ran out.
  datatype Attempt = NotACall | Consumed(length: nat, text: Option<string>)

  lemma ThenAssoc(a: Out, b: Out, c: Out)
    ensures Then(Then(a, b), c) == Then(a, Then(b, c))
  {
    if a.Done? && b.Done? && c.Done? {
      Assoc(a.text, b.text, c.text);
    }
    assert a.log + b.log + c.log == a.log + (b.log + c.log);
  }

  // `line_col`
  method FindLineCol(source: string, offset: nat) returns (site: Site)
    requires offset <= |source|
    ensures site == LineCol(source, offset) && Counts(site, source, offset)
  {
    LineColCounts(source, offset);
    var line: nat, col: nat := 1, 1;
    var i := 0;
    assert source[..0] == "";
    while i < |source| && i < offset
      invariant 0 <= i <= offset && Site(line, col) == Advance(Site(1, 1), source[..i])
    {
      assert source[..i + 1] == source[..i] + [source[i]];
      AdvanceOver(Site(1, 1), source[..i], [source[i]]);
      assert [source[i]][1..] == "";
      if source[i] == '\n' {
        line, col := line + 1, 1;
      } else {
        col := col + 1;
      }
      i := i + 1;
    }
    site := Site(line, col);
  }

  // `escape_html`, and `escape_attr` in the Markdown renderer.
  method Escape(s: string) returns (out: string)
    ensures out == EscapeHtml(s) && Codecs.Unescape(out) == s && Codecs.MarkupFree(out)
  {
    Codecs.HtmlRoundTrip(s);
    out := "";
    assert s[0..] == s;
    for k := 0 to |s|
      invariant out + EscapeHtml(s[k..]) == EscapeHtml(s)
    {
      assert s[k..][0] == s[k] && s[k..][1..] == s[k + 1..];
      Assoc(out, EscapeChar(s[k]), EscapeHtml(s[k + 1..]));
      out := out + EscapeChar(s[k]);
    }
    assert out + "" == out;
  }

  lemma NothingYet(out: Out)
    ensures Then(Done("", []), out) == out
  {
  }

  // One more step of the worker's loop.
  lemma StepOn(env: Env, fuel: nat, body: string, i: nat, f: Frame, text: string, done: seq<Event>)
    requires i < |body|
    ensures var step := ExpandStep(env, fuel, body, i, f);
      && Then(Done(text, done), Expand(env, fuel, body, i, f))
      == Then(Then(Done(text, done), step.out), Expand(env, fuel, body, i + step.consumed, f))
  {
    hide ExpandStep;
    var step := ExpandStep(env, fuel, body, i, f);
    ThenAssoc(Done(text, done), step.out, Expand(env, fuel, body, i + step.consumed, f));
  }

  lemma StepCases(env: Env, fuel: nat, body: string, i: nat, f: Frame)
    requires i < |body|
    ensures var s := body[i..]; var step := ExpandStep(env, fuel, body, i, f);
      var close := if Thrice(s, '{') then FindTriple(s[3..]) else None;
      if close.Some? then
        && step.consumed == 3 + close.value + 3
        && step.out == if f.inTemplate then Expander.ExpandRef(env, fuel, s[3..3 + close.value], f)
                       else Done(s[..step.consumed], [])
      else if Twice(s, '{') && ExpandCall(env, fuel, s, SiteAt(f, body, i), f).Some? then
        step == ExpandCall(env, fuel, s, SiteAt(f, body, i), f).value
      else step == Step(1, Done(s[..1], []))
  {
    hide FindTriple, ExpandCall, Expander.ExpandRef;
  }

  lemma EndOf(env: Env, fuel: nat, body: string, f: Frame)
    ensures Expand(env, fuel, body, |body|, f) == Done("", [])
  {
  }

  class Worker {
    const env: Env
    var stack: seq<string>
    var cache: map<Key, Source>
    ghost var log: seq<Event>

    ghost predicate Valid()
      reads this
    {
      forall key | key in cache :: key in env.resolver.sources && cache[key] == env.resolver.sources[key]
    }

    constructor (resolver: Resolver, max: nat)
      ensures Valid() && env == Env(resolver, max) && stack == [] && cache == map[] && log == []
    {
      env := Env(resolver, max);
      stack, cache, log := [], map[], [];
    }

    // The run of `out` was carried out from the current state.
    twostate predicate Ran(out: Out, new r: Option<string>)
      reads this
    {
      && Valid() && log == old(log) + out.log
      && (forall key | key in old(cache) :: key in cache)
      && (r.Some? <==> out.Done?)
      && (r.Some? ==> r.value == out.text && stack == old(stack))
    }

    method ExpandBody(fuel: nat, body: string, args: seq<Arg>, inTemplate: bool,
                      depth: nat, site: Option<Site>, ghost argLevels: nat)
      returns (r: Option<string>)
      requires Valid()
      modifies this
      ensures Ran(Expander.ExpandBody(env, fuel, body, Frame(args, inTemplate, old(stack), depth, argLevels, site)), r)
      decreases fuel, 0, 2, 0
    {
      if fuel == 0 {
        return None;
      }
      ghost var f := Frame(args, inTemplate, stack, depth, argLevels, site);
      ghost var entry := [Entered(stack, depth, argLevels)];
      log := log + entry;
      r := Scan(fuel - 1, body, args, inTemplate, depth, site, argLevels);
    }

    method Scan(fuel: nat, body: string, args: seq<Arg>, inTemplate: bool,
                depth: nat, site: Option<Site>, ghost argLevels: nat)
      returns (r: Option<string>)
      requires Valid()
      modifies this
      ensures Ran(Expand(env, fuel, body, 0, Frame(args, inTemplate, old(stack), depth, argLevels, site)), r)
      decreases fuel, |body|, 1, 0
    {
      hide Expand, ExpandStep, ExpandCall, FindTriple, Find;
      var text := "";
      var i := 0;
      ghost var f := Frame(args, inTemplate, stack, depth, argLevels, site);
      ghost var whole := Expand(env, fuel, body, 0, f);
      ghost var done: seq<Event> := [];
      NothingYet(whole);
      while i < |body|
        invariant 0 <= i <= |body|
        invariant Valid() && stack == old(stack) && (forall key | key in old(cache) :: key in cache)
        invariant log == old(log) + done
        invariant Then(Done(text, done), Expand(env, fuel, body, i, f)) == whole
      {
        var s := body[i..];
        ghost var step := ExpandStep(env, fuel, body, i, f);
        StepOn(env, fuel, body, i, f, text, done);
        ghost var before := done;
        done := done + step.out.log;
        StepCases(env, fuel, body, i, f);
        var close := if Thrice(s, '{') then FindTriple(s[3..]) else None;
        var piece: Option<string>;
        var length: nat;
        if close.Some? {
          length := 3 + close.value + 3;
          if inTemplate {
            piece := ExpandRef(fuel, s[3..3 + close.value], args, depth, site, argLevels);
          } else {
            piece := Some(s[..length]);
          }
        } else {
          piece, length := Some(s[..1]), 1;
          if Twice(s, '{') {
            var attempt := TryCall(fuel, s, body, i, args, inTemplate, depth, site, argLevels);
            if attempt.Consumed? {
              piece, length := attempt.text, attempt.length;
            }
          }
        }
        assert length == step.consumed && (piece.Some? <==> step.out.Done?);
        assert log == old(log) + done by { assert old(log) + before + step.out.log == old(log) + done; }
        if piece.None? {
          return None;
        }
        text := text + piece.value;
        i := i + length;
      }
      EndOf(env, fuel, body, f);
      return Some(text);
    }

    method ExpandRef(fuel: nat, inner: string, args: seq<Arg>, depth: nat, site: Option<Site>, ghost argLevels: nat)
      returns (r: Option<string>)
      requires Valid()
      modifies this
      ensures Ran(Expander.ExpandRef(env, fuel, inner, Frame(args, true, old(stack), depth, argLevels, site)), r)
      decreases fuel, 0, 5, 0
    {
      r := ExpandBody(fuel, RefText(inner, args), args, true, depth, site, argLevels);
    }

    method TryCall(fuel: nat, s: string, full: string, offset: nat, args: seq<Arg>, inTemplate: bool,
                   depth: nat, site: Option<Site>, ghost argLevels: nat)
      returns (r: Attempt)
      requires Valid() && Twice(s, '{') && offset <= |full|
      modifies this
      ensures var f := Frame(args, inTemplate, old(stack), depth, argLevels, site);
        var call := ExpandCall(env, fuel, s, SiteAt(f, full, offset), f);
        && (r.NotACall? <==> call.None?)
        && (r.NotACall? ==> unchanged(this))
        && (r.Consumed? ==> r.length == call.value.consumed && Ran(call.value.out, r.text))
      decreases fuel, 0, 5, 0
    {
      hide Find, Split, Trim, TrimStart, FunctionName, RenderError, Expander.Transclude;
      var close := Find(s[2..], 0, AtClose);
      if close.None? {
        return NotACall;
      }
      var inner := s[2..2 + close.value];
      var consumed := 2 + close.value + 2;
      var diag: Site;
      if site.Some? {
        diag := site.value;
      } else {
        diag := FindLineCol(full, offset);
      }
      var trimmed := TrimStart(inner);
      if trimmed != "" && trimmed[0] == '#' {
        var m := ParserFunction(FunctionName(trimmed));
        log := log + [Diagnostic(m, diag, stack, depth, argLevels)];
        return Consumed(consumed, Some(RenderError(m, diag)));
      }
      var parts := Split(inner);
      var name := Trim(parts[0]);
      if name == "" {
        return NotACall;
      }
      var text := Transclude(fuel, name, parts[1..], args, inTemplate, depth, diag, site, argLevels);
      return Consumed(consumed, text);
    }

    method Transclude(fuel: nat, name: string, argTexts: seq<string>, args: seq<Arg>, inTemplate: bool,
                      depth: nat, diag: Site, ghost site: Option<Site>, ghost argLevels: nat)
      returns (r: Option<string>)
      requires Valid()
      modifies this
      ensures Ran(Expander.Transclude(env, fuel, name, argTexts, diag,
                                      Frame(args, inTemplate, old(stack), depth, argLevels, site)), r)
      decreases fuel, 0, 4, 0
    {
      hide Expander.ExpandBody, Expander.BindArgs, ParseAddress, RenderError, ShortNames;
      var key := ParseAddress(name);
      var source := Resolve(key);
      if source.None? {
        var m := if ':' in name && key.ns !in env.resolver.known then UnknownNamespace(key.ns) else NotFound(key);
        log := log + [Diagnostic(m, diag, stack, depth, argLevels)];
        return Some(RenderError(m, diag));
      }
      var id := source.value.id;
      if id in stack {
        var m := Cycle(ShortNames(stack + [id]));
        log := log + [Diagnostic(m, diag, stack, depth, argLevels)];
        return Some(RenderError(m, diag));
      }
      if depth + 1 > env.max {
        var m := Limit(env.max);
        log := log + [Diagnostic(m, diag, stack, depth, argLevels)];
        return Some(RenderError(m, diag));
      }
      var bound := BindArgs(fuel, argTexts, args, depth + 1, diag, argLevels + 1);
      if bound.None? {
        return None;
      }
      stack := stack + [id];
      r := ExpandBody(fuel, source.value.body, bound.value, true, depth + 1, Some(diag), argLevels);
      if r.Some? {
        stack := stack[..|stack| - 1];
      }
    }

    // The per-render cache in front of the resolver.
    method Resolve(key: Key) returns (r: Option<Source>)
      requires Valid()
      modifies `cache
      ensures Valid() && (forall k | k in old(cache) :: k in cache)
      ensures r == if key in env.resolver.sources then Some(env.resolver.sources[key]) else None
      ensures r.Some? ==> key in cache
    {
      if key in cache {
        return Some(cache[key]);
      }
      if key in env.resolver.sources {
        r := Some(env.resolver.sources[key]);
        cache := cache[key := r.value];
      } else {
        r := None;
      }
    }

    method BindArgs(fuel: nat, argTexts: seq<string>, args: seq<Arg>, depth: nat, diag: Site, ghost argLevels: nat)
      returns (bound: Option<seq<Arg>>)
      requires Valid()
      modifies this
      ensures var f := Frame(args, true, old(stack), depth, argLevels, Some(diag));
        var b := Expander.BindArgs(env, fuel, argTexts, 1, f);
        && Valid() && log == old(log) + b.log && (forall key | key in old(cache) :: key in cache)
        && (bound.Some? <==> b.done)
        && (bound.Some? ==> bound.value == b.args && stack == old(stack))
      decreases fuel, 0, 3, 0
    {
      hide Expander.ExpandBody, ParseArgument, Expander.BindArgs;
      ghost var f := Frame(args, true, stack, depth, argLevels, Some(diag));
      ghost var whole := Expander.BindArgs(env, fuel, argTexts, 1, f);
      var list: seq<Arg> := [];
      var next: nat := 1;
      ghost var done: seq<Event> := [];
      var k := 0;
      assert argTexts[0..] == argTexts;
      assert Joined([], [], whole) == whole;
      while k < |argTexts|
        invariant 0 <= k <= |argTexts|
        invariant Valid() && stack == old(stack) && (forall key | key in old(cache) :: key in cache)
        invariant log == old(log) + done
        invariant Joined(list, done, Expander.BindArgs(env, fuel, argTexts[k..], next, f)) == whole
      {
        var (name, value, next') := ParseArgument(argTexts[k], next);
        ghost var out := Expander.ExpandBody(env, fuel, value, f);
        ghost var before := done;
        BindStep(env, fuel, argTexts, k, next, f);
        done := done + out.log;
        var text := ExpandBody(fuel, value, args, true, depth, Some(diag), argLevels);
        assert old(log) + before + out.log == old(log) + done;
        if text.None? {
          return None;
        }
        JoinedStep(list, before, Arg(name, Trim(text.value)), out.log,
                   Expander.BindArgs(env, fuel, argTexts[k + 1..], next', f));
        list := list + [Arg(name, Trim(text.value))];
        next := next';
        k := k + 1;
      }
      BindEnd(env, fuel, next, f);
      assert argTexts[k..] == [];
      return Some(list);
    }
  }

  ghost function Joined(args: seq<Arg>, log: seq<Event>, more: Binding): Binding {
    Binding(args + more.args, log + more.log, more.done)
  }

  lemma BindStep(env: Env, fuel: nat, argTexts: seq<string>, k: nat, next: nat, f: Frame)
    requires k < |argTexts|
    ensures var (name, value, next') := ParseArgument(argTexts[k], next);
      var out := Expander.ExpandBody(env, fuel, value, f);
      Expander.BindArgs(env, fuel, argTexts[k..], next, f) ==
      if out.OutOfFuel? then Binding([], out.log, false)
      else Joined([Arg(name, Trim(out.text))], out.log, Expander.BindArgs(env, fuel, argTexts[k + 1..], next', f))
  {
    hide Expander.ExpandBody, ParseArgument;
    assert argTexts[k..][0] == argTexts[k] && argTexts[k..][1..] == argTexts[k + 1..];
  }

  lemma BindEnd(env: Env, fuel: nat, next: nat, f: Frame)
    ensures Expander.BindArgs(env, fuel, [], next, f) == Binding([], [], true)
  {
  }

  lemma JoinedStep(args: seq<Arg>, log: seq<Event>, a: Arg, more: seq<Event>, rest: Binding)
    ensures Joined(args, log, Joined([a], more, rest)).log == Joined(args + [a], log + more, rest).log
    ensures Joined(args, log, Joined([a], more, rest)).done == Joined(args + [a], log + more, rest).done
    ensures Joined(args, log, Joined([a], more, rest)).args == Joined(args + [a], log + more, rest).args
  {
    assert args + ([a] + rest.args) == args + [a] + rest.args;
    assert log + (more + rest.log) == log + more + rest.log;
  }

  lemma PlainPage(env: Env, fuel: nat, source: string)
    requires fuel > 0 && !HasOpen(source)
    ensures var out := ExpandPage(env, fuel, source); out.Done? && out.text == source
  {
    NoOpenNoChange(env, fuel - 1, source, 0, TOP);
    assert source[0..] == source;
  }

  // What becomes of a page before it is parsed as Markdown.
  datatype Rendered = EmptyInput | Expanded(text: string) | OutOfStack

  // An empty page is an error; text without `{{` skips the worker.
  method RenderSource(resolver: Resolver, max: nat, fuel: nat, source: string) returns (r: Rendered)
    requires fuel > 0
    ensures r.EmptyInput? <==> Trim(source) == ""
    ensures Trim(source) != "" ==>
              var out := ExpandPage(Env(resolver, max), fuel, source);
              r == if out.Done? then Expanded(out.text) else OutOfStack
    ensures Trim(source) != "" && !HasOpen(source) ==> r == Expanded(source)
  {
    hide Trim, Expander.ExpandBody, HasOpen;
    if Trim(source) == "" {
      return EmptyInput;
    }
    if HasOpen(source) {
      var worker := new Worker(resolver, max);
      var text := worker.ExpandBody(fuel, source, [], false, 0, None, 0);
      r := if text.Some? then Expanded(text.value) else OutOfStack;
    } else {
      PlainPage(Env(resolver, max), fuel, source);
      r := Expanded(source);
    }
  }
}
