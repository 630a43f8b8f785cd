// What holds at every point of every run, whether or not the run ends: the
// stack discipline, and when the recursion limit can be reported.
module Runs {
  import opened Text
  import opened Scanner
  import opened Expander
  import opened Names

  predicate Distinct(ids: seq<string>) {
    forall i, j | 0 <= i < j < |ids| :: ids[i] != ids[j]
  }

  ghost predicate IsTemplateId(env: Env, id: string) {
    exists key | key in env.resolver.sources :: env.resolver.sources[key].id == id
  }

  // The stack holds distinct template ids; depth counts them and the argument
  // expansions in progress, and stays within the cap.
  ghost predicate InBudget(env: Env, stack: seq<string>, depth: nat, argLevels: nat) {
    && Distinct(stack) && (forall id | id in stack :: IsTemplateId(env, id))
    && depth == |stack| + argLevels && depth <= env.max
  }

  // The recursion limit is reported only when the budget is used up, for a
  // template that is not on the stack.
  ghost predicate Blocked(env: Env, stack: seq<string>, depth: nat) {
    depth == env.max && exists id :: IsTemplateId(env, id) && id !in stack
  }

  // What a diagnostic says is so: there is no such template, in a namespace that
  // exists or is the default one; there is no such namespace; the template that
  // closes the chain is already being expanded; the budget is used up.
  ghost predicate SaysTrue(env: Env, message: Message, stack: seq<string>, depth: nat) {
    match message
    case ParserFunction(_) => true
    case NotFound(key) => key !in env.resolver.sources && (key.ns in env.resolver.known || key.ns == "Template")
    case UnknownNamespace(ns) => ns !in env.resolver.known && exists name :: Key(ns, name) !in env.resolver.sources
    case Cycle(chain) => exists id | id in stack :: chain == ShortNames(stack + [id])
    case Limit(max) => max == env.max && Blocked(env, stack, depth)
  }

  ghost predicate Fits(env: Env, e: Event) {
    && InBudget(env, e.stack, e.depth, e.argLevels)
    && (e.Diagnostic? ==> SaysTrue(env, e.message, e.stack, e.depth))
  }

  // Inside a call `e` is pinned to the site of `f`.
  predicate Pinned(f: Frame, e: Event) {
    e.Diagnostic? && f.site.Some? ==> e.site == f.site.value
  }

  ghost predicate AllFit(env: Env, f: Frame, log: seq<Event>) {
    forall e | e in log :: Fits(env, e) && Pinned(f, e)
  }

  // What the worker is entered with.
  ghost predicate Ready(env: Env, f: Frame) {
    InBudget(env, f.stack, f.depth, f.argLevels) && (f.inTemplate ==> f.site.Some?)
  }

  lemma {:induction false} BodyFits(env: Env, fuel: nat, body: string, f: Frame)
    requires Ready(env, f)
    ensures AllFit(env, f, ExpandBody(env, fuel, body, f).log)
    decreases fuel, 0, 2, 0
  {
    if fuel > 0 {
      ExpandFits(env, fuel - 1, body, 0, f);
    }
  }

  lemma {:induction false} ExpandFits(env: Env, fuel: nat, body: string, i: nat, f: Frame)
    requires i <= |body| && Ready(env, f)
    ensures AllFit(env, f, Expand(env, fuel, body, i, f).log)
    decreases fuel, |body| - i, 1, 0
  {
    hide ExpandStep, InBudget, Pinned;
    if i < |body| {
      StepFits(env, fuel, body, i, f);
      ExpandFits(env, fuel, body, i + ExpandStep(env, fuel, body, i, f).consumed, f);
    }
  }

  lemma {:induction false} StepFits(env: Env, fuel: nat, body: string, i: nat, f: Frame)
    requires i < |body| && Ready(env, f)
    ensures AllFit(env, f, ExpandStep(env, fuel, body, i, f).out.log)
    decreases fuel, |body| - i, 0, 0
  {
    hide Find, FindTriple, ExpandCall, InBudget, RefText, ExpandBody;
    var s := body[i..];
    var close := if Thrice(s, '{') then FindTriple(s[3..]) else None;
    if close.Some? {
      if f.inTemplate {
        BodyFits(env, fuel, RefText(s[3..3 + close.value], f.args), f);
        assert f.(inTemplate := true) == f;
      }
    } else if Twice(s, '{') {
      var site := SiteAt(f, body, i);
      CallFits(env, fuel, s, site, f);
    }
  }

  lemma {:induction false} CallFits(env: Env, fuel: nat, s: string, site: Site, f: Frame)
    requires Twice(s, '{') && Ready(env, f)
    ensures var call := ExpandCall(env, fuel, s, site, f);
      call.Some? ==> AllFit(env, f.(site := Some(site)), call.value.out.log)
    decreases fuel, 0, 5, 0
  {
    hide Find, InBudget, Transclude, Report, Fits, Split, Trim, TrimStart, FunctionName;
    var end := Find(s[2..], 0, AtClose);
    if end.Some? {
      var inner := s[2..2 + end.value];
      var parts := Split(inner);
      TranscludeFits(env, fuel, Trim(parts[0]), parts[1..], site, f);
      ReportFits(env, ParserFunction(FunctionName(TrimStart(inner))), site, f);
    }
  }

  lemma ReportFits(env: Env, m: Message, site: Site, f: Frame)
    requires Ready(env, f) && SaysTrue(env, m, f.stack, f.depth)
    ensures AllFit(env, f.(site := Some(site)), Report(m, site, f).log)
  {
    hide SaysTrue, InBudget, RenderError;
  }

  lemma MissingIsTrue(env: Env, name: string, stack: seq<string>, depth: nat)
    requires ParseAddress(name) !in env.resolver.sources
    ensures var key := ParseAddress(name);
      SaysTrue(env, if ':' in name && key.ns !in env.resolver.known then UnknownNamespace(key.ns) else NotFound(key), stack, depth)
  {
    hide ParseAddress;
    if ':' !in name {
      AddressReads(name, "");
    }
    var key := ParseAddress(name);
    assert Key(key.ns, key.name) == key;
  }

  lemma {:induction false} TranscludeFits(env: Env, fuel: nat, name: string, argTexts: seq<string>, site: Site, f: Frame)
    requires Ready(env, f)
    ensures AllFit(env, f.(site := Some(site)), Transclude(env, fuel, name, argTexts, site, f).log)
    decreases fuel, 0, 4, 0
  {
    hide BindArgs, ExpandBody, ParseAddress, Report, Fits;
    var key := ParseAddress(name);
    if key !in env.resolver.sources {
      MissingIsTrue(env, name, f.stack, f.depth);
      ReportFits(env, if ':' in name && key.ns !in env.resolver.known then UnknownNamespace(key.ns) else NotFound(key), site, f);
    } else {
      var source := env.resolver.sources[key];
      assert IsTemplateId(env, source.id);
      if source.id in f.stack {
        ReportFits(env, Cycle(ShortNames(f.stack + [source.id])), site, f);
      } else if f.depth + 1 > env.max {
        ReportFits(env, Limit(env.max), site, f);
      } else {
        ArgsFit(env, fuel, argTexts, 1, ArgFrame(f, site));
        var bound := BindArgs(env, fuel, argTexts, 1, ArgFrame(f, site));
        BodyFits(env, fuel, source.body, BodyFrame(f, bound.args, source.id, site));
      }
    }
  }

  lemma {:induction false} ArgsFit(env: Env, fuel: nat, argTexts: seq<string>, next: nat, f: Frame)
    requires Ready(env, f) && f.site.Some?
    ensures AllFit(env, f, BindArgs(env, fuel, argTexts, next, f).log)
    decreases fuel, 0, 3, |argTexts|
  {
    hide InBudget, ExpandBody;
    if argTexts != [] {
      var (_, value, next') := ParseArgument(argTexts[0], next);
      BodyFits(env, fuel, value, f);
      ArgsFit(env, fuel, argTexts[1..], next', f);
    }
  }

  // Everywhere in every run of every page: the stack holds distinct ids, and
  // depth is stack height plus enclosing argument expansions, within the cap.
  lemma StackDiscipline(env: Env, fuel: nat, source: string, e: Event)
    requires e in ExpandPage(env, fuel, source).log
    ensures Distinct(e.stack) && e.depth == |e.stack| + e.argLevels && e.depth <= env.max
  {
    BodyFits(env, fuel, source, TOP);
  }

  // Whatever a diagnostic says about templates, namespaces, the chain or the
  // limit is so, at every depth of every run of every page.
  lemma DiagnosticsAreTrue(env: Env, fuel: nat, source: string, e: Event)
    requires e in ExpandPage(env, fuel, source).log && e.Diagnostic?
    ensures SaysTrue(env, e.message, e.stack, e.depth)
  {
    BodyFits(env, fuel, source, TOP);
  }

  // ---- When the recursion limit can be reported

  lemma {:induction false} Pigeonhole(ids: seq<string>, all: set<string>, extra: string)
    requires Distinct(ids) && (forall id | id in ids :: id in all) && extra in all && extra !in ids
    ensures |ids| < |all|
    decreases |ids|
  {
    if ids != [] {
      var rest := ids[1..];
      assert forall id | id in rest :: id in ids;
      forall id | id in rest ensures id in all - {ids[0]} {
        var k :| 0 <= k < |rest| && rest[k] == id;
        assert ids[k + 1] == id && ids[0] != ids[k + 1];
      }
      assert ids[0] in ids;
      Pigeonhole(rest, all - {ids[0]}, extra);
    }
  }

  // With `ids` the ids of all templates, the limit diagnostic needs more than
  // `max - |ids|` argument expansions around it.
  lemma LimitNeedsArguments(env: Env, fuel: nat, source: string, ids: set<string>, e: Event)
    requires forall key | key in env.resolver.sources :: env.resolver.sources[key].id in ids
    requires e in ExpandPage(env, fuel, source).log && e.Diagnostic? && e.message.Limit?
    ensures env.max < |ids| + e.argLevels
  {
    BodyFits(env, fuel, source, TOP);
    assert Fits(env, e);
    var id :| IsTemplateId(env, id) && id !in e.stack;
    Pigeonhole(e.stack, ids, id);
  }
}
