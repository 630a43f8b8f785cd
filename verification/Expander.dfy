// What template expansion computes, as functions of the source text.
//
// The recursion of the renderer is bounded by `fuel`, the number of nested
// activations of the recursive worker that the call stack has room for; every
// other argument, branch and limit is the renderer's own. A run that needs more
// activations than it has fuel for ends in `OutOfFuel`.
module Expander {
  import opened Text
  import opened Scanner

  datatype Key = Key(ns: string, name: string)

  datatype Source = Source(id: string, revision: string, body: string)

  // Any deterministic resolver: which keys have a template, which namespaces exist.
  datatype Resolver = Resolver(sources: imap<Key, Source>, known: iset<string>)

  datatype Env = Env(resolver: Resolver, max: nat)

  datatype Arg = Arg(name: string, value: string)

  datatype Site = Site(line: nat, col: nat)

  // The arguments the recursive worker passes down. `argLevels` counts the
  // argument expansions in progress; the renderer does not keep that number.
  datatype Frame = Frame(args: seq<Arg>, inTemplate: bool, stack: seq<string>,
                         depth: nat, argLevels: nat, site: Option<Site>)

  datatype Message =
    | ParserFunction(name: string)
    | UnknownNamespace(ns: string)
    | NotFound(key: Key)
    | Cycle(chain: seq<string>)
    | Limit(max: nat)

  // What happened during a run: the worker was entered, or a diagnostic was emitted.
  datatype Event =
    | Entered(stack: seq<string>, depth: nat, argLevels: nat)
    | Diagnostic(message: Message, site: Site, stack: seq<string>, depth: nat, argLevels: nat)

  datatype Out = Done(text: string, log: seq<Event>) | OutOfFuel(log: seq<Event>)

  datatype Step = Step(consumed: nat, out: Out)

  datatype Binding = Binding(args: seq<Arg>, log: seq<Event>, done: bool)

  const DEFAULT_NAMESPACE := "Template"

  const TOP := Frame([], false, [], 0, 0, None)

  // ---- Names, arguments and positions

  function IndexOf(s: string, c: char): (r: Option<nat>)
    ensures r.Some? ==> r.value < |s|
  {
    if s == "" then None
    else if s[0] == c then Some(0)
    else Shift(1, IndexOf(s[1..], c))
  }

  function ParseAddress(raw: string): Key {
    var colon := IndexOf(raw, ':');
    if colon.Some? then Key(Trim(raw[..colon.value]), Trim(raw[colon.value + 1..]))
    else Key(DEFAULT_NAMESPACE, Trim(raw))
  }

  // The name, the value and the next positional index.
  function ParseArgument(raw: string, next: nat): (string, string, nat) {
    var eq := Find(raw, 0, AtChar('='));
    if eq.Some? then (Trim(raw[..eq.value]), raw[eq.value + 1..], next)
    else (Decimal(next), raw, next + 1)
  }

  // Name and default of a `{{{name|default}}}` reference.
  function ParseRef(inner: string): (r: (string, Option<string>))
    ensures r.1.Some? ==> |r.1.value| < |inner|
  {
    var bar := Find(inner, 0, AtChar('|'));
    if bar.Some? then (Trim(inner[..bar.value]), Some(inner[bar.value + 1..]))
    else (Trim(inner), None)
  }

  function Lookup(args: seq<Arg>, name: string): Option<string> {
    if args == [] then None
    else if args[0].name == name then Some(args[0].value)
    else Lookup(args[1..], name)
  }

  function Literal(name: string): string {
    "{{{" + name + "}}}"
  }

  // The text a reference is replaced by, before it is scanned again.
  function RefText(inner: string, args: seq<Arg>): string {
    var (name, default) := ParseRef(inner);
    match Lookup(args, name)
    case Some(v) => v
    case None => if default.Some? then default.value else Literal(name)
  }

  // Line and column after reading `s` from `at`.
  function Advance(at: Site, s: string): Site
    decreases |s|
  {
    if s == "" then at
    else Advance(if s[0] == '\n' then Site(at.line + 1, 1) else Site(at.line, at.col + 1), s[1..])
  }

  function LineCol(source: string, offset: nat): Site
    requires offset <= |source|
  {
    Advance(Site(1, 1), source[..offset])
  }

  lemma {:induction false} AdvanceOver(at: Site, a: string, b: string)
    ensures Advance(at, a + b) == Advance(Advance(at, a), b)
    decreases |a|
  {
    if a == "" {
      assert a + b == b;
    } else {
      assert (a + b)[1..] == a[1..] + b;
      AdvanceOver(if a[0] == '\n' then Site(at.line + 1, 1) else Site(at.line, at.col + 1), a[1..], b);
    }
  }

  // A line starts at `j`, and the text from there to `offset` stays on it.
  predicate OnLineFrom(source: string, j: nat, offset: nat) {
    j <= offset <= |source| && (j > 0 ==> source[j - 1] == '\n') && '\n' !in source[j..offset]
  }

  // The line is one more than the line breaks in front, the column one more than
  // the characters behind the last of them.
  predicate Counts(site: Site, source: string, offset: nat)
    requires offset <= |source|
  {
    && site.line == 1 + multiset(source[..offset])['\n']
    && exists j | 0 <= j <= offset :: OnLineFrom(source, j, offset) && site.col == 1 + (offset - j)
  }

  lemma {:induction false} LineColCounts(source: string, offset: nat)
    requires offset <= |source|
    ensures Counts(LineCol(source, offset), source, offset)
    decreases offset
  {
    if offset == 0 {
      assert source[..0] == "" && OnLineFrom(source, 0, 0);
    } else {
      var front, c := offset - 1, source[offset - 1];
      LineColCounts(source, front);
      assert source[..offset] == source[..front] + [c];
      AdvanceOver(Site(1, 1), source[..front], [c]);
      assert [c][1..] == "";
      if c == '\n' {
        assert OnLineFrom(source, offset, offset);
      } else {
        var j :| 0 <= j <= front && OnLineFrom(source, j, front) && LineCol(source, front).col == 1 + (front - j);
        assert source[j..offset] == source[j..front] + [c];
        assert OnLineFrom(source, j, offset);
      }
    }
  }

  function SiteAt(f: Frame, body: string, i: nat): Site
    requires i <= |body|
  {
    if f.site.Some? then f.site.value else LineCol(body, i)
  }

  // ---- Diagnostics

  function EscapeChar(c: char): (r: string)
    ensures r != ""
  {
    match c
    case '&' => "&amp;"
    case '<' => "&lt;"
    case '>' => "&gt;"
    case '"' => "&quot;"
    case '\'' => "&#39;"
    case _ => [c]
  }

  function EscapeHtml(s: string): string {
    if s == "" then "" else EscapeChar(s[0]) + EscapeHtml(s[1..])
  }

  function LastIndexOf(s: string, c: char): (r: Option<nat>)
    ensures r.Some? ==> r.value < |s|
  {
    if s == "" then None
    else if s[|s| - 1] == c then Some(|s| - 1)
    else LastIndexOf(s[..|s| - 1], c)
  }

  function ShortName(id: string): string {
    var colon := LastIndexOf(id, ':');
    if colon.Some? then id[colon.value + 1..] else id
  }

  function ShortNames(ids: seq<string>): seq<string> {
    if ids == [] then [] else [ShortName(ids[0])] + ShortNames(ids[1..])
  }

  function FunctionName(trimmed: string): string {
    Trim(UpTo(DropLeading(trimmed, '#'), {':', '|'}))
  }

  function MessageText(m: Message): string {
    match m
    case ParserFunction(name) => "parser function '#" + name + "' is not supported in v1"
    case UnknownNamespace(ns) => "unknown namespace `" + ns + "`"
    case NotFound(key) => "template `" + key.ns + ":" + key.name + "` not found"
    case Cycle(chain) => "transclusion cycle detected at " + Join(chain, " -> ")
    case Limit(max) => "recursion limit exceeded (" + Decimal(max) + ")"
  }

  function RenderError(m: Message, site: Site): string {
    "<span class=\"template-error\" data-line=\"" + Decimal(site.line) + "\" data-col=\"" + Decimal(site.col)
    + "\">[template error: " + EscapeHtml(MessageText(m)) + "]</span>"
  }

  function Report(m: Message, site: Site, f: Frame): Out {
    Done(RenderError(m, site), [Diagnostic(m, site, f.stack, f.depth, f.argLevels)])
  }

  // ---- Expansion

  function Then(a: Out, b: Out): Out {
    if a.OutOfFuel? then a
    else if b.OutOfFuel? then OutOfFuel(a.log + b.log)
    else Done(a.text + b.text, a.log + b.log)
  }

  function Logged(log: seq<Event>, out: Out): Out {
    if out.OutOfFuel? then OutOfFuel(log + out.log) else Done(out.text, log + out.log)
  }

  function ArgFrame(f: Frame, site: Site): Frame {
    f.(inTemplate := true, depth := f.depth + 1, argLevels := f.argLevels + 1, site := Some(site))
  }

  function BodyFrame(f: Frame, args: seq<Arg>, id: string, site: Site): Frame {
    Frame(args, true, f.stack + [id], f.depth + 1, f.argLevels, Some(site))
  }

  // One activation of the worker.
  function ExpandBody(env: Env, fuel: nat, body: string, f: Frame): Out
    decreases fuel, 0, 2, 0
  {
    if fuel == 0 then OutOfFuel([])
    else Logged([Entered(f.stack, f.depth, f.argLevels)], Expand(env, fuel - 1, body, 0, f))
  }

  // The worker's loop from index `i` on.
  function Expand(env: Env, fuel: nat, body: string, i: nat, f: Frame): Out
    requires i <= |body|
    decreases fuel, |body| - i, 1, 0
  {
    if i == |body| then Done("", [])
    else
      var step := ExpandStep(env, fuel, body, i, f);
      Then(step.out, Expand(env, fuel, body, i + step.consumed, f))
  }

  function ExpandStep(env: Env, fuel: nat, body: string, i: nat, f: Frame): (r: Step)
    requires i < |body|
    ensures 0 < r.consumed <= |body| - i
    decreases fuel, |body| - i, 0, 0
  {
    var s := body[i..];
    var close := if Thrice(s, '{') then FindTriple(s[3..]) else None;
    if close.Some? then
      var consumed := 3 + close.value + 3;
      Step(consumed,
           if f.inTemplate then ExpandRef(env, fuel, s[3..3 + close.value], f) else Done(s[..consumed], []))
    else if Twice(s, '{') then
      match ExpandCall(env, fuel, s, SiteAt(f, body, i), f)
      case Some(step) => step
      case None => Step(1, Done(s[..1], []))
    else Step(1, Done(s[..1], []))
  }

  function ExpandRef(env: Env, fuel: nat, inner: string, f: Frame): Out
    decreases fuel, 0, 5, 0
  {
    ExpandBody(env, fuel, RefText(inner, f.args), f.(inTemplate := true))
  }

  // `None` leaves the braces as they are.
  function ExpandCall(env: Env, fuel: nat, s: string, site: Site, f: Frame): (r: Option<Step>)
    requires Twice(s, '{')
    ensures r.Some? ==> 4 <= r.value.consumed <= |s|
    decreases fuel, 0, 5, 0
  {
    var close := Find(s[2..], 0, AtClose);
    if close.None? then None
    else
      var inner := s[2..2 + close.value];
      var consumed := 2 + close.value + 2;
      var trimmed := TrimStart(inner);
      if trimmed != "" && trimmed[0] == '#' then
        Some(Step(consumed, Report(ParserFunction(FunctionName(trimmed)), site, f)))
      else
        var parts := Split(inner);
        var name := Trim(parts[0]);
        if name == "" then None
        else Some(Step(consumed, Transclude(env, fuel, name, parts[1..], site, f)))
  }

  function Transclude(env: Env, fuel: nat, name: string, argTexts: seq<string>, site: Site, f: Frame): Out
    decreases fuel, 0, 4, 0
  {
    var key := ParseAddress(name);
    if key !in env.resolver.sources then
      Report(if ':' in name && key.ns !in env.resolver.known then UnknownNamespace(key.ns) else NotFound(key), site, f)
    else
      var source := env.resolver.sources[key];
      if source.id in f.stack then Report(Cycle(ShortNames(f.stack + [source.id])), site, f)
      else if f.depth + 1 > env.max then Report(Limit(env.max), site, f)
      else
        var bound := BindArgs(env, fuel, argTexts, 1, ArgFrame(f, site));
        if !bound.done then OutOfFuel(bound.log)
        else Logged(bound.log, ExpandBody(env, fuel, source.body, BodyFrame(f, bound.args, source.id, site)))
  }

  function BindArgs(env: Env, fuel: nat, argTexts: seq<string>, next: nat, f: Frame): Binding
    decreases fuel, 0, 3, |argTexts|
  {
    if argTexts == [] then Binding([], [], true)
    else
      var (name, value, next') := ParseArgument(argTexts[0], next);
      var out := ExpandBody(env, fuel, value, f);
      if out.OutOfFuel? then Binding([], out.log, false)
      else
        var more := BindArgs(env, fuel, argTexts[1..], next', f);
        Binding([Arg(name, Trim(out.text))] + more.args, out.log + more.log, more.done)
  }

  // Expansion of a page.
  function ExpandPage(env: Env, fuel: nat, source: string): Out {
    ExpandBody(env, fuel, source, TOP)
  }

  // With room for `enough` activations the page expands to `text`.
  ghost predicate ReturnsWith(env: Env, source: string, text: string, enough: nat) {
    forall fuel: nat | fuel >= enough ::
      var out := ExpandPage(env, fuel, source); out.Done? && out.text == text
  }

  // With a deep enough call stack the page expands to `text`, and to nothing else.
  ghost predicate Returns(env: Env, source: string, text: string) {
    exists enough: nat :: ReturnsWith(env, source, text, enough)
  }

  // No call stack is deep enough.
  ghost predicate Diverges(env: Env, source: string) {
    forall fuel: nat :: ExpandPage(env, fuel, source).OutOfFuel?
  }
}
