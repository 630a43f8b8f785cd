// The meaning of template source, given directly on trees, and the proof that
// expanding the text a tree is written as computes it.
module Semantics {
  import opened Text
  import opened Wikitext
  import opened Expander

  datatype Template = Template(id: string, revision: string, body: Doc)

  // Stored templates, as trees.
  datatype Library = Library(templates: imap<Key, Template>, known: iset<string>)

  // `complete` is false when some evaluated reference has neither a binding nor a default.
  datatype Denotation = Denotation(text: string, complete: bool)

  datatype Scope = Scope(args: seq<Arg>, complete: bool)

  function Append(a: Denotation, b: Denotation): Denotation {
    Denotation(a.text + b.text, a.complete && b.complete)
  }

  function Shown(m: Message, site: Site): Denotation {
    Denotation(RenderError(m, site), true)
  }

  // `at` is the position of `t` on the page; inside a call the position of the
  // page-level call, `f.site`, takes its place.
  function Denote(lib: Library, max: nat, t: Doc, at: Site, f: Frame): Denotation
    requires f.depth <= max
    decreases max - f.depth, t, 1
  {
    match t
    case End => Denotation("", true)
    case Plain(text, rest) =>
      Append(Denotation(text, true), Denote(lib, max, rest, Advance(at, text), f))
    case Ref(name, default, rest) =>
      var written := "{{{" + PrintRef(name, default) + "}}}";
      Append(if f.inTemplate then DenoteRef(lib, max, Trim(name), default, f) else Denotation(written, true),
             Denote(lib, max, rest, Advance(at, written), f))
    case Call(name, args, rest) =>
      var site := if f.site.Some? then f.site.value else at;
      Append(DenoteCall(lib, max, name, args, site, f),
             Denote(lib, max, rest, Advance(at, "{{" + (name + PrintArgs(args)) + "}}"), f))
  }

  // The binding, else the default evaluated in the same scope, else the reference itself.
  function DenoteRef(lib: Library, max: nat, name: string, default: Option<Doc>, f: Frame): Denotation
    requires f.depth <= max
    decreases max - f.depth, default, 0
  {
    match Lookup(f.args, name)
    case Some(v) => Denotation(v, true)
    case None =>
      match default
      case Some(d) => Denote(lib, max, d, Site(1, 1), f)
      case None => Denotation(Literal(name), false)
  }

  function DenoteCall(lib: Library, max: nat, name: string, args: Args, site: Site, f: Frame): Denotation
    requires f.depth <= max
    decreases max - f.depth, args, 2
  {
    var trimmed := TrimStart(name);
    if trimmed != "" && trimmed[0] == '#' then Shown(ParserFunction(FunctionName(trimmed)), site)
    else DenoteTemplate(lib, max, Trim(name), args, site, f)
  }

  function DenoteTemplate(lib: Library, max: nat, name: string, args: Args, site: Site, f: Frame): Denotation
    requires f.depth <= max
    decreases max - f.depth, args, 1
  {
    var key := ParseAddress(name);
    if key !in lib.templates then
      Shown(if ':' in name && key.ns !in lib.known then UnknownNamespace(key.ns) else NotFound(key), site)
    else
      var template := lib.templates[key];
      if template.id in f.stack then Shown(Cycle(ShortNames(f.stack + [template.id])), site)
      else if f.depth == max then Shown(Limit(max), site)
      else
        var scope := DenoteArgs(lib, max, args, 1, f, site);
        var body := Denote(lib, max, template.body, Site(1, 1), BodyFrame(f, scope.args, template.id, site));
        Denotation(body.text, scope.complete && body.complete)
  }

  // Arguments are evaluated in the caller's scope and trimmed; positional ones
  // are numbered from 1 and named ones are not counted.
  function DenoteArgs(lib: Library, max: nat, args: Args, next: nat, f: Frame, site: Site): Scope
    requires f.depth < max
    decreases max - f.depth, args, 0
  {
    match args
    case NoArgs => Scope([], true)
    case Positional(value, rest) =>
      var v := Denote(lib, max, value, Site(1, 1), ArgFrame(f, site));
      var more := DenoteArgs(lib, max, rest, next + 1, f, site);
      Scope([Arg(Decimal(next), Trim(v.text))] + more.args, v.complete && more.complete)
    case Named(key, value, rest) =>
      var v := Denote(lib, max, value, Site(1, 1), ArgFrame(f, site));
      var more := DenoteArgs(lib, max, rest, next, f, site);
      Scope([Arg(Trim(key), Trim(v.text))] + more.args, v.complete && more.complete)
  }

  function DenotePage(lib: Library, max: nat, page: Doc): Denotation {
    Denote(lib, max, page, Site(1, 1), TOP)
  }

  // ---- The keys of a tree

  function OwnKey(name: string): set<Key> {
    var trimmed := TrimStart(name);
    if trimmed != "" && trimmed[0] == '#' then {} else {ParseAddress(Trim(name))}
  }

  // Keys of the calls outside defaults.
  function CallKeys(t: Doc): set<Key> {
    match t
    case End => {}
    case Plain(_, rest) => CallKeys(rest)
    case Ref(_, _, rest) => CallKeys(rest)
    case Call(name, args, rest) => ArgKeys(args) + OwnKey(name) + CallKeys(rest)
  }

  function ArgKeys(args: Args): set<Key> {
    match args
    case NoArgs => {}
    case Positional(value, rest) => CallKeys(value) + ArgKeys(rest)
    case Named(_, value, rest) => CallKeys(value) + ArgKeys(rest)
  }

  // Keys of all calls, those in defaults included.
  function AllKeys(t: Doc): set<Key> {
    match t
    case End => {}
    case Plain(_, rest) => AllKeys(rest)
    case Ref(_, default, rest) => DefaultKeys(default) + AllKeys(rest)
    case Call(name, args, rest) => AllArgKeys(args) + OwnKey(name) + AllKeys(rest)
  }

  function DefaultKeys(default: Option<Doc>): set<Key>
    decreases default
  {
    if default.Some? then AllKeys(default.value) else {}
  }

  function AllArgKeys(args: Args): set<Key> {
    match args
    case NoArgs => {}
    case Positional(value, rest) => AllKeys(value) + AllArgKeys(rest)
    case Named(_, value, rest) => AllKeys(value) + AllArgKeys(rest)
  }

  // Keys a page looks up itself: a reference outside all calls is copied, and
  // its default is not evaluated.
  function PageKeys(t: Doc): set<Key> {
    match t
    case End => {}
    case Plain(_, rest) => PageKeys(rest)
    case Ref(_, _, rest) => PageKeys(rest)
    case Call(name, args, rest) => AllArgKeys(args) + OwnKey(name) + PageKeys(rest)
  }

  // Keys that evaluating `t` can look up, in a template or on the page.
  function KeysIn(t: Doc, inTemplate: bool): set<Key> {
    if inTemplate then AllKeys(t) else PageKeys(t)
  }

  // Keys that can be looked up at call depth `n` of the page, or above.
  function LevelKeys(lib: Library, page: Doc, n: nat): set<Key> {
    if n == 0 then PageKeys(page)
    else
      var above := LevelKeys(lib, page, n - 1);
      above + set k, c | k in above && k in lib.templates && c in AllKeys(lib.templates[k].body) :: c
  }

  lemma LevelsDescend(lib: Library, page: Doc, n: nat, key: Key)
    requires key in LevelKeys(lib, page, n) && key in lib.templates
    ensures LevelKeys(lib, page, n) <= LevelKeys(lib, page, n + 1)
    ensures AllKeys(lib.templates[key].body) <= LevelKeys(lib, page, n + 1)
  {
  }

  lemma {:induction false} LevelsGrow(lib: Library, page: Doc, m: nat, n: nat)
    requires m <= n
    ensures LevelKeys(lib, page, m) <= LevelKeys(lib, page, n)
    decreases n
  {
    hide AllKeys;
    if m < n {
      LevelsGrow(lib, page, m, n - 1);
    }
  }
}
