// When expansion returns at all.
module Termination {
  import opened Text
  import opened Scanner
  import opened Wikitext
  import opened Expander
  import opened Measured
  import opened Semantics
  import opened Transclusion

  // Every reference has a default.
  predicate Defaulted(t: Doc) {
    match t
    case End => true
    case Plain(_, rest) => Defaulted(rest)
    case Ref(_, default, rest) => default.Some? && Defaulted(default.value) && Defaulted(rest)
    case Call(_, args, rest) => DefaultedArgs(args) && Defaulted(rest)
  }

  predicate DefaultedArgs(args: Args) {
    match args
    case NoArgs => true
    case Positional(value, rest) => Defaulted(value) && DefaultedArgs(rest)
    case Named(_, value, rest) => Defaulted(value) && DefaultedArgs(rest)
  }

  // Every reference inside a call has a default. Those outside are copied.
  predicate PageDefaulted(t: Doc) {
    match t
    case End => true
    case Plain(_, rest) => PageDefaulted(rest)
    case Ref(_, _, rest) => PageDefaulted(rest)
    case Call(_, args, rest) => DefaultedArgs(args) && PageDefaulted(rest)
  }

  predicate DefaultedIn(t: Doc, inTemplate: bool) {
    if inTemplate then Defaulted(t) else PageDefaulted(t)
  }

  predicate AllDefaulted(lib: Library, page: Doc, max: nat) {
    && PageDefaulted(page)
    && forall key | key in LevelKeys(lib, page, max) && key in lib.templates :: Defaulted(lib.templates[key].body)
  }

  lemma {:induction false} DocCompletes(lib: Library, page: Doc, max: nat, t: Doc, at: Site, f: Frame)
    requires AllDefaulted(lib, page, max) && DefaultedIn(t, f.inTemplate) && f.depth <= max
    requires InReach(lib, page, f.depth, KeysIn(t, f.inTemplate))
    ensures Denote(lib, max, t, at, f).complete
    decreases max - f.depth, t, 1
  {
    hide LevelKeys, AllDefaulted, ParseAddress, PrintRef;
    match t
    case End =>
    case Plain(text, rest) => DocCompletes(lib, page, max, rest, Advance(at, text), f);
    case Ref(name, default, rest) =>
      if f.inTemplate {
        assert AllKeys(t) == DefaultKeys(default) + AllKeys(rest);
        DocCompletes(lib, page, max, default.value, Site(1, 1), f);
      }
      DocCompletes(lib, page, max, rest, Advance(at, "{{{" + PrintRef(name, default) + "}}}"), f);
    case Call(name, args, rest) =>
      var site := if f.site.Some? then f.site.value else at;
      CallCompletes(lib, page, max, name, args, site, f);
      DocCompletes(lib, page, max, rest, Advance(at, "{{" + (name + PrintArgs(args)) + "}}"), f);
  }

  lemma {:induction false} CallCompletes(lib: Library, page: Doc, max: nat, name: string, args: Args, site: Site, f: Frame)
    requires AllDefaulted(lib, page, max) && DefaultedArgs(args) && f.depth <= max
    requires InReach(lib, page, f.depth, AllArgKeys(args) + OwnKey(name))
    ensures DenoteCall(lib, max, name, args, site, f).complete
    decreases max - f.depth, args, 2
  {
    hide Denote, DenoteArgs, ParseAddress, RenderError, LevelKeys, AllArgKeys, Trim, ShortNames, FunctionName, AllKeys,
         Defaulted, DefaultedArgs, IndexOf;
    var key := ParseAddress(Trim(name));
    LevelsGrow(lib, page, f.depth, max);
    if key in OwnKey(name) && key in lib.templates && f.depth < max {
      LevelsDescend(lib, page, f.depth, key);
      ArgsComplete(lib, page, max, args, 1, f, site);
      var template := lib.templates[key];
      var scope := DenoteArgs(lib, max, args, 1, f, site);
      DocCompletes(lib, page, max, template.body, Site(1, 1), BodyFrame(f, scope.args, template.id, site));
    }
  }

  lemma {:induction false} ArgsComplete(lib: Library, page: Doc, max: nat, args: Args, next: nat, f: Frame, site: Site)
    requires AllDefaulted(lib, page, max) && DefaultedArgs(args) && f.depth < max
    requires InReach(lib, page, f.depth + 1, AllArgKeys(args))
    ensures DenoteArgs(lib, max, args, next, f, site).complete
    decreases max - f.depth, args, 0
  {
    hide Denote, LevelKeys, AllDefaulted;
    match args
    case NoArgs =>
    case Positional(value, rest) =>
      DocCompletes(lib, page, max, value, Site(1, 1), ArgFrame(f, site));
      ArgsComplete(lib, page, max, rest, next + 1, f, site);
    case Named(key, value, rest) =>
      DocCompletes(lib, page, max, value, Site(1, 1), ArgFrame(f, site));
      ArgsComplete(lib, page, max, rest, next, f, site);
  }

  // If every reference that can be evaluated has a default, expansion returns,
  // cyclic templates included.
  lemma DefaultsMakeItReturn(lib: Library, env: Env, page: Doc)
    requires Serves(lib, env, page) && WellFormed(page) && AllDefaulted(lib, page, env.max)
    ensures Returns(env, Print(page), DenotePage(lib, env.max, page).text)
  {
    DocCompletes(lib, page, env.max, page, Site(1, 1), TOP);
    ExpansionIsMeaning(lib, env, page);
  }

  // A template whose body is `{{{name}}}`, called without arguments: the
  // reference should be shown as it is, and is expanded for ever instead. Any
  // names, any other templates.
  lemma UnboundReferenceNeverReturns(env: Env, template: string, name: string)
    requires BraceFree(template) && '|' !in template && Trim(template) != "" && TrimStart(template)[0] != '#'
    requires BraceFree(name) && '|' !in name && env.max >= 1
    requires var key := ParseAddress(Trim(template));
      key in env.resolver.sources && env.resolver.sources[key].body == Literal(name)
    ensures Diverges(env, "{{" + template + "}}")
  {
    TrimIsEmptyIff(template);
    hide Diverges, ParseAddress, Trim, TrimStart, Meant;
    var page := "{{" + template + "}}";
    var call := CallMeaning(env, template, NoArgs, Site(1, 1), TOP);
    assert page[0..] == "{{" + (template + PrintArgs(NoArgs)) + "}}" + "" by {
      assert template + "" == template && page[0..] == page && page + "" == page;
    }
    CallStep(env, page, 0, template, NoArgs, "", TOP);
    MeantUnfolds(env, page, 0, TOP);
    CallIsStuck(env, template, name);
    PageAgrees(env, page);
  }

  lemma CallIsStuck(env: Env, template: string, name: string)
    requires TrimStart(template) != "" && TrimStart(template)[0] != '#' && env.max >= 1
    requires BraceFree(name) && '|' !in name
    requires var key := ParseAddress(Trim(template));
      key in env.resolver.sources && env.resolver.sources[key].body == Literal(name)
    ensures CallMeaning(env, template, NoArgs, Site(1, 1), TOP).status.Stuck?
  {
    hide ParseAddress, Trim, TrimStart, Meant, Literal;
    var source := env.resolver.sources[ParseAddress(Trim(template))];
    NoArgsMeant(env, 1, TOP, Site(1, 1));
    LiteralIsStuck(env, name, BodyFrame(TOP, [], source.id, Site(1, 1)));
  }

  lemma LiteralIsStuck(env: Env, name: string, f: Frame)
    requires BraceFree(name) && '|' !in name && f.depth <= env.max && f.inTemplate && f.args == []
    ensures Meant(env, Literal(name), 0, f).status.Stuck?
  {
    hide Meant, Trim, FindTriple;
    var body := Literal(name);
    assert body[0..] == "{{{" + name + "}}}" + "";
    BraceFreeCloses(name);
    RefStep(env, body, 0, name, "", f);
    MeantUnfolds(env, body, 0, f);
    ReadRef(name, None);
    NameStands(name);
  }
}
