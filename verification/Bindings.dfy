// Which value a reference in a template stands for: the arguments of a call by
// name and number, and the scope each of them is evaluated in.
module Bindings {
  import opened Text
  import opened Scanner
  import opened Wikitext
  import opened Expander
  import opened Measured
  import opened Semantics
  import opened Transclusion

  // ---- Looking a name up

  // The first argument of this name is the one at `k`.
  predicate FirstOfName(args: seq<Arg>, name: string, k: nat) {
    k < |args| && args[k].name == name && forall j | 0 <= j < k :: args[j].name != name
  }

  lemma {:induction false} FirstLater(args: seq<Arg>, name: string, k: nat)
    requires args != [] && args[0].name != name
    ensures FirstOfName(args[1..], name, k) <==> FirstOfName(args, name, k + 1)
  {
    if FirstOfName(args[1..], name, k) {
      assert forall j | 1 <= j < |args| :: args[j] == args[1..][j - 1];
    }
    if FirstOfName(args, name, k + 1) {
      assert forall j | 0 <= j < |args| - 1 :: args[1..][j] == args[j + 1];
    }
  }

  // The first binding wins; a name nobody gives is unbound.
  lemma {:induction false} LookupFindsFirst(args: seq<Arg>, name: string, value: string)
    ensures Lookup(args, name) == Some(value) <==> exists k: nat :: FirstOfName(args, name, k) && args[k].value == value
    ensures Lookup(args, name).None? <==> forall a | a in args :: a.name != name
  {
    if args != [] {
      var rest := args[1..];
      assert forall a :: a in args <==> a == args[0] || a in rest;
      if args[0].name == name {
        assert FirstOfName(args, name, 0);
      } else {
        LookupFindsFirst(rest, name, value);
        if k: nat :| FirstOfName(rest, name, k) && rest[k].value == value {
          FirstLater(args, name, k);
          assert args[k + 1] == rest[k];
        }
        if k: nat :| FirstOfName(args, name, k) && args[k].value == value {
          FirstLater(args, name, k - 1);
          assert args[k] == rest[k - 1];
        }
      }
    }
  }

  lemma FirstIsFound(args: seq<Arg>, name: string, k: nat)
    requires FirstOfName(args, name, k)
    ensures Lookup(args, name) == Some(args[k].value)
  {
    LookupFindsFirst(args, name, args[k].value);
  }

  // ---- The arguments of a call

  function Length(args: Args): nat {
    match args
    case NoArgs => 0
    case Positional(_, rest) => 1 + Length(rest)
    case Named(_, _, rest) => 1 + Length(rest)
  }

  // The arguments from the one at `k` on.
  function From(args: Args, k: nat): (r: Args)
    requires k <= Length(args)
    ensures Length(r) == Length(args) - k
  {
    if k == 0 then args else From(args.rest, k - 1)
  }

  // How many of the first `n` arguments have no key.
  function Positionals(args: Args, n: nat): nat
    requires n <= Length(args)
  {
    if n == 0 then 0 else (if args.Positional? then 1 else 0) + Positionals(args.rest, n - 1)
  }

  // The number of the argument at `k` among those without a key, or its key.
  function ArgName(args: Args, k: nat): string
    requires k < Length(args)
  {
    var a := From(args, k);
    if a.Positional? then Decimal(Positionals(args, k + 1)) else Trim(a.key)
  }

  // What the argument at `k` is evaluated to, in the scope of the caller `f` and
  // one level deeper.
  function ArgValue(lib: Library, max: nat, args: Args, k: nat, f: Frame, site: Site): Denotation
    requires k < Length(args) && f.depth < max
  {
    Denote(lib, max, From(args, k).value, Site(1, 1),
           Frame(f.args, true, f.stack, f.depth + 1, f.argLevels + 1, Some(site)))
  }

  lemma {:induction false} ScopeAt(lib: Library, max: nat, args: Args, next: nat, f: Frame, site: Site, k: nat)
    requires f.depth < max && k < Length(args) && next >= 1
    ensures var bound := DenoteArgs(lib, max, args, next, f, site).args; var a := From(args, k);
      && |bound| == Length(args)
      && bound[k].name == (if a.Positional? then Decimal(next - 1 + Positionals(args, k + 1)) else Trim(a.key))
      && bound[k].value == Trim(ArgValue(lib, max, args, k, f, site).text)
    decreases args
  {
    hide Denote, Trim, Decimal;
    if k > 0 {
      ScopeAt(lib, max, args.rest, if args.Positional? then next + 1 else next, f, site, k - 1);
    } else {
      ScopeLength(lib, max, args, next, f, site);
    }
  }

  lemma {:induction false} ScopeLength(lib: Library, max: nat, args: Args, next: nat, f: Frame, site: Site)
    requires f.depth < max
    ensures |DenoteArgs(lib, max, args, next, f, site).args| == Length(args)
    decreases args
  {
    hide Denote, Trim, Decimal;
    if !args.NoArgs? {
      ScopeLength(lib, max, args.rest, if args.Positional? then next + 1 else next, f, site);
    }
  }

  predicate AllComplete(lib: Library, max: nat, args: Args, f: Frame, site: Site)
    requires f.depth < max
  {
    forall k | 0 <= k < Length(args) :: ArgValue(lib, max, args, k, f, site).complete
  }

  lemma {:induction false} ScopeCompletes(lib: Library, max: nat, args: Args, next: nat, f: Frame, site: Site)
    requires f.depth < max
    ensures DenoteArgs(lib, max, args, next, f, site).complete <==> AllComplete(lib, max, args, f, site)
    decreases args
  {
    hide Denote, Trim, Decimal;
    if !args.NoArgs? {
      ScopeCompletes(lib, max, args.rest, if args.Positional? then next + 1 else next, f, site);
      assert ArgValue(lib, max, args, 0, f, site)
          == Denote(lib, max, args.value, Site(1, 1), ArgFrame(f, site));
      assert forall k | 1 <= k < Length(args) ::
          ArgValue(lib, max, args, k, f, site) == ArgValue(lib, max, args.rest, k - 1, f, site);
      assert forall k | 0 <= k < Length(args.rest) ::
          ArgValue(lib, max, args.rest, k, f, site) == ArgValue(lib, max, args, k + 1, f, site);
    }
  }

  // The first argument of this name is the one at `k`.
  predicate FirstBinding(args: Args, name: string, k: nat) {
    k < Length(args) && ArgName(args, k) == name && forall j | 0 <= j < k :: ArgName(args, j) != name
  }

  predicate Binds(args: Args, name: string) {
    exists k | 0 <= k < Length(args) :: ArgName(args, k) == name
  }

  lemma ScopeBinds(lib: Library, max: nat, args: Args, f: Frame, site: Site, name: string)
    requires f.depth < max
    ensures var bound := DenoteArgs(lib, max, args, 1, f, site).args;
      && (forall k | 0 <= k < Length(args) && FirstBinding(args, name, k) ::
            Lookup(bound, name) == Some(Trim(ArgValue(lib, max, args, k, f, site).text)))
      && (Binds(args, name) <==> Lookup(bound, name).Some?)
  {
    hide DenoteArgs, ArgValue, Lookup, Trim, Decimal;
    var bound := DenoteArgs(lib, max, args, 1, f, site).args;
    ScopeLength(lib, max, args, 1, f, site);
    forall k | 0 <= k < Length(args)
      ensures bound[k].name == ArgName(args, k)
      ensures bound[k].value == Trim(ArgValue(lib, max, args, k, f, site).text)
    {
      ScopeAt(lib, max, args, 1, f, site, k);
    }
    forall k | 0 <= k < Length(args) && FirstBinding(args, name, k)
      ensures Lookup(bound, name) == Some(Trim(ArgValue(lib, max, args, k, f, site).text))
    {
      FirstIsFound(bound, name, k);
    }
    LookupFindsFirst(bound, name, "");
    if Binds(args, name) {
      var k :| 0 <= k < Length(args) && ArgName(args, k) == name;
      assert bound[k] in bound;
    }
  }

  // ---- A template that is one reference

  // What a call of a template with the body `{{{param}}}` gives, in any scope:
  // the first argument of that name, evaluated where the call is written. What
  // the caller itself was given under that name is not seen.
  lemma CallGivesFirstBinding(lib: Library, max: nat, name: string, args: Args, param: string, site: Site, f: Frame)
    requires f.depth < max
    requires var key := ParseAddress(name);
      key in lib.templates && lib.templates[key].body == Ref(param, None, End) && lib.templates[key].id !in f.stack
    ensures var d := DenoteTemplate(lib, max, name, args, site, f);
      && (forall k | 0 <= k < Length(args) && FirstBinding(args, Trim(param), k) ::
            d == Denotation(Trim(ArgValue(lib, max, args, k, f, site).text), AllComplete(lib, max, args, f, site)))
      && (d.complete <==> Binds(args, Trim(param)) && AllComplete(lib, max, args, f, site))
  {
    hide Lookup, Trim, FirstBinding, Binds, ArgValue, AllComplete;
    var template := lib.templates[ParseAddress(name)];
    var scope := DenoteArgs(lib, max, args, 1, f, site);
    var g := BodyFrame(f, scope.args, template.id, site);
    ScopeBinds(lib, max, args, f, site, Trim(param));
    ScopeCompletes(lib, max, args, 1, f, site);
    OneReference(lib, max, param, g);
    Entered(lib, max, name, args, site, f);
    hide DenoteTemplate, DenoteArgs, DenoteRef;
    forall k | 0 <= k < Length(args) && FirstBinding(args, Trim(param), k)
      ensures DenoteTemplate(lib, max, name, args, site, f)
           == Denotation(Trim(ArgValue(lib, max, args, k, f, site).text), AllComplete(lib, max, args, f, site))
    {
    }
  }

  lemma OneReference(lib: Library, max: nat, param: string, g: Frame)
    requires g.depth <= max && g.inTemplate
    ensures var d := Denote(lib, max, Ref(param, None, End), Site(1, 1), g); var v := Lookup(g.args, Trim(param));
      d == if v.Some? then Denotation(v.value, true) else Denotation(Literal(Trim(param)), false)
  {
    hide Lookup, Trim;
    var v := Lookup(g.args, Trim(param));
    var text := if v.Some? then v.value else Literal(Trim(param));
    assert text + "" == text;
  }

  lemma Entered(lib: Library, max: nat, name: string, args: Args, site: Site, f: Frame)
    requires f.depth < max
    requires var key := ParseAddress(name); key in lib.templates && lib.templates[key].id !in f.stack
    ensures var template := lib.templates[ParseAddress(name)];
      var scope := DenoteArgs(lib, max, args, 1, f, site);
      var body := Denote(lib, max, template.body, Site(1, 1), BodyFrame(f, scope.args, template.id, site));
      DenoteTemplate(lib, max, name, args, site, f) == Denotation(body.text, scope.complete && body.complete)
  {
    hide Denote, DenoteArgs, ParseAddress;
  }

  // An argument that is a reference itself stands for what the caller was given.
  lemma ArgumentsSeeTheCaller(lib: Library, max: nat, args: Args, k: nat, f: Frame, site: Site, param: string, j: nat)
    requires f.depth < max && k < Length(args) && From(args, k).value == Ref(param, None, End)
    requires FirstOfName(f.args, Trim(param), j)
    ensures ArgValue(lib, max, args, k, f, site) == Denotation(f.args[j].value, true)
  {
    hide Trim;
    FirstIsFound(f.args, Trim(param), j);
    OneReference(lib, max, param, ArgFrame(f, site));
  }

  // ---- Whole pages

  // A page that is one call of such a template, over any stored templates: it
  // expands to the first argument of that name if there is one and all arguments
  // can be evaluated, and otherwise never returns.
  lemma PageGivesFirstBinding(lib: Library, env: Env, name: string, args: Args, param: string)
    requires var page := Call(name, args, End); Serves(lib, env, page) && WellFormed(page)
    requires TrimStart(name) != "" && TrimStart(name)[0] != '#' && env.max >= 1
    requires var key := ParseAddress(Trim(name)); key in lib.templates && lib.templates[key].body == Ref(param, None, End)
    ensures var page := Print(Call(name, args, End)); var site := Site(1, 1);
      && (forall k | 0 <= k < Length(args) && FirstBinding(args, Trim(param), k) && AllComplete(lib, env.max, args, TOP, site) ::
            Returns(env, page, Trim(ArgValue(lib, env.max, args, k, TOP, site).text)))
      && (!(Binds(args, Trim(param)) && AllComplete(lib, env.max, args, TOP, site)) ==> Diverges(env, page))
  {
    hide Returns, Diverges, Serves, WellFormedArgs, ParseAddress, Trim, TrimStart, FirstBinding, Binds, ArgValue, AllComplete;
    var page, site := Call(name, args, End), Site(1, 1);
    CallGivesFirstBinding(lib, env.max, Trim(name), args, param, site, TOP);
    ExpansionIsMeaning(lib, env, page);
    OneCall(lib, env.max, name, args);
    hide DenoteTemplate, DenotePage, Print;
    forall k | 0 <= k < Length(args) && FirstBinding(args, Trim(param), k) && AllComplete(lib, env.max, args, TOP, site)
      ensures Returns(env, Print(page), Trim(ArgValue(lib, env.max, args, k, TOP, site).text))
    {
    }
  }

  lemma OneCall(lib: Library, max: nat, name: string, args: Args)
    requires TrimStart(name) != "" && TrimStart(name)[0] != '#'
    ensures DenotePage(lib, max, Call(name, args, End)) == DenoteTemplate(lib, max, Trim(name), args, Site(1, 1), TOP)
  {
    hide DenoteTemplate, Trim, TrimStart, PrintArgs, Advance;
    var d := DenoteTemplate(lib, max, Trim(name), args, Site(1, 1), TOP);
    assert DenoteCall(lib, max, name, args, Site(1, 1), TOP) == d;
    var after := Advance(Site(1, 1), "{{" + (name + PrintArgs(args)) + "}}");
    assert Denote(lib, max, End, after, TOP) == Denotation("", true);
    assert d.text + "" == d.text;
  }

  // ---- One name given twice

  // `{{T|p=a|p=b}}`, where T's body is `{{{p}}}`.
  lemma FirstOfTwoBindings(env: Env, template: string, param: string, a: string, b: string)
    requires BraceFree(template) && '|' !in template && Trim(template) != "" && TrimStart(template)[0] != '#'
    requires BraceFree(param) && '|' !in param && '=' !in param
    requires BraceFree(a) && '|' !in a && BraceFree(b) && '|' !in b && env.max >= 1
    requires var key := ParseAddress(Trim(template));
      key in env.resolver.sources && env.resolver.sources[key].body == "{{{" + param + "}}}"
    ensures Returns(env, "{{" + (template + ("|" + (param + "=" + a) + ("|" + (param + "=" + b)))) + "}}", Trim(a))
  {
    TrimIsEmptyIff(template);
    var args := TwoArgs(param, a, b);
    TwoArgsPrinted(param, a, b);
    hide Returns, ParseAddress, Trim, TrimStart, Meant, TwoArgs, CallMeaning;
    var page := "{{" + (template + PrintArgs(args)) + "}}";
    assert page[0..] == page + "";
    CallStep(env, page, 0, template, args, "", TOP);
    MeantUnfolds(env, page, 0, TOP);
    NothingLeft(env, page, TOP);
    TwoArgsMean(env, template, param, a, b);
    assert Trim(a) + "" == Trim(a);
    PageAgrees(env, page);
  }

  function TwoArgs(param: string, a: string, b: string): Args {
    Named(param, Plain(a, End), Named(param, Plain(b, End), NoArgs))
  }

  lemma TwoArgsPrinted(param: string, a: string, b: string)
    requires BraceFree(param) && '|' !in param && '=' !in param && BraceFree(a) && '|' !in a && BraceFree(b) && '|' !in b
    ensures WellFormedArgs(TwoArgs(param, a, b))
    ensures ArgTexts(TwoArgs(param, a, b)) == [param + "=" + a, param + "=" + b]
    ensures PrintArgs(TwoArgs(param, a, b)) == "|" + (param + "=" + a) + ("|" + (param + "=" + b))
  {
    assert Print(Plain(a, End)) == a && Print(Plain(b, End)) == b;
    var last := Named(param, Plain(b, End), NoArgs);
    assert PrintArgs(last) == "|" + (param + "=" + b) + "" == "|" + (param + "=" + b);
    assert ArgTexts(last) == [param + "=" + b] + [] == [param + "=" + b];
  }

  lemma TwoArgsBound(env: Env, param: string, a: string, b: string, f: Frame, site: Site)
    requires BraceFree(param) && '=' !in param && BraceFree(a) && BraceFree(b) && f.depth < env.max
    ensures var m := MeantArgs(env, [param + "=" + a, param + "=" + b], 1, f, site);
      m.status.Settled? && m.args == [Arg(Trim(param), Trim(a)), Arg(Trim(param), Trim(b))]
  {
    hide Meant, ParseArgument, Trim, MeantArgs;
    var x, y := param + "=" + a, param + "=" + b;
    ReadNamed(param, a, 1);
    ReadNamed(param, b, 1);
    PlainMeansItself(env, a, ArgFrame(f, site));
    PlainMeansItself(env, b, ArgFrame(f, site));
    NoArgsMeant(env, 1, f, site);
    OneMoreArg(env, y, [], 1, f, site);
    assert [y] + [] == [y] && [x] + [y] == [x, y];
    OneMoreArg(env, x, [y], 1, f, site);
  }

  lemma TwoArgsMean(env: Env, template: string, param: string, a: string, b: string)
    requires TrimStart(template) != "" && TrimStart(template)[0] != '#' && env.max >= 1
    requires BraceFree(param) && '|' !in param && '=' !in param && BraceFree(a) && '|' !in a && BraceFree(b) && '|' !in b
    requires var key := ParseAddress(Trim(template));
      key in env.resolver.sources && env.resolver.sources[key].body == "{{{" + param + "}}}"
    ensures var m := CallMeaning(env, template, TwoArgs(param, a, b), Site(1, 1), TOP); m.status.Settled? && m.text == Trim(a)
  {
    hide ParseAddress, Trim, TrimStart, Meant, MeantArgs, TwoArgs;
    TwoArgsPrinted(param, a, b);
    TwoArgsBound(env, param, a, b, TOP, Site(1, 1));
    var source := env.resolver.sources[ParseAddress(Trim(template))];
    var args := [Arg(Trim(param), Trim(a)), Arg(Trim(param), Trim(b))];
    BoundReferenceMeans(env, param, Trim(a), BodyFrame(TOP, args, source.id, Site(1, 1)), a);
  }

  lemma BoundReferenceMeans(env: Env, param: string, value: string, f: Frame, a: string)
    requires BraceFree(param) && '|' !in param && f.depth <= env.max && f.inTemplate && '{' !in a && value == Trim(a)
    requires FirstOfName(f.args, Trim(param), 0) && f.args[0].value == value
    ensures var m := Meant(env, "{{{" + param + "}}}", 0, f); m.status.Settled? && m.text == value
  {
    hide Meant, Trim, FindTriple, Lookup;
    var body := "{{{" + param + "}}}";
    assert body[0..] == body + "";
    BraceFreeCloses(param);
    RefStep(env, body, 0, param, "", f);
    MeantUnfolds(env, body, 0, f);
    NothingLeft(env, body, f);
    ReadRef(param, None);
    FirstIsFound(f.args, Trim(param), 0);
    TrimIsSlice(a, '{');
    assert value + "" == value;
  }
}
