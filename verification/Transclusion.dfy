// Expanding printed source computes its meaning.
module Transclusion {
  import opened Text
  import opened Scanner
  import opened Wikitext
  import opened Expander
  import opened RoundTrip
  import opened Measured
  import opened Semantics

  function Stored(t: Template): Source {
    Source(t.id, t.revision, Print(t.body))
  }

  // ---- Diagnostics contain no `{` of their own

  lemma {:induction false} EscapeKeeps(s: string)
    requires '{' !in s
    ensures '{' !in EscapeHtml(s)
  {
    if s != "" {
      EscapeKeeps(s[1..]);
      assert '{' !in EscapeChar(s[0]);
    }
  }

  lemma ErrorKeeps(m: Message, site: Site)
    requires '{' !in MessageText(m)
    ensures '{' !in RenderError(m, site)
  {
    EscapeKeeps(MessageText(m));
    DecimalIsDigits(site.line, '{');
    DecimalIsDigits(site.col, '{');
    hide EscapeHtml, MessageText, Decimal;
    SpanKeeps(Decimal(site.line), Decimal(site.col), EscapeHtml(MessageText(m)));
  }

  lemma SpanKeeps(line: string, col: string, message: string)
    requires '{' !in line && '{' !in col && '{' !in message
    ensures '{' !in "<span class=\"template-error\" data-line=\"" + line + "\" data-col=\"" + col
                    + "\">[template error: " + message + "]</span>"
  {
    var a := "<span class=\"template-error\" data-line=\"" + line;
    assert '{' !in a;
    var b := a + "\" data-col=\"" + col;
    assert '{' !in b;
    var c := b + "\">[template error: " + message;
    assert '{' !in c;
  }

  lemma {:induction false} UpToKeeps(s: string, stops: set<char>, c: char)
    requires c !in s
    ensures c !in UpTo(s, stops) && c !in DropLeading(s, '#')
  {
    if s != "" {
      UpToKeeps(s[1..], stops, c);
    }
  }

  lemma FunctionNameKeeps(s: string)
    requires '{' !in s
    ensures '{' !in FunctionName(s)
  {
    var d := DropLeading(s, '#');
    UpToKeeps(s, {}, '{');
    UpToKeeps(d, {':', '|'}, '{');
    TrimIsSlice(UpTo(d, {':', '|'}), '{');
  }

  lemma AddressKeeps(raw: string)
    requires '{' !in raw
    ensures var key := ParseAddress(raw); '{' !in key.ns && '{' !in key.name
  {
    var colon := IndexOf(raw, ':');
    if colon.Some? {
      TrimIsSlice(raw[..colon.value], '{');
      TrimIsSlice(raw[colon.value + 1..], '{');
    } else {
      TrimIsSlice(raw, '{');
    }
  }

  lemma {:induction false} ChainKeeps(ids: seq<string>)
    requires forall id | id in ids :: '{' !in id
    ensures '{' !in Join(ShortNames(ids), " -> ")
  {
    if ids != [] {
      ChainKeeps(ids[1..]);
      assert '{' !in ids[0];
      assert '{' !in ShortName(ids[0]);
      assert ShortNames(ids)[1..] == ShortNames(ids[1..]);
    }
  }

  // ---- Reading printed nodes

  lemma {:induction false} BraceFreeCloses(s: string)
    requires BraceFree(s)
    ensures Closed(s)
  {
    if s == "" {
      assert "" + "}}}" == "}}}";
    } else {
      assert (s + "}}}")[1..] == s[1..] + "}}}";
      assert s[0] in s;
      BraceFreeCloses(s[1..]);
    }
  }

  // A name without braces and pipes, standing for itself.
  lemma NameStands(name: string)
    requires BraceFree(name) && '|' !in name
    ensures StandsForItself(Trim(name))
  {
    var t := Trim(name);
    TrimIsSlice(name, '{');
    TrimIsSlice(name, '}');
    TrimIsSlice(name, '|');
    BraceFreeCloses(t);
    FindSkipsPlain(t, "", 0, AtChar('|'));
    assert t + "" == t;
  }

  lemma ReadRef(name: string, default: Option<Doc>)
    requires BraceFree(name) && '|' !in name
    ensures ParseRef(PrintRef(name, default))
         == (Trim(name), if default.Some? then Some(Print(default.value)) else None)
  {
    SplitRef(name, default);
    if default.Some? {
      var inner := name + "|" + Print(default.value);
      assert inner[..|name|] == name && inner[|name| + 1..] == Print(default.value);
    }
  }

  lemma ReadPositional(value: Doc, next: nat)
    requires WellFormed(value) && TopFree(value, '=')
    ensures ParseArgument(Print(value), next) == (Decimal(next), Print(value), next + 1)
  {
    PositionalHasNoKey(value);
  }

  lemma ReadNamed(key: string, value: string, next: nat)
    requires BraceFree(key) && '=' !in key
    ensures ParseArgument(key + "=" + value, next) == (Trim(key), value, next)
  {
    NamedKey(key, value);
    var raw := key + "=" + value;
    assert raw[..|key|] == key && raw[|key| + 1..] == value;
  }

  lemma {:induction false} TrimStartOver(name: string, rest: string)
    requires TrimStart(name) != ""
    ensures TrimStart(name + rest) == TrimStart(name) + rest
  {
    if IsWhitespace(name[0]) {
      assert (name + rest)[1..] == name[1..] + rest;
      TrimStartOver(name[1..], rest);
    }
  }

  lemma {:induction false} UpToOver(s: string, rest: string)
    requires rest == "" || rest[0] == '|'
    ensures UpTo(s + rest, {':', '|'}) == UpTo(s, {':', '|'})
    ensures UpTo(DropLeading(s + rest, '#'), {':', '|'}) == UpTo(DropLeading(s, '#'), {':', '|'})
  {
    if s == "" {
      assert s + rest == rest;
    } else {
      assert (s + rest)[1..] == s[1..] + rest;
      UpToOver(s[1..], rest);
    }
  }

  lemma PrintArgsStart(args: Args)
    ensures PrintArgs(args) == "" || PrintArgs(args)[0] == '|'
  {
    match args
    case NoArgs =>
    case Positional(value, rest) => Assoc("|", Print(value), PrintArgs(rest));
    case Named(key, value, rest) => Assoc("|", key + "=" + Print(value), PrintArgs(rest));
  }

  // What `{{name|..}}` looks like to the call scanner.
  lemma ReadCall(name: string, args: Args, rest: string)
    requires BraceFree(name) && '|' !in name && Trim(name) != "" && WellFormedArgs(args)
    ensures var inner := name + PrintArgs(args); var s := "{{" + inner + "}}" + rest;
      && Twice(s, '{') && !Thrice(s, '{')
      && Find(s[2..], 0, AtClose) == Some(|inner|) && s[2..2 + |inner|] == inner
      && s[2 + |inner| + 2..] == rest && |s| >= 2 + |inner| + 2
  {
    hide Find, PrintArgs, WellFormedArgs, Trim;
    var inner := name + PrintArgs(args);
    CallCloses(name, args, rest);
    Enclosed("{{", inner, "}}", rest);
    assert name != "" by { if name == "" { TrimIsSlice(name, 'x'); TrimOfEmpty(); } }
    assert inner[0] == name[0] && name[0] in name;
  }

  lemma TrimOfEmpty()
    ensures Trim("") == ""
  {
  }

  lemma ReadHead(name: string, args: Args)
    requires BraceFree(name) && '|' !in name && Trim(name) != "" && WellFormedArgs(args)
    ensures var inner := name + PrintArgs(args); var trimmed := TrimStart(inner);
      && Split(inner) == [name] + ArgTexts(args)
      && TrimStart(name) != "" && trimmed != "" && trimmed[0] == TrimStart(name)[0]
      && FunctionName(trimmed) == FunctionName(TrimStart(name))
  {
    SplitCall(name, args);
    TrimStartOver(name, PrintArgs(args));
    PrintArgsStart(args);
    UpToOver(TrimStart(name), PrintArgs(args));
  }

  // ---- Steps of the measured expansion over printed nodes

  // Position after the node `x`.
  lemma Onward(body: string, i: nat, x: string, rest: string)
    requires i <= |body| && body[i..] == x + rest
    ensures i + |x| <= |body| && body[i + |x|..] == rest
    ensures LineCol(body, i + |x|) == Advance(LineCol(body, i), x)
  {
    hide Advance;
    SliceOn(body, i, x, rest);
    AdvanceOver(Site(1, 1), body[..i], x);
  }

  lemma SliceOn(body: string, i: nat, x: string, rest: string)
    requires i <= |body| && body[i..] == x + rest
    ensures i + |x| <= |body| && body[i + |x|..] == rest && body[..i + |x|] == body[..i] + x
  {
    var tail := body[i..];
    assert |tail| == |x| + |rest| && tail[|x|..] == rest && tail[..|x|] == x;
    assert body == body[..i] + tail;
  }

  lemma {:induction false} PlainMeant(env: Env, body: string, i: nat, text: string, rest: string, f: Frame)
    requires i <= |body| && body[i..] == text + rest && BraceFree(text) && f.depth <= env.max
    ensures i + |text| <= |body|
    ensures var m := Meant(env, body, i + |text|, f);
      Meant(env, body, i, f) == Meaning(text + m.text, m.status, m.need)
    decreases |text|
  {
    hide MeantCall, MeantRef, FindTriple, Find;
    assert |body| - i == |text| + |rest|;
    if text == "" {
      assert text + Meant(env, body, i, f).text == Meant(env, body, i, f).text;
    } else {
      assert body[i..][0] == text[0] && text[0] in text;
      assert body[i + 1..] == body[i..][1..] == text[1..] + rest;
      assert MeantStep(env, body, i, f) == StepMeaning(1, Meaning(body[i..][..1], Settled, 0));
      PlainMeant(env, body, i + 1, text[1..], rest, f);
      var m := Meant(env, body, i + |text|, f);
      assert body[i..][..1] + (text[1..] + m.text) == text + m.text;
    }
  }

  lemma NothingLeft(env: Env, body: string, f: Frame)
    requires f.depth <= env.max
    ensures Meant(env, body, |body|, f) == Meaning("", Settled, 0)
  {
  }

  // Text without braces means itself.
  lemma PlainMeansItself(env: Env, text: string, f: Frame)
    requires BraceFree(text) && f.depth <= env.max
    ensures Meant(env, text, 0, f) == Meaning(text, Settled, 0)
  {
    assert text[0..] == text + "" && text + "" == text;
    PlainMeant(env, text, 0, text, "", f);
    NothingLeft(env, text, f);
  }

  lemma RefStep(env: Env, body: string, i: nat, inner: string, rest: string, f: Frame)
    requires i < |body| && body[i..] == "{{{" + inner + "}}}" + rest && Closed(inner) && f.depth <= env.max
    ensures MeantStep(env, body, i, f) ==
            StepMeaning(|inner| + 6, if f.inTemplate then MeantRef(env, inner, f)
                                     else Meaning("{{{" + inner + "}}}", Settled, 0))
  {
    hide FindTriple;
    RefCloses(inner, rest);
    Enclosed("{{{", inner, "}}}", rest);
    var s := body[i..];
    assert Thrice(s, '{');
    assert s[..|inner| + 6] == "{{{" + inner + "}}}";
  }

  // The meaning of a call at `site`, read off its printed text.
  function CallMeaning(env: Env, name: string, args: Args, site: Site, f: Frame): Meaning
    requires f.depth <= env.max
  {
    var trimmed := TrimStart(name);
    if trimmed != "" && trimmed[0] == '#' then
      Meaning(RenderError(ParserFunction(FunctionName(trimmed)), site), Settled, 0)
    else MeantTransclude(env, Trim(name), ArgTexts(args), site, f)
  }

  lemma CallStep(env: Env, body: string, i: nat, name: string, args: Args, rest: string, f: Frame)
    requires i < |body| && body[i..] == "{{" + (name + PrintArgs(args)) + "}}" + rest && f.depth <= env.max
    requires BraceFree(name) && '|' !in name && Trim(name) != "" && WellFormedArgs(args)
    ensures MeantStep(env, body, i, f) ==
            StepMeaning(|name + PrintArgs(args)| + 4, CallMeaning(env, name, args, SiteAt(f, body, i), f))
  {
    hide PrintArgs, WellFormedArgs, Trim, MeantCall, CallMeaning, SiteAt;
    ReadCall(name, args, rest);
    CallIsRead(env, name, args, rest, SiteAt(f, body, i), f);
  }

  lemma CallIsRead(env: Env, name: string, args: Args, rest: string, site: Site, f: Frame)
    requires BraceFree(name) && '|' !in name && Trim(name) != "" && WellFormedArgs(args) && f.depth <= env.max
    ensures var inner := name + PrintArgs(args); var s := "{{" + inner + "}}" + rest;
      Twice(s, '{') && MeantCall(env, s, site, f) == Some(StepMeaning(|inner| + 4, CallMeaning(env, name, args, site, f)))
  {
    hide Find, FindTriple, PrintArgs, WellFormedArgs, Trim, TrimStart, Split, FunctionName, ArgTexts, RenderError;
    ReadCall(name, args, rest);
    ReadHead(name, args);
    var parts := Split(name + PrintArgs(args));
    assert parts[0] == name && parts[1..] == ArgTexts(args);
  }

  // ---- The theorem, over the tree

  // The resolver answers for `key` with the library's well-formed template, or
  // like the library with nothing.
  predicate ServesKey(lib: Library, r: Resolver, key: Key) {
    && (key in r.sources <==> key in lib.templates)
    && (key.ns in r.known <==> key.ns in lib.known)
    && (key in lib.templates ==>
          && r.sources[key] == Stored(lib.templates[key])
          && WellFormed(lib.templates[key].body) && '{' !in lib.templates[key].id)
  }

  // The resolver serves the library on every key the page can reach.
  predicate Serves(lib: Library, env: Env, page: Doc) {
    forall key | key in LevelKeys(lib, page, env.max) :: ServesKey(lib, env.resolver, key)
  }

  // `keys` can be looked up at depth `depth`.
  predicate InReach(lib: Library, page: Doc, depth: nat, keys: set<Key>) {
    keys <= LevelKeys(lib, page, depth)
  }

  predicate CleanFrame(f: Frame) {
    && (forall a | a in f.args :: '{' !in a.value)
    && (forall id | id in f.stack :: '{' !in id)
    && (f.inTemplate <==> f.site.Some?)
  }

  predicate Matches(m: Meaning, d: Denotation, f: Frame) {
    && (d.complete ==> m.status.Settled? && m.text == d.text && (f.inTemplate ==> '{' !in d.text))
    && (!d.complete ==> m.status.Stuck?)
  }

  lemma {:induction false} LookupIsClean(args: seq<Arg>, name: string)
    requires forall a | a in args :: '{' !in a.value
    ensures var v := Lookup(args, name); v.Some? ==> '{' !in v.value
  {
    if args != [] {
      assert '{' !in args[0].value;
      LookupIsClean(args[1..], name);
    }
  }

  lemma {:induction false} DocMeant(lib: Library, page: Doc, env: Env, body: string, i: nat, t: Doc, at: Site, f: Frame)
    requires InReach(lib, page, f.depth, KeysIn(t, f.inTemplate))
    requires Serves(lib, env, page) && WellFormed(t)
    requires i <= |body| && body[i..] == Print(t)
    requires f.depth <= env.max && CleanFrame(f) && (f.site.None? ==> at == LineCol(body, i))
    ensures Matches(Meant(env, body, i, f), Denote(lib, env.max, t, at, f), f)
    decreases env.max - f.depth, t, 3
  {
    hide FindTriple, Find, MeantStep, CleanFrame, Advance, WellFormedArgs;
    match t
    case End =>
    case Plain(text, rest) =>
      PlainMeant(env, body, i, text, Print(rest), f);
      Onward(body, i, text, Print(rest));
      DocMeant(lib, page, env, body, i + |text|, rest, Advance(at, text), f);
    case Ref(name, default, rest) =>
      RefNode(lib, page, env, body, i, name, default, rest, at, f);
    case Call(name, args, rest) =>
      CallNode(lib, page, env, body, i, name, args, rest, at, f);
  }

  // One node at `i`, then the rest.
  lemma NodeThenRest(env: Env, body: string, i: nat, f: Frame, n: nat, m: Meaning, x: Denotation, y: Denotation)
    requires i < |body| && f.depth <= env.max && MeantStep(env, body, i, f) == StepMeaning(n, m)
    requires Matches(m, x, f) && Matches(Meant(env, body, i + n, f), y, f)
    ensures Matches(Meant(env, body, i, f), Append(x, y), f)
  {
    MeantUnfolds(env, body, i, f);
  }

  lemma MeantUnfolds(env: Env, body: string, i: nat, f: Frame)
    requires i < |body| && f.depth <= env.max
    ensures var step := MeantStep(env, body, i, f);
      Meant(env, body, i, f) == Both(step.meaning, Meant(env, body, i + step.consumed, f))
  {
  }

  lemma {:induction false} RefNode(lib: Library, page: Doc, env: Env, body: string, i: nat,
                                   name: string, default: Option<Doc>, rest: Doc, at: Site, f: Frame)
    requires InReach(lib, page, f.depth, KeysIn(Ref(name, default, rest), f.inTemplate))
    requires var t := Ref(name, default, rest);
      Serves(lib, env, page) && WellFormed(t) && i <= |body| && body[i..] == Print(t)
    requires f.depth <= env.max && CleanFrame(f) && (f.site.None? ==> at == LineCol(body, i))
    ensures Matches(Meant(env, body, i, f), Denote(lib, env.max, Ref(name, default, rest), at, f), f)
    decreases env.max - f.depth, Ref(name, default, rest), 2
  {
    hide Meant, MeantRef, FindTriple, Find, DenoteRef, MeantStep, Matches, CleanFrame, PrintRef, Advance;
    var written := "{{{" + PrintRef(name, default) + "}}}";
    Onward(body, i, written, Print(rest));
    DocMeant(lib, page, env, body, i + |written|, rest, Advance(at, written), f);
    RefFirst(lib, page, env, body, i, name, default, Print(rest), f);
    NodeThenRest(env, body, i, f, |written|, MeantStep(env, body, i, f).meaning,
                 if f.inTemplate then DenoteRef(lib, env.max, Trim(name), default, f) else Denotation(written, true),
                 Denote(lib, env.max, rest, Advance(at, written), f));
  }

  lemma {:induction false} RefFirst(lib: Library, page: Doc, env: Env, body: string, i: nat,
                                    name: string, default: Option<Doc>, rest: string, f: Frame)
    requires f.inTemplate ==> InReach(lib, page, f.depth, DefaultKeys(default))
    requires Serves(lib, env, page) && BraceFree(name) && '|' !in name && Closed(PrintRef(name, default))
    requires default.Some? ==> WellFormed(default.value)
    requires i < |body| && body[i..] == "{{{" + PrintRef(name, default) + "}}}" + rest
    requires f.depth <= env.max && CleanFrame(f)
    ensures var written := "{{{" + PrintRef(name, default) + "}}}"; var step := MeantStep(env, body, i, f);
      && step.consumed == |written|
      && Matches(step.meaning, if f.inTemplate then DenoteRef(lib, env.max, Trim(name), default, f)
                               else Denotation(written, true), f)
    decreases env.max - f.depth, default, 5
  {
    hide Meant, MeantRef, FindTriple, Find, DenoteRef, MeantStep;
    RefStep(env, body, i, PrintRef(name, default), rest, f);
    if f.inTemplate {
      RefMeant(lib, page, env, name, default, f);
    }
  }

  lemma {:induction false} RefMeant(lib: Library, page: Doc, env: Env, name: string, default: Option<Doc>, f: Frame)
    requires InReach(lib, page, f.depth, DefaultKeys(default))
    requires Serves(lib, env, page) && BraceFree(name) && '|' !in name
    requires default.Some? ==> WellFormed(default.value)
    requires f.depth <= env.max && CleanFrame(f) && f.inTemplate
    ensures Matches(MeantRef(env, PrintRef(name, default), f), DenoteRef(lib, env.max, Trim(name), default, f), f)
    decreases env.max - f.depth, default, 4
  {
    ReadRef(name, default);
    LookupIsClean(f.args, Trim(name));
    assert f.(inTemplate := true) == f;
    if Lookup(f.args, Trim(name)).None? {
      if default.Some? {
        assert Print(default.value)[0..] == Print(default.value);
        DocMeant(lib, page, env, Print(default.value), 0, default.value, Site(1, 1), f);
      } else {
        NameStands(name);
      }
    }
  }

  lemma {:induction false} CallNode(lib: Library, page: Doc, env: Env, body: string, i: nat,
                                    name: string, args: Args, rest: Doc, at: Site, f: Frame)
    requires InReach(lib, page, f.depth, KeysIn(Call(name, args, rest), f.inTemplate))
    requires var t := Call(name, args, rest);
      Serves(lib, env, page) && WellFormed(t) && i <= |body| && body[i..] == Print(t)
    requires f.depth <= env.max && CleanFrame(f) && (f.site.None? ==> at == LineCol(body, i))
    ensures Matches(Meant(env, body, i, f), Denote(lib, env.max, Call(name, args, rest), at, f), f)
    decreases env.max - f.depth, Call(name, args, rest), 2
  {
    hide Meant, FindTriple, Find, DenoteCall, CallMeaning, PrintArgs, MeantStep, Matches, CleanFrame, Trim, Advance,
         WellFormedArgs;
    var written := "{{" + (name + PrintArgs(args)) + "}}";
    var site := SiteAt(f, body, i);
    Onward(body, i, written, Print(rest));
    DocMeant(lib, page, env, body, i + |written|, rest, Advance(at, written), f);
    CallStep(env, body, i, name, args, Print(rest), f);
    CallMeant(lib, page, env, name, args, site, f);
    NodeThenRest(env, body, i, f, |written|, CallMeaning(env, name, args, site, f),
                 DenoteCall(lib, env.max, name, args, site, f),
                 Denote(lib, env.max, rest, Advance(at, written), f));
  }

  lemma ShownMatches(m: Message, site: Site, f: Frame)
    requires '{' !in MessageText(m)
    ensures Matches(Meaning(RenderError(m, site), Settled, 0), Shown(m, site), f)
  {
    ErrorKeeps(m, site);
  }

  lemma {:induction false} CallMeant(lib: Library, page: Doc, env: Env, name: string, args: Args, site: Site, f: Frame)
    requires InReach(lib, page, f.depth, AllArgKeys(args) + OwnKey(name))
    requires Serves(lib, env, page) && BraceFree(name) && WellFormedArgs(args) && f.depth <= env.max && CleanFrame(f)
    ensures Matches(CallMeaning(env, name, args, site, f), DenoteCall(lib, env.max, name, args, site, f), f)
    decreases env.max - f.depth, args, 4
  {
    hide FindTriple, Find, Lex, WellFormedArgs, Split, ArgTexts, FunctionName, RenderError, MessageText,
         MeantTransclude, DenoteTemplate;
    var trimmed := TrimStart(name);
    TrimIsSlice(name, '{');
    if trimmed != "" && trimmed[0] == '#' {
      FunctionMessage(trimmed);
      ShownMatches(ParserFunction(FunctionName(trimmed)), site, f);
    } else {
      TrimIsSlice(name, '{');
      TranscludeMeant(lib, page, env, Trim(name), args, site, f);
    }
  }

  lemma FunctionMessage(trimmed: string)
    requires '{' !in trimmed
    ensures '{' !in MessageText(ParserFunction(FunctionName(trimmed)))
  {
    FunctionNameKeeps(trimmed);
  }

  lemma KeyMessages(key: Key)
    requires '{' !in key.ns && '{' !in key.name
    ensures '{' !in MessageText(UnknownNamespace(key.ns)) && '{' !in MessageText(NotFound(key))
  {
  }

  lemma ChainMessage(ids: seq<string>)
    requires forall id | id in ids :: '{' !in id
    ensures '{' !in MessageText(Cycle(ShortNames(ids)))
  {
    ChainKeeps(ids);
  }

  lemma LimitMessage(max: nat)
    ensures '{' !in MessageText(Limit(max))
  {
    DecimalIsDigits(max, '{');
  }

  lemma {:induction false} TranscludeMeant(lib: Library, page: Doc, env: Env, name: string, args: Args, site: Site, f: Frame)
    requires InReach(lib, page, f.depth, AllArgKeys(args) + {ParseAddress(name)})
    requires Serves(lib, env, page) && '{' !in name && WellFormedArgs(args) && f.depth <= env.max && CleanFrame(f)
    ensures Matches(MeantTransclude(env, name, ArgTexts(args), site, f),
                    DenoteTemplate(lib, env.max, name, args, site, f), f)
    decreases env.max - f.depth, args, 3
  {
    hide RenderError, MessageText, ParseAddress, WellFormedArgs, AllArgKeys, LevelKeys, WellFormed;
    hide Meant, Denote, MeantArgs, DenoteArgs, ArgTexts, Matches, ShortNames;
    var key := ParseAddress(name);
    LevelsGrow(lib, page, f.depth, env.max);
    assert ServesKey(lib, env.resolver, key);
    AddressKeeps(name);
    KeyMessages(key);
    if key !in lib.templates {
      ShownMatches(if ':' in name && key.ns !in lib.known then UnknownNamespace(key.ns) else NotFound(key), site, f);
    } else {
      var template := lib.templates[key];
      if template.id in f.stack {
        ChainMessage(f.stack + [template.id]);
        ShownMatches(Cycle(ShortNames(f.stack + [template.id])), site, f);
      } else if f.depth == env.max {
        LimitMessage(env.max);
        ShownMatches(Limit(env.max), site, f);
      } else {
        LevelsDescend(lib, page, f.depth, key);
        EnteredMeant(lib, page, env, key, args, site, f);
      }
    }
  }

  // Arguments and body of a template that is entered.
  lemma {:induction false} EnteredMeant(lib: Library, page: Doc, env: Env, key: Key, args: Args, site: Site, f: Frame)
    requires key in lib.templates && key in env.resolver.sources && ServesKey(lib, env.resolver, key)
    requires InReach(lib, page, f.depth + 1, AllArgKeys(args) + AllKeys(lib.templates[key].body))
    requires Serves(lib, env, page) && WellFormedArgs(args) && f.depth < env.max && CleanFrame(f)
    ensures var template := lib.templates[key];
      var bound := MeantArgs(env, ArgTexts(args), 1, f, site);
      var inside := Inside(Meant(env, env.resolver.sources[key].body, 0, BodyFrame(f, bound.args, template.id, site)));
      var scope := DenoteArgs(lib, env.max, args, 1, f, site);
      var body := Denote(lib, env.max, template.body, Site(1, 1), BodyFrame(f, scope.args, template.id, site));
      Matches(Meaning(inside.text, First(bound.status, inside.status), Max(bound.need, inside.need)),
              Denotation(body.text, scope.complete && body.complete), f)
    decreases env.max - f.depth, args, 2
  {
    hide Meant, Denote, MeantArgs, DenoteArgs, ArgTexts, WellFormedArgs, AllArgKeys, LevelKeys, Serves;
    ArgsMeant(lib, page, env, args, 1, f, site);
    var template := lib.templates[key];
    var scope := DenoteArgs(lib, env.max, args, 1, f, site);
    if scope.complete {
      BodyMeant(lib, page, env, template.body, BodyFrame(f, scope.args, template.id, site));
    }
  }

  lemma {:induction false} BodyMeant(lib: Library, page: Doc, env: Env, t: Doc, f: Frame)
    requires InReach(lib, page, f.depth, AllKeys(t))
    requires Serves(lib, env, page) && WellFormed(t) && f.depth <= env.max && CleanFrame(f) && f.inTemplate
    ensures Matches(Meant(env, Print(t), 0, f), Denote(lib, env.max, t, Site(1, 1), f), f)
    decreases env.max - f.depth, t, 4
  {
    assert Print(t)[0..] == Print(t);
    DocMeant(lib, page, env, Print(t), 0, t, Site(1, 1), f);
  }

  lemma NoArgsMeant(env: Env, next: nat, f: Frame, site: Site)
    requires f.depth < env.max
    ensures MeantArgs(env, [], next, f, site) == ArgsMeaning([], Settled, 0)
  {
  }

  lemma OneMoreArg(env: Env, text: string, texts: seq<string>, next: nat, f: Frame, site: Site)
    requires f.depth < env.max
    ensures var (name, value, next') := ParseArgument(text, next);
      var m := Inside(Meant(env, value, 0, ArgFrame(f, site)));
      var more := MeantArgs(env, texts, next', f, site);
      MeantArgs(env, [text] + texts, next, f, site) ==
      ArgsMeaning([Arg(name, Trim(m.text))] + more.args, First(m.status, more.status), Max(m.need, more.need))
  {
    hide Meant, ParseArgument, Trim;
    assert ([text] + texts)[0] == text && ([text] + texts)[1..] == texts;
  }

  lemma {:induction false} ArgsMeant(lib: Library, page: Doc, env: Env, args: Args, next: nat, f: Frame, site: Site)
    requires InReach(lib, page, f.depth + 1, AllArgKeys(args))
    requires Serves(lib, env, page) && WellFormedArgs(args) && f.depth < env.max && CleanFrame(f)
    ensures var m := MeantArgs(env, ArgTexts(args), next, f, site);
      var scope := DenoteArgs(lib, env.max, args, next, f, site);
      && (scope.complete ==> m.status.Settled? && m.args == scope.args && forall a | a in scope.args :: '{' !in a.value)
      && (!scope.complete ==> m.status.Stuck?)
    decreases env.max - f.depth, args, 0
  {
    hide Meant, Denote, LevelKeys, Serves, Find, TopFree, ParseArgument, MeantArgs, Trim;
    match args
    case NoArgs => NoArgsMeant(env, next, f, site);
    case Positional(value, rest) =>
      ReadPositional(value, next);
      OneMoreArg(env, Print(value), ArgTexts(rest), next, f, site);
      BodyMeant(lib, page, env, value, ArgFrame(f, site));
      ArgsMeant(lib, page, env, rest, next + 1, f, site);
      TrimIsSlice(Denote(lib, env.max, value, Site(1, 1), ArgFrame(f, site)).text, '{');
    case Named(key, value, rest) =>
      ReadNamed(key, Print(value), next);
      OneMoreArg(env, key + "=" + Print(value), ArgTexts(rest), next, f, site);
      BodyMeant(lib, page, env, value, ArgFrame(f, site));
      ArgsMeant(lib, page, env, rest, next, f, site);
      TrimIsSlice(Denote(lib, env.max, value, Site(1, 1), ArgFrame(f, site)).text, '{');
  }

  // For every well-formed page whose reachable templates are well-formed, and
  // every depth cap: the expansion of the printed page is its meaning if every
  // evaluated reference is bound or has a default, and otherwise it never returns.
  lemma ExpansionIsMeaning(lib: Library, env: Env, page: Doc)
    requires Serves(lib, env, page) && WellFormed(page)
    ensures var d := DenotePage(lib, env.max, page);
      && (d.complete ==> Returns(env, Print(page), d.text))
      && (!d.complete ==> Diverges(env, Print(page)))
  {
    assert Print(page)[0..] == Print(page);
    DocMeant(lib, page, env, Print(page), 0, page, Site(1, 1), TOP);
    PageAgrees(env, Print(page));
  }
}
