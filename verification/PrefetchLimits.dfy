// Where the prefetch falls short: a call written only inside a default is not
// found, and a walk of one level less would be too short for every depth cap.
module PrefetchLimits {
  import opened Text
  import opened Scanner
  import opened Wikitext
  import opened Expander
  import opened Semantics
  import opened Transclusion
  import opened Prefetch
  import opened PrefetchTheorem
  import opened SmallPages

  lemma TemplateIsSlug()
    ensures ValidSlug(DEFAULT_NAMESPACE)
  {
    assert |DEFAULT_NAMESPACE| == 8;
    forall c | c in DEFAULT_NAMESPACE ensures SlugChar(c) {
    }
  }

  lemma ErrorIsLong(m: Message, site: Site)
    ensures |RenderError(m, site)| > 20
  {
    hide EscapeHtml, MessageText, Decimal;
  }

  lemma ErrorsDiffer(a: Message, b: Message, site: Site)
    requires MessageText(a) != "" && MessageText(b) != ""
    requires EscapeChar(MessageText(a)[0])[0] != EscapeChar(MessageText(b)[0])[0]
    ensures RenderError(a, site) != RenderError(b, site)
  {
    hide MessageText, Decimal, EscapeChar;
    var head := "<span class=\"template-error\" data-line=\"" + Decimal(site.line) + "\" data-col=\"" + Decimal(site.col)
                + "\">[template error: ";
    EscapeStarts(MessageText(a));
    EscapeStarts(MessageText(b));
    assert RenderError(a, site)[|head|] == EscapeHtml(MessageText(a))[0];
    assert RenderError(b, site)[|head|] == EscapeHtml(MessageText(b))[0];
  }

  lemma EscapeStarts(s: string)
    requires s != ""
    ensures EscapeHtml(s) != "" && EscapeHtml(s)[0] == EscapeChar(s[0])[0]
  {
  }

  // ---- A call inside a default

  const CALLER := "W"
  const CALLEE := "K"

  // `{{K}} `
  function CallerDefault(): Doc {
    Call(CALLEE, NoArgs, Plain(" ", End))
  }

  // `{{{p|{{K}} }}}`
  function CallerBody(): Doc {
    Ref("p", Some(CallerDefault()), End)
  }

  function TwoTemplates(name: string): Template {
    if name == CALLER then Template("Template:W", "w", CallerBody()) else Template("Template:K", "k", Plain("x", End))
  }

  ghost function TwoLibrary(): Library {
    Library(imap key | key in {TemplateKey(CALLER), TemplateKey(CALLEE)} :: TwoTemplates(key.name), iset{DEFAULT_NAMESPACE})
  }

  function TwoStorage(): Storage {
    Storage(map[DEFAULT_NAMESPACE := 0],
            map[(0, CALLER) := Page(Some("w")), (0, CALLEE) := Page(Some("k"))],
            map["w" := Print(CallerBody()), "k" := Print(Plain("x", End))])
  }

  function TwoPage(): Doc {
    Call(CALLER, NoArgs, End)
  }

  lemma {:induction false} ClosesAt(s: string, k: nat)
    requires k + 3 <= |s| && Thrice(s[k..], '}') && forall j | 0 <= j < k :: !Thrice(s[j..], '}')
    ensures FindTriple(s) == Some(k)
    decreases k
  {
    assert s[0..] == s;
    if k > 0 {
      assert s[1..][k - 1..] == s[k..];
      assert forall j | 0 <= j < k - 1 :: s[1..][j..] == s[j + 1..];
      ClosesAt(s[1..], k - 1);
    }
  }

  lemma CallerBodyIsWellFormed()
    ensures WellFormed(CallerBody()) && WellFormed(TwoPage())
    ensures AllKeys(CallerBody()) == {TemplateKey(CALLEE)} && CallKeys(CallerBody()) == {}
    ensures PageKeys(TwoPage()) == CallKeys(TwoPage()) == {TemplateKey(CALLER)}
  {
    SimpleNameReads(CALLER);
    SimpleNameReads(CALLEE);
    DefaultSpelled();
    CallerCloses();
    hide FindTriple, Print, PrintRef;
    SpaceIsPlain();
  }

  lemma SpaceIsPlain()
    ensures WellFormed(Plain(" ", End)) && AllKeys(Plain(" ", End)) == {}
  {
  }

  lemma DefaultSpelled()
    ensures Print(CallerDefault()) == "{{K}} " && PrintRef("p", Some(CallerDefault())) == "p|{{K}} "
  {
    assert Print(Plain(" ", End)) == " ";
    assert CALLEE + PrintArgs(NoArgs) == "K";
    assert "{{" + "K" + "}}" + " " == "{{K}} ";
    hide Print;
    assert "p" + "|" + "{{K}} " == "p|{{K}} ";
  }

  lemma CallerCloses()
    ensures var inner := PrintRef("p", Some(CallerDefault())); FindTriple(inner + "}}}") == Some(|inner|)
  {
    hide FindTriple, Print, PrintRef;
    DefaultSpelled();
    var s := "p|{{K}} }}}";
    assert "p|{{K}} " + "}}}" == s;
    ClosesAt(s, 8);
  }

  lemma {:induction false} TwoLevels(n: nat)
    ensures LevelKeys(TwoLibrary(), TwoPage(), n) <= {TemplateKey(CALLER), TemplateKey(CALLEE)}
  {
    CallerBodyIsWellFormed();
    if n > 0 {
      TwoLevels(n - 1);
      assert AllKeys(Plain("x", End)) == {};
    }
  }

  lemma CallerIsStored()
    ensures Fetch(TwoStorage(), TemplateKey(CALLER)) == Some(Stored(TwoTemplates(CALLER)))
    ensures ResolveNamespace(TwoStorage(), DEFAULT_NAMESPACE).Some?
  {
    hide Print, ValidSlug;
    TemplateIsSlug();
    assert DEFAULT_NAMESPACE + ":" + CALLER == "Template:W";
    NamesDiffer();
  }

  lemma CalleeIsStored()
    ensures Fetch(TwoStorage(), TemplateKey(CALLEE)) == Some(Stored(TwoTemplates(CALLEE)))
  {
    hide Print, ValidSlug;
    TemplateIsSlug();
    assert DEFAULT_NAMESPACE + ":" + CALLEE == "Template:K";
    NamesDiffer();
  }

  lemma NamesDiffer()
    ensures CALLER != CALLEE && "w" != "k"
  {
    assert CALLER[0] != CALLEE[0] && "w"[0] != "k"[0];
  }

  lemma TwoStored(max: nat)
    ensures Stores(TwoLibrary(), TwoStorage(), TwoPage(), max)
  {
    hide Fetch, LevelKeys, WellFormed, ResolveNamespace, TwoStorage;
    TwoLevels(max);
    CallerIsStored();
    CalleeIsStored();
    CallerBodyIsWellFormed();
    PlainIsWellFormed("x");
    NamesDiffer();
    var lib, st := TwoLibrary(), TwoStorage();
    assert '{' !in "Template:W" && '{' !in "Template:K";
    assert Describes(lib, st, TemplateKey(CALLER));
    assert Describes(lib, st, TemplateKey(CALLEE));
  }

  lemma PlainIsWellFormed(text: string)
    requires BraceFree(text)
    ensures WellFormed(Plain(text, End))
  {
  }

  lemma {:induction false} TwoReached(n: nat)
    ensures Reach(TwoStorage(), Print(TwoPage()), n + 1) == {TemplateKey(CALLER)}
  {
    hide Fetch, ScanKeys, WellFormed;
    TwoStored(0);
    CallerBodyIsWellFormed();
    ScanDoc(TwoPage());
    ScanDoc(CallerBody());
    var st := TwoStorage();
    var key := TemplateKey(CALLER);
    assert key in LevelKeys(TwoLibrary(), TwoPage(), 0);
    assert Describes(TwoLibrary(), st, key);
    assert Fetch(st, key).value.body == Print(CallerBody());
    assert BodyKeys(st, {key}) == {};
    if n > 0 {
      TwoReached(n - 1);
    } else {
      assert Reach(st, Print(TwoPage()), 0) == {};
    }
  }

  // What the page shows: the call in the default, and a space.
  lemma CallerMeans(lib: Library, max: nat)
    requires max >= 2 && TemplateKey(CALLER) in lib.templates
    requires lib.templates[TemplateKey(CALLER)] == TwoTemplates(CALLER)
    ensures var d := DenotePage(lib, max, TwoPage());
      var k := DenoteTemplate(lib, max, CALLEE, NoArgs, Site(1, 1), BodyFrame(TOP, [], "Template:W", Site(1, 1)));
      d.text == k.text + " " && d.complete == k.complete
  {
    SimpleNameReads(CALLER);
    SimpleNameReads(CALLEE);
    var f := BodyFrame(TOP, [], "Template:W", Site(1, 1));
    var k := DenoteTemplate(lib, max, CALLEE, NoArgs, Site(1, 1), f);
    var inside := Call(CALLEE, NoArgs, Plain(" ", End));
    NodesMean(lib, max, f);
    assert Denote(lib, max, inside, Site(1, 1), f) == Append(k, Denotation(" ", true));
    hide DenoteTemplate;
    assert DenoteRef(lib, max, Trim("p"), Some(inside), f) == Append(k, Denotation(" ", true));
    var body := Denote(lib, max, CallerBody(), Site(1, 1), f);
    LastRefMeans(lib, max, "p", Some(inside), f);
    assert body == Append(Append(k, Denotation(" ", true)), Denotation("", true));
    PageMeans(lib, max, body);
    assert k.text + " " + "" + "" == k.text + " ";
  }

  lemma PageMeans(lib: Library, max: nat, body: Denotation)
    requires max >= 2 && TemplateKey(CALLER) in lib.templates
    requires lib.templates[TemplateKey(CALLER)] == TwoTemplates(CALLER)
    requires body == Denote(lib, max, CallerBody(), Site(1, 1), BodyFrame(TOP, [], "Template:W", Site(1, 1)))
    ensures DenotePage(lib, max, TwoPage()) == Append(body, Denotation("", true))
  {
    hide CallerBody;
    SimpleNameReads(CALLER);
    NodesMean(lib, max, TOP);
    assert DenoteArgs(lib, max, NoArgs, 1, TOP, Site(1, 1)) == Scope([], true);
    assert DenoteTemplate(lib, max, CALLER, NoArgs, Site(1, 1), TOP) == body;
    assert DenoteCall(lib, max, CALLER, NoArgs, Site(1, 1), TOP) == body;
    LastCallMeans(lib, max, CALLER, Site(1, 1), TOP);
  }

  // `{{W}}`, where W's body calls K only in a default: storage has K, the
  // renderer is told that it does not exist.
  lemma CallInDefaultIsMissed(max: nat)
    requires max >= 2
    ensures Returns(Env(Direct(TwoStorage()), max), Print(TwoPage()), "x ")
    ensures !Returns(Env(AsResolver(Prefetched(TwoStorage(), Print(TwoPage()), max)), max), Print(TwoPage()), "x ")
    ensures !MissesNothing(TwoLibrary(), TwoPage(), max)
  {
    hide Returns, Print, Direct, AsResolver, TwoStorage, MissesNothing;
    StorageHasIt(max);
    PrefetchMissesIt(max);
    WalkMissesIt(max);
  }

  // The closure that follows defaults has K, the walk has not.
  lemma WalkMissesIt(max: nat)
    requires max >= 1
    ensures !MissesNothing(TwoLibrary(), TwoPage(), max)
  {
    hide WellFormed, ScanKeys, Reach, Fetch, AllKeys, PageKeys, CallKeys, WalkKeys, Print, LevelKeys, MeetsNamespace;
    var lib, page := TwoLibrary(), TwoPage();
    CallerBodyIsWellFormed();
    TwoStored(max);
    WalkIsReach(lib, TwoStorage(), page, max, max + 1);
    TwoReached(max);
    LevelZero(lib, page);
    LevelsGrow(lib, page, 0, 1);
    LevelsDescend(lib, page, 0, TemplateKey(CALLER));
    LevelsGrow(lib, page, 1, max);
    NamesDiffer();
    assert TemplateKey(CALLEE) in LevelKeys(lib, page, max) && TemplateKey(CALLEE) in lib.templates;
  }

  lemma StorageHasIt(max: nat)
    requires max >= 2
    ensures Returns(Env(Direct(TwoStorage()), max), Print(TwoPage()), "x ")
  {
    hide Returns, Reach, LevelKeys, Fetch, Denote, WellFormed, DenoteTemplate;
    var lib, st, page := TwoLibrary(), TwoStorage(), TwoPage();
    CallerBodyIsWellFormed();
    TwoStored(max);
    SimpleNameReads(CALLEE);
    DirectServes(lib, st, page, max);
    CallerMeans(lib, max);
    CalleeMeans(lib, max, BodyFrame(TOP, [], "Template:W", Site(1, 1)));
    ReturnsOnlyItsMeaning(lib, Env(Direct(st), max), page, "x ");
  }

  lemma PrefetchMissesIt(max: nat)
    requires max >= 2
    ensures !Returns(Env(AsResolver(Prefetched(TwoStorage(), Print(TwoPage()), max)), max), Print(TwoPage()), "x ")
  {
    hide Returns, Reach, LevelKeys, Fetch, Denote, WellFormed, DenoteTemplate, Print, TwoStorage, TwoPage, ResolveNamespace;
    var lib, st, page := TwoLibrary(), TwoStorage(), TwoPage();
    CallerBodyIsWellFormed();
    TwoStored(max);
    var p := Prefetched(st, Print(page), max);
    TwoReached(max);
    CallerIsStored();
    NamesDiffer();
    var cut := CutTo(lib, p);
    CallerMeans(cut, max);
    CalleeMissing(cut, max, BodyFrame(TOP, [], "Template:W", Site(1, 1)));
    WalkIsRestriction(lib, st, page, max, max + 1, "x ");
  }

  lemma CalleeMeans(lib: Library, max: nat, f: Frame)
    requires f.depth < max && f.stack == ["Template:W"]
    requires TemplateKey(CALLEE) in lib.templates && lib.templates[TemplateKey(CALLEE)] == TwoTemplates(CALLEE)
    ensures DenoteTemplate(lib, max, CALLEE, NoArgs, Site(1, 1), f) == Denotation("x", true)
  {
    SimpleNameReads(CALLEE);
    NamesDiffer();
    assert "Template:W" != "Template:K" by { assert "Template:W"[9] != "Template:K"[9]; }
    var g := BodyFrame(f, [], "Template:K", Site(1, 1));
    assert Denote(lib, max, Plain("x", End), Site(1, 1), g) == Append(Denotation("x", true), Denotation("", true));
    assert "x" + "" == "x";
    assert DenoteArgs(lib, max, NoArgs, 1, f, Site(1, 1)) == Scope([], true);
  }

  lemma CalleeMissing(lib: Library, max: nat, f: Frame)
    requires f.depth <= max && TemplateKey(CALLEE) !in lib.templates
    ensures |DenoteTemplate(lib, max, CALLEE, NoArgs, Site(1, 1), f).text| > 20
  {
    SimpleNameReads(CALLEE);
    ErrorIsLong(NotFound(TemplateKey(CALLEE)), Site(1, 1));
  }
}
