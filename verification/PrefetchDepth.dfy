// The walk's depth bound is tight: for every depth cap there is a page that one
// level less would render differently.
module PrefetchDepth {
  import opened Text
  import opened Wikitext
  import opened Expander
  import opened Semantics
  import opened Prefetch
  import opened PrefetchTheorem
  import opened PrefetchLimits
  import opened SmallPages

  // A chain of templates `a`, `aa`, `aaa`, ..., each calling the next.
  function As(k: nat): (s: string)
    ensures |s| == k && forall c | c in s :: c == 'a'
  {
    if k == 0 then "" else As(k - 1) + "a"
  }

  function Names(n: nat): (s: set<string>)
    ensures forall k | 1 <= k <= n :: As(k) in s
    ensures forall name | name in s :: 1 <= |name| <= n && name == As(|name|)
  {
    if n == 0 then {} else Names(n - 1) + {As(n)}
  }

  function Link(name: string): Doc {
    Call(name + "a", NoArgs, End)
  }

  function LinkTemplate(name: string): Template {
    Template(DEFAULT_NAMESPACE + ":" + name, name, Link(name))
  }

  ghost function ChainLibrary(n: nat): Library {
    Library(imap key: Key | key.ns == DEFAULT_NAMESPACE && key.name in Names(n) :: LinkTemplate(key.name),
            iset{DEFAULT_NAMESPACE})
  }

  function ChainStorage(n: nat): Storage {
    Storage(map[DEFAULT_NAMESPACE := 0],
            map name | name in Names(n) :: (0, name) := Page(Some(name)),
            map name | name in Names(n) :: name := Print(Link(name)))
  }

  function ChainPage(): Doc {
    Call("a", NoArgs, End)
  }

  lemma AsIsSimple(k: nat)
    requires k > 0
    ensures SimpleName(As(k)) && As(k) + "a" == As(k + 1)
  {
  }

  lemma LinkReads(k: nat)
    requires k > 0
    ensures var t := Call(As(k), NoArgs, End);
      WellFormed(t) && AllKeys(t) == PageKeys(t) == CallKeys(t) == {TemplateKey(As(k))}
  {
    AsIsSimple(k);
    SimpleNameReads(As(k));
  }

  lemma PageIsFirst()
    ensures ChainPage() == Call(As(1), NoArgs, End)
  {
    assert As(1) == As(0) + "a" == "a";
  }

  lemma {:induction false} ChainLevels(n: nat, m: nat)
    ensures forall key | key in LevelKeys(ChainLibrary(n), ChainPage(), m) :: key.ns == DEFAULT_NAMESPACE
    decreases m
  {
    hide WellFormed, As, AllKeys, PageKeys, CallKeys;
    PageIsFirst();
    LinkReads(1);
    if m > 0 {
      ChainLevels(n, m - 1);
      var lib := ChainLibrary(n);
      forall k, c | k in LevelKeys(lib, ChainPage(), m - 1) && k in lib.templates && c in AllKeys(lib.templates[k].body)
        ensures c.ns == DEFAULT_NAMESPACE
      {
        AsIsSimple(|k.name|);
        LinkReads(|k.name| + 1);
      }
    }
  }

  lemma ChainDescribed(n: nat, key: Key)
    requires key.ns == DEFAULT_NAMESPACE
    ensures Describes(ChainLibrary(n), ChainStorage(n), key)
  {
    hide WellFormed, As, Print, ValidSlug, Names;
    TemplateIsSlug();
    if key.name in Names(n) {
      NamesAreAs(n, key.name);
      AsIsSimple(|key.name|);
      LinkReads(|key.name| + 1);
      IdIsClean(key.name);
    }
  }

  lemma NamesAreAs(n: nat, name: string)
    requires name in Names(n)
    ensures 1 <= |name| <= n && name == As(|name|) && forall c | c in name :: c == 'a'
  {
    hide Names;
  }

  lemma IdIsClean(name: string)
    requires forall c | c in name :: c == 'a'
    ensures '{' !in DEFAULT_NAMESPACE + ":" + name
  {
  }

  lemma ChainStored(n: nat, max: nat)
    ensures Stores(ChainLibrary(n), ChainStorage(n), ChainPage(), max)
  {
    hide LevelKeys, Describes;
    ChainLevels(n, max);
    forall key | key in LevelKeys(ChainLibrary(n), ChainPage(), max)
      ensures Describes(ChainLibrary(n), ChainStorage(n), key)
    {
      ChainDescribed(n, key);
    }
  }

  function Keys(m: nat): (s: set<Key>)
    ensures forall key | key in s :: key.ns == DEFAULT_NAMESPACE && 1 <= |key.name| <= m && key.name == As(|key.name|)
    ensures forall k | 1 <= k <= m :: TemplateKey(As(k)) in s
  {
    if m == 0 then {} else Keys(m - 1) + {TemplateKey(As(m))}
  }

  // Each template of the chain leads to the next.
  lemma NextKeys(n: nat, k: nat)
    requires 1 <= k <= n
    ensures BodyKeys(ChainStorage(n), {TemplateKey(As(k))}) == {TemplateKey(As(k + 1))}
  {
    hide ScanKeys, Fetch, As, WellFormed, CallKeys, AllKeys, Print, Names, BodyKeys, ChainStorage;
    var key := TemplateKey(As(k));
    ChainDescribed(n, key);
    AsIsSimple(k);
    LinkReads(k + 1);
    ScanDoc(Link(As(k)));
    KeyInChain(n, k);
    BodyKeysOfOne(ChainStorage(n), key);
  }

  lemma KeyInChain(n: nat, k: nat)
    requires 1 <= k <= n
    ensures TemplateKey(As(k)) in ChainLibrary(n).templates
    ensures ChainLibrary(n).templates[TemplateKey(As(k))] == LinkTemplate(As(k))
  {
    hide As;
  }

  lemma BodyKeysOfOne(st: Storage, key: Key)
    requires Fetch(st, key).Some?
    ensures BodyKeys(st, {key}) == ScanKeys(Fetch(st, key).value.body)
  {
    hide Fetch, ScanKeys;
  }

  lemma {:induction false} KeysLeadOn(n: nat, m: nat)
    requires m <= n
    ensures BodyKeys(ChainStorage(n), Keys(m)) + {TemplateKey(As(1))} == Keys(m + 1)
    decreases m
  {
    hide BodyKeys, As;
    if m == 0 {
      NoBodies(ChainStorage(n));
      assert Keys(1) == Keys(0) + {TemplateKey(As(1))};
    } else {
      KeysLeadOn(n, m - 1);
      NextKeys(n, m);
      BodyKeysSplit(ChainStorage(n), Keys(m - 1), {TemplateKey(As(m))});
    }
  }

  lemma {:induction false} ChainReached(n: nat, m: nat)
    requires m <= n + 1
    ensures Reach(ChainStorage(n), Print(ChainPage()), m) == Keys(m)
    decreases m
  {
    hide BodyKeys, As, ScanKeys, Keys, WellFormed, CallKeys, AllKeys;
    if m == 0 {
      assert Keys(0) == {} by { NoKeys(); }
    } else {
      ChainReached(n, m - 1);
      KeysLeadOn(n, m - 1);
      PageIsFirst();
      LinkReads(1);
      ScanDoc(ChainPage());
    }
  }

  lemma NoKeys()
    ensures Keys(0) == {}
  {
  }

  // ---- What the chain means

  ghost predicate HasChain(lib: Library, n: nat) {
    forall k | 1 <= k <= n :: TemplateKey(As(k)) in lib.templates && lib.templates[TemplateKey(As(k))] == LinkTemplate(As(k))
  }

  predicate ShortIds(stack: seq<string>, n: nat) {
    forall id | id in stack :: |id| <= 9 + n
  }

  function LastMessage(lib: Library, max: nat): Message {
    if TemplateKey(As(max + 1)) in lib.templates then Limit(max) else NotFound(TemplateKey(As(max + 1)))
  }

  ghost predicate MaybeLink(lib: Library, k: nat) {
    TemplateKey(As(k)) in lib.templates ==> lib.templates[TemplateKey(As(k))] == LinkTemplate(As(k))
  }

  // From depth `d` on, the chain ends at depth `max` with what the lookup there gives.
  lemma {:induction false} ChainMeans(lib: Library, max: nat, d: nat, f: Frame, site: Site)
    requires HasChain(lib, max) && MaybeLink(lib, max + 1) && d <= max && f.depth == d && ShortIds(f.stack, d)
    ensures DenoteTemplate(lib, max, As(d + 1), NoArgs, site, f)
         == Denotation(RenderError(LastMessage(lib, max), site), true)
    decreases max - d
  {
    hide As, RenderError, Denote;
    AsIsSimple(d + 1);
    SimpleNameReads(As(d + 1));
    var id := DEFAULT_NAMESPACE + ":" + As(d + 1);
    assert |id| == 10 + d;
    assert id !in f.stack;
    if d < max {
      ChainMeans(lib, max, d + 1, BodyFrame(f, [], id, site), site);
      ChainStep(lib, max, d, f, site);
    }
  }

  lemma ChainStep(lib: Library, max: nat, d: nat, f: Frame, site: Site)
    requires HasChain(lib, max) && d < max && f.depth == d && ShortIds(f.stack, d)
    ensures var id := DEFAULT_NAMESPACE + ":" + As(d + 1);
      DenoteTemplate(lib, max, As(d + 1), NoArgs, site, f)
      == DenoteTemplate(lib, max, As(d + 2), NoArgs, site, BodyFrame(f, [], id, site))
  {
    hide As, RenderError, Denote;
    AsIsSimple(d + 1);
    AsIsSimple(d + 2);
    SimpleNameReads(As(d + 1));
    SimpleNameReads(As(d + 2));
    var id := DEFAULT_NAMESPACE + ":" + As(d + 1);
    assert |id| == 10 + d;
    assert id !in f.stack;
    var g := BodyFrame(f, [], id, site);
    LastCallMeans(lib, max, As(d + 2), Site(1, 1), g);
    assert DenoteArgs(lib, max, NoArgs, 1, f, site) == Scope([], true);
    var next := DenoteTemplate(lib, max, As(d + 2), NoArgs, site, g);
    assert next.text + "" == next.text;
  }

  lemma ChainPageMeans(lib: Library, max: nat)
    requires HasChain(lib, max) && MaybeLink(lib, max + 1)
    ensures DenotePage(lib, max, ChainPage()) == Denotation(RenderError(LastMessage(lib, max), Site(1, 1)), true)
  {
    hide As, RenderError, Denote, DenoteTemplate;
    PageIsFirst();
    AsIsSimple(1);
    SimpleNameReads(As(1));
    ChainMeans(lib, max, 0, TOP, Site(1, 1));
    LastCallMeans(lib, max, As(1), Site(1, 1), TOP);
    var e := RenderError(LastMessage(lib, max), Site(1, 1));
    assert e + "" == e;
  }

  // For every depth cap `max` the chain page runs into the limit.
  lemma ChainHitsTheLimit(max: nat, text: string)
    ensures Returns(Env(Direct(ChainStorage(max + 1)), max), Print(ChainPage()), text)
        <==> text == RenderError(Limit(max), Site(1, 1))
  {
    hide Returns, Reach, LevelKeys, Fetch, Denote, WellFormed, As, RenderError, Keys, Names;
    var lib, st, page := ChainLibrary(max + 1), ChainStorage(max + 1), ChainPage();
    PageIsFirst();
    LinkReads(1);
    ChainStored(max + 1, max);
    DirectServes(lib, st, page, max);
    ChainPageMeans(lib, max);
    ReturnsOnlyItsMeaning(lib, Env(Direct(st), max), page, text);
  }

  // A walk of `max` levels, one less than the code's, makes the renderer report
  // the template that the limit stops at as missing, although storage has it.
  lemma OneLevelLessIsTooFew(max: nat, text: string)
    ensures var st := ChainStorage(max + 1);
      Returns(Env(AsResolver(PrefetchedWithin(st, Print(ChainPage()), max)), max), Print(ChainPage()), text)
      <==> text == RenderError(NotFound(TemplateKey(As(max + 1))), Site(1, 1))
    ensures RenderError(NotFound(TemplateKey(As(max + 1))), Site(1, 1)) != RenderError(Limit(max), Site(1, 1))
    ensures Fetch(ChainStorage(max + 1), TemplateKey(As(max + 1))).Some?
  {
    hide Returns, Reach, LevelKeys, Fetch, Denote, WellFormed, As, RenderError, Keys, Names;
    var n := max + 1;
    var lib, st, page := ChainLibrary(n), ChainStorage(n), ChainPage();
    PageIsFirst();
    LinkReads(1);
    ChainStored(n, max);
    CutChain(n, max);
    ChainPageMeans(CutTo(lib, PrefetchedWithin(st, Print(page), max)), max);
    WalkIsRestriction(lib, st, page, max, max, text);
    LimitIsNotMissing(max);
    ChainDescribed(n, TemplateKey(As(n)));
  }

  lemma LimitIsNotMissing(max: nat)
    ensures RenderError(NotFound(TemplateKey(As(max + 1))), Site(1, 1)) != RenderError(Limit(max), Site(1, 1))
  {
    var missing := NotFound(TemplateKey(As(max + 1)));
    assert MessageText(missing)[0] == 't' && MessageText(Limit(max))[0] == 'r';
    ErrorsDiffer(missing, Limit(max), Site(1, 1));
  }

  lemma CutChain(n: nat, max: nat)
    requires n == max + 1
    ensures var st := ChainStorage(n); var cut := CutTo(ChainLibrary(n), PrefetchedWithin(st, Print(ChainPage()), max));
      HasChain(cut, max) && TemplateKey(As(n)) !in cut.templates
  {
    hide Reach, Fetch, As, Print;
    ChainReached(n, max);
    forall k | 1 <= k <= n ensures Fetch(ChainStorage(n), TemplateKey(As(k))).Some? {
      ChainDescribed(n, TemplateKey(As(k)));
    }
    assert |As(n)| == n;
  }
}
