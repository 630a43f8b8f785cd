// Rendering from the prefetched templates is rendering from storage.
module PrefetchTheorem {
  import opened Text
  import opened Scanner
  import opened Wikitext
  import opened Expander
  import opened Fuel
  import opened Semantics
  import opened Transclusion
  import opened Prefetch

  // The library describes what storage holds under `key`.
  predicate Describes(lib: Library, st: Storage, key: Key) {
    && Fetch(st, key) == (if key in lib.templates then Some(Stored(lib.templates[key])) else None)
    && (key.ns in lib.known <==> ResolveNamespace(st, key.ns).Some?)
    && (key in lib.templates ==> WellFormed(lib.templates[key].body) && '{' !in lib.templates[key].id)
  }

  // Everything the page can reach in storage is well-formed.
  predicate Stores(lib: Library, st: Storage, page: Doc, max: nat) {
    forall key | key in LevelKeys(lib, page, max) :: Describes(lib, st, key)
  }

  // ---- What the walk meets, read off the trees

  // Keys met within `n` levels when defaults are not followed.
  function WalkKeys(lib: Library, page: Doc, n: nat): set<Key> {
    if n == 0 then {} else CallKeys(page) + CalledFrom(lib, WalkKeys(lib, page, n - 1))
  }

  function CalledFrom(lib: Library, keys: set<Key>): set<Key> {
    set k, c | k in keys && k in lib.templates && c in CallKeys(lib.templates[k].body) :: c
  }

  lemma {:induction false} CallsAreKeys(t: Doc)
    ensures CallKeys(t) <= AllKeys(t) && CallKeys(t) <= PageKeys(t)
    decreases t, 1
  {
    match t
    case End =>
    case Plain(_, rest) => CallsAreKeys(rest);
    case Ref(_, _, rest) => CallsAreKeys(rest);
    case Call(_, args, rest) =>
      ArgCallsAreKeys(args);
      CallsAreKeys(rest);
  }

  lemma {:induction false} ArgCallsAreKeys(args: Args)
    ensures ArgKeys(args) <= AllArgKeys(args)
    decreases args, 0
  {
    match args
    case NoArgs =>
    case Positional(value, rest) =>
      CallsAreKeys(value);
      ArgCallsAreKeys(rest);
    case Named(_, value, rest) =>
      CallsAreKeys(value);
      ArgCallsAreKeys(rest);
  }

  lemma {:induction false} WalkStaysInLevels(lib: Library, page: Doc, n: nat)
    ensures WalkKeys(lib, page, n + 1) <= LevelKeys(lib, page, n)
    decreases n
  {
    hide CallKeys, AllKeys, PageKeys, WalkKeys, LevelKeys, CalledFrom;
    CallsAreKeys(page);
    LevelsGrow(lib, page, 0, n);
    LevelZero(lib, page);
    OneMoreLevel(lib, page, n);
    if n == 0 {
      NothingWalked(lib, page);
    } else {
      WalkStaysInLevels(lib, page, n - 1);
      CallsDescend(lib, page, WalkKeys(lib, page, n), n - 1);
    }
  }

  lemma CallsDescend(lib: Library, page: Doc, keys: set<Key>, n: nat)
    requires keys <= LevelKeys(lib, page, n)
    ensures CalledFrom(lib, keys) <= LevelKeys(lib, page, n + 1)
  {
    hide CallKeys, AllKeys, PageKeys, LevelKeys;
    forall c | c in CalledFrom(lib, keys) ensures c in LevelKeys(lib, page, n + 1) {
      var k :| k in keys && k in lib.templates && c in CallKeys(lib.templates[k].body);
      LevelsDescend(lib, page, n, k);
      CallsAreKeys(lib.templates[k].body);
    }
  }

  lemma OneMoreLevel(lib: Library, page: Doc, n: nat)
    ensures WalkKeys(lib, page, n + 1) == CallKeys(page) + CalledFrom(lib, WalkKeys(lib, page, n))
  {
    hide CallKeys;
  }

  lemma NothingWalked(lib: Library, page: Doc)
    ensures WalkKeys(lib, page, 0) == {} && CalledFrom(lib, WalkKeys(lib, page, 0)) == {}
  {
    hide CallKeys;
  }

  // The walk over stored texts meets exactly these keys.
  lemma {:induction false} WalkIsReach(lib: Library, st: Storage, page: Doc, max: nat, n: nat)
    requires WellFormed(page) && Stores(lib, st, page, max) && n <= max + 1
    ensures WalkKeys(lib, page, n) == Reach(st, Print(page), n)
    decreases n
  {
    hide CallKeys, LevelKeys, WellFormed, Describes, ScanKeys, BodyKeys, CalledFrom, WalkKeys, Reach;
    OneMoreRound(st, Print(page), n);
    if n == 0 {
      NothingWalked(lib, page);
    } else {
      WalkIsReach(lib, st, page, max, n - 1);
      ScanDoc(page);
      OneMoreLevel(lib, page, n - 1);
      var keys := WalkKeys(lib, page, n - 1);
      if n == 1 {
        NothingWalked(lib, page);
      }
      if n >= 2 {
        WalkStaysInLevels(lib, page, n - 2);
        LevelsGrow(lib, page, n - 2, max);
      }
      BodiesAgree(lib, st, keys);
    }
  }

  lemma OneMoreRound(st: Storage, source: string, n: nat)
    ensures Reach(st, source, n) == if n == 0 then {} else ScanKeys(source) + BodyKeys(st, Reach(st, source, n - 1))
  {
    hide ScanKeys, BodyKeys;
  }

  lemma BodiesAgree(lib: Library, st: Storage, keys: set<Key>)
    requires forall k | k in keys :: Describes(lib, st, k)
    ensures CalledFrom(lib, keys) == BodyKeys(st, keys)
  {
    hide CallKeys, ScanKeys, Fetch, ResolveNamespace, WellFormed;
    forall k | k in keys
      ensures k in lib.templates <==> Fetch(st, k).Some?
      ensures k in lib.templates ==> CallKeys(lib.templates[k].body) == ScanKeys(Fetch(st, k).value.body)
    {
      if k in lib.templates {
        ScanDoc(lib.templates[k].body);
      }
    }
  }

  // ---- Exactly when the renderer gets storage's answers

  // Every template the page can reach is met by the walk, and so is some key of
  // every namespace it can reach.
  predicate MissesNothing(lib: Library, page: Doc, max: nat) {
    forall key | key in LevelKeys(lib, page, max) ::
      && (key in lib.templates ==> key in WalkKeys(lib, page, max + 1))
      && (key.ns in lib.known ==> MeetsNamespace(lib, page, max, key.ns))
  }

  predicate MeetsNamespace(lib: Library, page: Doc, max: nat, ns: string) {
    exists k | k in WalkKeys(lib, page, max + 1) :: k.ns == ns
  }

  lemma ServesOneKeyIff(lib: Library, st: Storage, page: Doc, max: nat, key: Key)
    requires Describes(lib, st, key) && WalkKeys(lib, page, max + 1) == Reach(st, Print(page), max + 1)
    ensures ServesKey(lib, AsResolver(Prefetched(st, Print(page), max)), key) <==>
            && (key in lib.templates ==> key in WalkKeys(lib, page, max + 1))
            && (key.ns in lib.known ==> MeetsNamespace(lib, page, max, key.ns))
  {
    hide WalkKeys, Reach, Fetch, ResolveNamespace, WellFormed;
    var p := Prefetched(st, Print(page), max);
    var keys := Reach(st, Print(page), max + 1);
    assert key in p.sources <==> key in keys && key in lib.templates;
    KnownIff(st, keys, key.ns);
    assert key.ns in p.known <==> key.ns in lib.known && MeetsNamespace(lib, page, max, key.ns);
  }

  lemma KnownIff(st: Storage, keys: set<Key>, ns: string)
    ensures ns in Known(st, keys) <==> ResolveNamespace(st, ns).Some? && exists k | k in keys :: k.ns == ns
  {
    hide ResolveNamespace;
  }

  // For every page, stored content and depth cap: the prefetched templates answer
  // every key the page can reach as storage does, if and only if the closure that
  // does not follow defaults misses nothing of the one that does.
  lemma PrefetchServesIff(lib: Library, st: Storage, page: Doc, max: nat)
    requires WellFormed(page) && Stores(lib, st, page, max)
    ensures Serves(lib, Env(AsResolver(Prefetched(st, Print(page), max)), max), page) <==> MissesNothing(lib, page, max)
  {
    WalkIsReach(lib, st, page, max, max + 1);
    hide LevelKeys, WalkKeys, Reach, Describes, ServesKey, MeetsNamespace, WellFormed, Prefetched, AsResolver;
    forall key | key in LevelKeys(lib, page, max)
      ensures ServesKey(lib, AsResolver(Prefetched(st, Print(page), max)), key) <==>
              && (key in lib.templates ==> key in WalkKeys(lib, page, max + 1))
              && (key.ns in lib.known ==> MeetsNamespace(lib, page, max, key.ns))
    {
      ServesOneKeyIff(lib, st, page, max, key);
    }
  }

  // ---- A condition on each text by itself

  // Every key that can be evaluated in a default is also called outside
  // defaults, unless its namespace can never exist.
  predicate Scanned(t: Doc, inTemplate: bool) {
    forall key | key in KeysIn(t, inTemplate) && ValidSlug(key.ns) :: key in CallKeys(t)
  }

  predicate AllScanned(lib: Library, page: Doc, max: nat) {
    Scanned(page, false) && BodiesScanned(lib, page, max)
  }

  predicate BodiesScanned(lib: Library, page: Doc, max: nat) {
    forall key | key in LevelKeys(lib, page, max) && key in lib.templates :: Scanned(lib.templates[key].body, true)
  }

  // What can be found at depth `n` is met within `n + 1` levels of the walk.
  lemma {:induction false} LevelsAreReached(lib: Library, st: Storage, page: Doc, max: nat, n: nat)
    requires WellFormed(page) && Stores(lib, st, page, max) && AllScanned(lib, page, max) && n <= max
    ensures forall key | key in LevelKeys(lib, page, n) && ValidSlug(key.ns) :: key in Reach(st, Print(page), n + 1)
    decreases n
  {
    hide Reach, ScanKeys, AllKeys, PageKeys, CallKeys, Describes, LevelKeys, WellFormed, Fetch, ValidSlug;
    if n == 0 {
      FirstLevel(st, page);
      assert LevelKeys(lib, page, 0) == PageKeys(page) by { LevelZero(lib, page); }
    } else {
      LevelsAreReached(lib, st, page, max, n - 1);
      ReachGrows(st, Print(page), n, n + 1);
      LevelsGrow(lib, page, n - 1, max);
      forall key | key in LevelKeys(lib, page, n) && ValidSlug(key.ns) && key !in LevelKeys(lib, page, n - 1)
        ensures key in Reach(st, Print(page), n + 1)
      {
        var k := Caller(lib, page, n, key);
        StoredIsValid(lib, st, k);
        BodyIsReached(lib, st, page, n, k, key);
      }
    }
  }

  lemma StoredIsValid(lib: Library, st: Storage, key: Key)
    requires Describes(lib, st, key) && key in lib.templates
    ensures ValidSlug(key.ns)
  {
    hide ValidSlug;
  }

  // A key that is new at a level is called by a template of the level above.
  lemma Caller(lib: Library, page: Doc, n: nat, key: Key) returns (k: Key)
    requires n > 0 && key in LevelKeys(lib, page, n) && key !in LevelKeys(lib, page, n - 1)
    ensures k in LevelKeys(lib, page, n - 1) && k in lib.templates && key in AllKeys(lib.templates[k].body)
  {
    hide AllKeys;
    k :| k in LevelKeys(lib, page, n - 1) && k in lib.templates && key in AllKeys(lib.templates[k].body);
  }

  lemma FirstLevel(st: Storage, page: Doc)
    requires WellFormed(page) && Scanned(page, false)
    ensures forall key | key in PageKeys(page) && ValidSlug(key.ns) :: key in Reach(st, Print(page), 1)
  {
    hide ScanKeys, ValidSlug;
    ScanDoc(page);
  }

  lemma LevelZero(lib: Library, page: Doc)
    ensures LevelKeys(lib, page, 0) == PageKeys(page)
  {
  }

  lemma BodyIsReached(lib: Library, st: Storage, page: Doc, n: nat, k: Key, key: Key)
    requires k in lib.templates && Describes(lib, st, k) && k in Reach(st, Print(page), n)
    requires Scanned(lib.templates[k].body, true)
    requires key in AllKeys(lib.templates[k].body) && ValidSlug(key.ns)
    ensures key in Reach(st, Print(page), n + 1)
  {
    hide ScanKeys, ValidSlug;
    ScanDoc(lib.templates[k].body);
    assert Fetch(st, k).value.body == Print(lib.templates[k].body);
    assert key in ScanKeys(Fetch(st, k).value.body);
    assert key in BodyKeys(st, Reach(st, Print(page), n));
  }

  lemma DirectServes(lib: Library, st: Storage, page: Doc, max: nat)
    requires Stores(lib, st, page, max)
    ensures Serves(lib, Env(Direct(st), max), page)
  {
    hide LevelKeys, Fetch;
    forall key | key in LevelKeys(lib, page, max) ensures ServesKey(lib, Direct(st), key) {
      assert Describes(lib, st, key);
    }
  }

  // When every text is scanned completely the walk misses nothing.
  lemma ScannedMissesNothing(lib: Library, st: Storage, page: Doc, max: nat)
    requires WellFormed(page) && Stores(lib, st, page, max) && AllScanned(lib, page, max)
    ensures MissesNothing(lib, page, max)
  {
    hide LevelKeys, WalkKeys, Reach, Describes, MeetsNamespace, ValidSlug, WellFormed, AllScanned;
    LevelsAreReached(lib, st, page, max, max);
    WalkIsReach(lib, st, page, max, max + 1);
    forall key | key in LevelKeys(lib, page, max)
      ensures key in lib.templates ==> key in WalkKeys(lib, page, max + 1)
      ensures key.ns in lib.known ==> MeetsNamespace(lib, page, max, key.ns)
    {
      KeyIsMet(lib, st, page, max, key);
    }
  }

  lemma KeyIsMet(lib: Library, st: Storage, page: Doc, max: nat, key: Key)
    requires Describes(lib, st, key) && (ValidSlug(key.ns) ==> key in WalkKeys(lib, page, max + 1))
    ensures key in lib.templates ==> key in WalkKeys(lib, page, max + 1)
    ensures key.ns in lib.known ==> MeetsNamespace(lib, page, max, key.ns)
  {
    FetchNeedsNamespace(st, key);
    hide WalkKeys, Fetch, ResolveNamespace, ValidSlug, WellFormed;
  }

  lemma FetchNeedsNamespace(st: Storage, key: Key)
    ensures Fetch(st, key).Some? ==> ResolveNamespace(st, key.ns).Some?
    ensures ResolveNamespace(st, key.ns).Some? ==> ValidSlug(key.ns)
  {
  }

  // For every page, storage and depth cap at which the walk misses nothing: with
  // the prefetched templates the page expands to a text exactly when it does with
  // storage itself, diagnostics included.
  lemma PrefetchRefinesStorage(lib: Library, st: Storage, page: Doc, max: nat, text: string)
    requires WellFormed(page) && Stores(lib, st, page, max) && MissesNothing(lib, page, max)
    ensures Returns(Env(AsResolver(Prefetched(st, Print(page), max)), max), Print(page), text)
        <==> Returns(Env(Direct(st), max), Print(page), text)
  {
    DirectServes(lib, st, page, max);
    PrefetchServesIff(lib, st, page, max);
    ReturnsOnlyItsMeaning(lib, Env(Direct(st), max), page, text);
    ReturnsOnlyItsMeaning(lib, Env(AsResolver(Prefetched(st, Print(page), max)), max), page, text);
  }

  // The expansion returns the meaning and nothing else.
  lemma ReturnsOnlyItsMeaning(lib: Library, env: Env, page: Doc, text: string)
    requires Serves(lib, env, page) && WellFormed(page)
    ensures var d := DenotePage(lib, env.max, page);
      Returns(env, Print(page), text) <==> d.complete && text == d.text
  {
    hide Serves, WellFormed, Denote, Returns, Diverges;
    ExpansionIsMeaning(lib, env, page);
    var d := DenotePage(lib, env.max, page);
    if Returns(env, Print(page), text) {
      OneText(env, Print(page), text, if d.complete then d.text else text);
    }
  }

  // ---- What any walk gives, whatever it misses

  ghost function CutTo(lib: Library, p: Precomputed): Library {
    Library(imap key | key in lib.templates && key in p.sources :: lib.templates[key], iset ns | ns in p.known)
  }

  lemma {:induction false} CutLevels(lib: Library, p: Precomputed, page: Doc, n: nat)
    ensures LevelKeys(CutTo(lib, p), page, n) <= LevelKeys(lib, page, n)
  {
    if n > 0 {
      CutLevels(lib, p, page, n - 1);
    }
  }

  // With the templates any walk has found, the page means exactly what it means
  // in the library cut down to them.
  lemma WalkIsRestriction(lib: Library, st: Storage, page: Doc, max: nat, rounds: nat, text: string)
    requires WellFormed(page) && Stores(lib, st, page, max)
    ensures var p := PrefetchedWithin(st, Print(page), rounds); var d := DenotePage(CutTo(lib, p), max, page);
      Returns(Env(AsResolver(p), max), Print(page), text) <==> d.complete && text == d.text
  {
    hide LevelKeys, Fetch, Reach, ResolveNamespace;
    var p := PrefetchedWithin(st, Print(page), rounds);
    var cut := CutTo(lib, p);
    CutLevels(lib, p, page, max);
    forall key | key in LevelKeys(cut, page, max) ensures ServesKey(cut, AsResolver(p), key) {
      assert Describes(lib, st, key);
    }
    ReturnsOnlyItsMeaning(cut, Env(AsResolver(p), max), page, text);
  }

  // ---- What the page alone decides

  // Whatever storage holds, as long as the stored bodies it reaches are scanned
  // completely, the renderer gets the answers storage would give.
  ghost predicate AnswersLikeStorage(page: Doc, max: nat) {
    forall lib: Library, st: Storage | Stores(lib, st, page, max) && BodiesScanned(lib, page, max) ::
      Serves(lib, Env(AsResolver(Prefetched(st, Print(page), max)), max), page)
  }

  // Storage with one template, whose body is empty.
  function OneTemplate(key: Key): Template {
    Template(key.ns + ":" + key.name, "", End)
  }

  ghost function OneLibrary(key: Key): Library {
    Library(imap[key := OneTemplate(key)], iset{key.ns})
  }

  function OneStorage(key: Key): Storage {
    Storage(map[key.ns := 0], map[(0, key.name) := Page(None)], map[])
  }

  lemma OneDescribed(key: Key, other: Key)
    requires ValidSlug(key.ns) && '{' !in key.name
    ensures Describes(OneLibrary(key), OneStorage(key), other)
  {
    assert forall c | c in key.ns :: SlugChar(c);
    hide ValidSlug;
    assert '{' !in OneTemplate(key).id;
  }

  lemma {:induction false} KeysAreClean(t: Doc, key: Key)
    requires WellFormed(t) && key in AllKeys(t)
    ensures '{' !in key.name
    decreases t, 1
  {
    hide FindTriple, ParseAddress;
    match t
    case Plain(_, rest) => KeysAreClean(rest, key);
    case Ref(_, default, rest) =>
      if key in AllKeys(rest) {
        KeysAreClean(rest, key);
      } else {
        KeysAreClean(default.value, key);
      }
    case Call(name, args, rest) =>
      if key in AllKeys(rest) {
        KeysAreClean(rest, key);
      } else if key in AllArgKeys(args) {
        ArgKeysAreClean(args, key);
      } else {
        TrimIsSlice(name, '{');
        AddressKeeps(Trim(name));
      }
  }

  lemma {:induction false} ArgKeysAreClean(args: Args, key: Key)
    requires WellFormedArgs(args) && key in AllArgKeys(args)
    ensures '{' !in key.name
    decreases args, 0
  {
    match args
    case Positional(value, rest) =>
      if key in AllKeys(value) {
        KeysAreClean(value, key);
      } else {
        ArgKeysAreClean(rest, key);
      }
    case Named(_, value, rest) =>
      if key in AllKeys(value) {
        KeysAreClean(value, key);
      } else {
        ArgKeysAreClean(rest, key);
      }
  }

  lemma {:induction false} PageKeysAreKeys(t: Doc)
    ensures PageKeys(t) <= AllKeys(t)
  {
    match t
    case End =>
    case Plain(_, rest) => PageKeysAreKeys(rest);
    case Ref(_, _, rest) => PageKeysAreKeys(rest);
    case Call(_, _, rest) => PageKeysAreKeys(rest);
  }

  lemma {:induction false} OneReached(key: Key, source: string, n: nat)
    ensures Reach(OneStorage(key), source, n) <= ScanKeys(source)
  {
    hide ScanKeys, ValidSlug;
    if n > 0 {
      OneReached(key, source, n - 1);
      EmptyBodies(key, Reach(OneStorage(key), source, n - 1));
    }
  }

  lemma EmptyBodies(key: Key, keys: set<Key>)
    ensures BodyKeys(OneStorage(key), keys) == {}
  {
    hide ValidSlug;
    ScanEmpty();
  }

  // What the page alone decides: with stored bodies that are scanned completely
  // the prefetch hands the renderer the right answers, whatever they are, exactly
  // when no call with a possible namespace is evaluated in defaults of the page only.
  lemma AnswersLikeStorageIff(page: Doc, max: nat)
    requires WellFormed(page)
    ensures AnswersLikeStorage(page, max) <==> Scanned(page, false)
  {
    hide LevelKeys, WellFormed, Serves, Stores, BodiesScanned, Scanned, MissesNothing;
    if Scanned(page, false) {
      forall lib: Library, st: Storage | Stores(lib, st, page, max) && BodiesScanned(lib, page, max)
        ensures Serves(lib, Env(AsResolver(Prefetched(st, Print(page), max)), max), page)
      {
        ScannedMissesNothing(lib, st, page, max);
        PrefetchServesIff(lib, st, page, max);
      }
    } else {
      var key := Unscanned(page);
      MissedInOneStorage(page, max, key);
    }
  }

  lemma Unscanned(page: Doc) returns (key: Key)
    requires !Scanned(page, false)
    ensures key in PageKeys(page) && ValidSlug(key.ns) && key !in CallKeys(page)
  {
    hide PageKeys, CallKeys, ValidSlug;
    key :| key in PageKeys(page) && ValidSlug(key.ns) && key !in CallKeys(page);
  }

  lemma MissedInOneStorage(page: Doc, max: nat, key: Key)
    requires WellFormed(page) && key in PageKeys(page) && ValidSlug(key.ns) && key !in CallKeys(page)
    ensures var lib, st := OneLibrary(key), OneStorage(key);
      && Stores(lib, st, page, max) && BodiesScanned(lib, page, max)
      && !Serves(lib, Env(AsResolver(Prefetched(st, Print(page), max)), max), page)
  {
    hide LevelKeys, WellFormed, AllKeys, PageKeys, CallKeys, ValidSlug, ScanKeys, Reach, Fetch, ResolveNamespace,
         Known, Scanned, BodyKeys, Stores, BodiesScanned;
    var lib := OneLibrary(key);
    PageKeysAreKeys(page);
    KeysAreClean(page, key);
    OneStored(page, max, key);
    LevelsGrow(lib, page, 0, max);
    LevelZero(lib, page);
    ScanDoc(page);
    OneReached(key, Print(page), max + 1);
    assert !ServesKey(lib, AsResolver(Prefetched(OneStorage(key), Print(page), max)), key);
  }

  lemma OneStored(page: Doc, max: nat, key: Key)
    requires ValidSlug(key.ns) && '{' !in key.name
    ensures Stores(OneLibrary(key), OneStorage(key), page, max) && BodiesScanned(OneLibrary(key), page, max)
  {
    hide LevelKeys, Describes, ValidSlug;
    forall other ensures Describes(OneLibrary(key), OneStorage(key), other) {
      OneDescribed(key, other);
    }
    EmptyIsScanned();
  }

  lemma EmptyIsScanned()
    ensures Scanned(End, true)
  {
  }
}
