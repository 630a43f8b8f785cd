// The prefetch of templates: a second scanner, and a level-by-level walk over
// storage that hands the renderer the templates it will ask for.
module Prefetch {
  import opened Text
  import opened Scanner
  import opened Wikitext
  import opened Expander
  import opened RoundTrip
  import opened Semantics
  import opened Transclusion

  // ---- Which calls a text contains

  // The key of a call with this inner text, if any.
  function HeadKey(inner: string): set<Key> {
    var trimmed := TrimStart(inner);
    if trimmed != "" && trimmed[0] == '#' then {}
    else
      var head := Trim(UpTo(inner, {'|'}));
      if head == "" then {} else {ParseAddress(head)}
  }

  // The keys `scan_template_calls` finds. It stops at a brace pair that is never closed.
  function ScanKeys(s: string): set<Key>
    decreases |s|
  {
    if s == "" then {}
    else if !Twice(s, '{') then ScanKeys(s[1..])
    else if Thrice(s, '{') then
      var close := FindTriple(s[3..]);
      if close.Some? then ScanKeys(s[3 + close.value + 3..]) else {}
    else
      var close := Find(s[2..], 0, AtClose);
      if close.None? then {}
      else
        var inner := s[2..2 + close.value];
        ScanKeys(inner) + HeadKey(inner) + ScanKeys(s[2 + close.value + 2..])
  }

  method ScanTemplateCalls(source: string) returns (keys: set<Key>)
    ensures keys == ScanKeys(source)
    decreases |source|
  {
    hide Find, FindTriple, HeadKey, ScanKeys;
    keys := {};
    var i := 0;
    assert source[0..] == source;
    while i + 2 <= |source|
      invariant 0 <= i <= |source| && keys + ScanKeys(source[i..]) == ScanKeys(source)
    {
      var rest := source[i..];
      ScanStep(rest);
      if !Twice(rest, '{') {
        assert rest[1..] == source[i + 1..];
        i := i + 1;
        continue;
      }
      if Thrice(rest, '{') {
        var close := FindTriple(rest[3..]);
        if close.None? {
          return;
        }
        assert rest[3 + close.value + 3..] == source[i + 3 + close.value + 3..];
        i := i + 3 + close.value + 3;
        continue;
      }
      var close := Find(rest[2..], 0, AtClose);
      if close.None? {
        return;
      }
      var inner := rest[2..2 + close.value];
      var nested := ScanTemplateCalls(inner);
      assert rest[2 + close.value + 2..] == source[i + 2 + close.value + 2..];
      keys := keys + nested + HeadKey(inner);
      i := i + 2 + close.value + 2;
    }
    ScanShort(source[i..]);
  }

  lemma ScanStep(s: string)
    requires s != ""
    ensures ScanKeys(s) ==
            if !Twice(s, '{') then ScanKeys(s[1..])
            else if Thrice(s, '{') then
              var close := FindTriple(s[3..]);
              if close.Some? then ScanKeys(s[3 + close.value + 3..]) else {}
            else
              var close := Find(s[2..], 0, AtClose);
              if close.None? then {}
              else
                var inner := s[2..2 + close.value];
                ScanKeys(inner) + HeadKey(inner) + ScanKeys(s[2 + close.value + 2..])
  {
    hide Find, FindTriple, HeadKey;
  }

  lemma ScanShort(s: string)
    requires |s| < 2
    ensures ScanKeys(s) == {}
  {
    if s != "" {
      assert ScanKeys(s) == ScanKeys(s[1..]);
    }
  }

  lemma {:induction false} ScanSkipsPlain(text: string, rest: string)
    requires BraceFree(text)
    ensures ScanKeys(text + rest) == ScanKeys(rest)
  {
    if text == "" {
      assert text + rest == rest;
    } else {
      assert (text + rest)[0] == text[0] && text[0] in text;
      assert (text + rest)[1..] == text[1..] + rest;
      ScanSkipsPlain(text[1..], rest);
    }
  }

  lemma ScanRef(inner: string, rest: string)
    requires Closed(inner)
    ensures ScanKeys("{{{" + inner + "}}}" + rest) == ScanKeys(rest)
  {
    hide FindTriple;
    RefCloses(inner, rest);
    Enclosed("{{{", inner, "}}}", rest);
  }

  lemma ScanCall(name: string, args: Args, rest: string)
    requires BraceFree(name) && '|' !in name && Trim(name) != "" && WellFormedArgs(args)
    ensures var inner := name + PrintArgs(args);
      ScanKeys("{{" + inner + "}}" + rest) == ScanKeys(inner) + OwnKey(name) + ScanKeys(rest)
  {
    hide Find, FindTriple, PrintArgs, WellFormedArgs, HeadKey, OwnKey;
    ReadCall(name, args, rest);
    HeadIsOwn(name, args);
  }

  lemma HeadIsOwn(name: string, args: Args)
    requires BraceFree(name) && '|' !in name && Trim(name) != "" && WellFormedArgs(args)
    ensures HeadKey(name + PrintArgs(args)) == OwnKey(name)
  {
    hide Find, FindTriple, WellFormedArgs, ParseAddress;
    ReadHead(name, args);
    PrintArgsStart(args);
    UpToBar(name, PrintArgs(args));
  }

  lemma {:induction false} UpToBar(s: string, rest: string)
    requires '|' !in s && (rest == "" || rest[0] == '|')
    ensures UpTo(s + rest, {'|'}) == s
  {
    if s == "" {
      assert s + rest == rest;
    } else {
      assert (s + rest)[1..] == s[1..] + rest;
      assert s[0] in s;
      UpToBar(s[1..], rest);
    }
  }

  // The scanner finds in a printed document exactly the calls outside defaults.
  lemma {:induction false} ScanPrinted(t: Doc, rest: string)
    requires WellFormed(t)
    ensures ScanKeys(Print(t) + rest) == CallKeys(t) + ScanKeys(rest)
    decreases t, 1
  {
    hide ScanKeys, OwnKey;
    match t
    case End =>
      assert "" + rest == rest;
    case Plain(text, more) =>
      Assoc(text, Print(more), rest);
      ScanSkipsPlain(text, Print(more) + rest);
      ScanPrinted(more, rest);
    case Ref(name, default, more) =>
      var written := "{{{" + PrintRef(name, default) + "}}}";
      Assoc(written, Print(more), rest);
      ScanRef(PrintRef(name, default), Print(more) + rest);
      ScanPrinted(more, rest);
    case Call(name, args, more) =>
      var written := "{{" + (name + PrintArgs(args)) + "}}";
      Assoc(written, Print(more), rest);
      ScanCall(name, args, Print(more) + rest);
      ScanSkipsPlain(name, PrintArgs(args));
      ScanPrintedArgs(args, "");
      assert PrintArgs(args) + "" == PrintArgs(args);
      ScanEmpty();
      ScanPrinted(more, rest);
  }

  lemma ScanEmpty()
    ensures ScanKeys("") == {}
  {
  }

  lemma {:induction false} ScanPrintedArgs(args: Args, rest: string)
    requires WellFormedArgs(args)
    ensures ScanKeys(PrintArgs(args) + rest) == ArgKeys(args) + ScanKeys(rest)
    decreases args, 0
  {
    hide ScanKeys;
    match args
    case NoArgs =>
      assert "" + rest == rest;
    case Positional(value, more) =>
      ScanPrinted(value, PrintArgs(more) + rest);
      ScanPrintedArgs(more, rest);
      ScanLead("|", Print(value), PrintArgs(more), rest);
    case Named(key, value, more) =>
      ScanPrinted(value, PrintArgs(more) + rest);
      ScanPrintedArgs(more, rest);
      ScanLead("|" + (key + "="), Print(value), PrintArgs(more), rest);
      Assoc("|", key + "=", Print(value));
  }

  lemma ScanLead(lead: string, value: string, more: string, rest: string)
    requires BraceFree(lead)
    ensures ScanKeys(lead + value + more + rest) == ScanKeys(value + (more + rest))
  {
    hide ScanKeys;
    ScanSkipsPlain(lead, value + (more + rest));
    Assoc(lead + value, more, rest);
    Assoc(lead, value, more + rest);
  }

  lemma ScanDoc(t: Doc)
    requires WellFormed(t)
    ensures ScanKeys(Print(t)) == CallKeys(t)
  {
    hide ScanKeys;
    ScanPrinted(t, "");
    assert Print(t) + "" == Print(t);
    ScanEmpty();
  }

  // ---- Storage

  type NamespaceId = nat

  datatype Page = Page(revision: Option<string>)

  // Namespaces by slug, pages by namespace and slug, revision bodies by id.
  datatype Storage = Storage(namespaces: map<string, NamespaceId>,
                             pages: map<(NamespaceId, string), Page>,
                             revisions: map<string, string>)

  const SLUG_MAX_BYTES := 64

  // A slug that passes this test is ASCII, so its bytes are its characters.
  predicate ValidSlug(s: string) {
    s != "" && |s| <= SLUG_MAX_BYTES && forall c | c in s :: SlugChar(c)
  }

  predicate SlugChar(c: char) {
    'a' <= c <= 'z' || 'A' <= c <= 'Z' || '0' <= c <= '9' || c == '_' || c == '-'
  }

  function ResolveNamespace(st: Storage, ns: string): Option<NamespaceId> {
    if ValidSlug(ns) && ns in st.namespaces then Some(st.namespaces[ns]) else None
  }

  function BodyOf(st: Storage, page: Page): string {
    if page.revision.Some? && page.revision.value in st.revisions then st.revisions[page.revision.value] else ""
  }

  function SourceOf(st: Storage, key: Key, page: Page): Source {
    Source(key.ns + ":" + key.name, if page.revision.Some? then page.revision.value else "", BodyOf(st, page))
  }

  // What storage holds under a key.
  function Fetch(st: Storage, key: Key): Option<Source> {
    var ns := ResolveNamespace(st, key.ns);
    if ns.Some? && (ns.value, key.name) in st.pages then Some(SourceOf(st, key, st.pages[(ns.value, key.name)]))
    else None
  }

  // A template is found exactly when its namespace has a possible name and exists
  // and the page exists in it. It is the page's head revision, or empty when the
  // page has none or points at a missing one.
  lemma FetchFinds(st: Storage, key: Key)
    ensures Fetch(st, key).Some? <==>
            && 1 <= |key.ns| <= 64 && (forall k | 0 <= k < |key.ns| :: SlugChar(key.ns[k]))
            && key.ns in st.namespaces && (st.namespaces[key.ns], key.name) in st.pages
    ensures Fetch(st, key).Some? ==>
              var src, page := Fetch(st, key).value, st.pages[(st.namespaces[key.ns], key.name)];
              && src.id == key.ns + ":" + key.name
              && (forall r | page.revision == Some(r) :: src.revision == r && (r in st.revisions ==> src.body == st.revisions[r]))
              && ((page.revision.Some? ==> page.revision.value !in st.revisions) ==> src.body == "")
              && (page.revision.None? ==> src.revision == "")
  {
    hide SlugChar;
    assert (forall k | 0 <= k < |key.ns| :: SlugChar(key.ns[k])) ==> forall c | c in key.ns :: SlugChar(c);
    forall k | 0 <= k < |key.ns| ensures key.ns[k] in key.ns {
    }
  }

  // A resolver that asks storage on every lookup.
  ghost function Direct(st: Storage): Resolver {
    Resolver(imap key | Fetch(st, key).Some? :: Fetch(st, key).value,
             iset ns | ResolveNamespace(st, ns).Some?)
  }

  datatype Precomputed = Precomputed(sources: map<Key, Source>, known: set<string>)

  ghost function AsResolver(p: Precomputed): Resolver {
    Resolver(imap key | key in p.sources :: p.sources[key], iset ns | ns in p.known)
  }

  // ---- Levels

  function BodyKeys(st: Storage, keys: set<Key>): set<Key> {
    set k, c | k in keys && Fetch(st, k).Some? && c in ScanKeys(Fetch(st, k).value.body) :: c
  }

  // Keys met within `n` levels of calls.
  function Reach(st: Storage, source: string, n: nat): set<Key> {
    if n == 0 then {} else ScanKeys(source) + BodyKeys(st, Reach(st, source, n - 1))
  }

  lemma BodyKeysGrow(st: Storage, a: set<Key>, b: set<Key>)
    requires a <= b
    ensures BodyKeys(st, a) <= BodyKeys(st, b)
  {
    hide Fetch, ScanKeys;
  }

  lemma {:induction false} ReachGrows(st: Storage, source: string, m: nat, n: nat)
    requires m <= n
    ensures Reach(st, source, m) <= Reach(st, source, n)
    decreases n
  {
    hide Fetch, ScanKeys, BodyKeys;
    if 0 < m {
      ReachGrows(st, source, m - 1, n - 1);
      BodyKeysGrow(st, Reach(st, source, m - 1), Reach(st, source, n - 1));
    }
  }

  // Once a level adds nothing, no later level does.
  lemma {:induction false} ReachStops(st: Storage, source: string, m: nat, n: nat)
    requires m <= n && Reach(st, source, m + 1) <= Reach(st, source, m)
    ensures Reach(st, source, n) == Reach(st, source, m)
    decreases n
  {
    hide Fetch, ScanKeys, BodyKeys;
    ReachGrows(st, source, m, m + 1);
    if m < n {
      ReachStops(st, source, m, n - 1);
    }
  }

  function Found(st: Storage, keys: set<Key>): map<Key, Source> {
    map k | k in keys && Fetch(st, k).Some? :: Fetch(st, k).value
  }

  function Known(st: Storage, keys: set<Key>): set<string> {
    set k | k in keys && ResolveNamespace(st, k.ns).Some? :: k.ns
  }

  // What a walk of `rounds` levels hands to the renderer.
  function PrefetchedWithin(st: Storage, source: string, rounds: nat): Precomputed {
    var keys := Reach(st, source, rounds);
    Precomputed(Found(st, keys), Known(st, keys))
  }

  // The walk goes one level beyond the depth cap: the renderer looks a template
  // up before it finds the budget used up.
  function Prefetched(st: Storage, source: string, max: nat): Precomputed {
    PrefetchedWithin(st, source, max + 1)
  }

  // ---- The walk

  method SetToSeq(keys: set<Key>) returns (list: seq<Key>)
    ensures (set k | k in list) == keys
  {
    list := [];
    var rest := keys;
    while rest != {}
      invariant (set k | k in list) + rest == keys
      decreases rest
    {
      var k :| k in rest;
      list := list + [k];
      rest := rest - {k};
    }
  }

  // After a round: everything up to this level is processed, and what the next
  // level adds is queued.
  ghost predicate Round(st: Storage, source: string, depth: nat, processed: set<Key>, queue: set<Key>) {
    && processed == Reach(st, source, depth)
    && queue <= Reach(st, source, depth + 1)
    && Reach(st, source, depth + 1) <= processed + queue
  }

  lemma NextRound(st: Storage, source: string, depth: nat, processed: set<Key>, queue: set<Key>, next: set<Key>)
    requires Round(st, source, depth, processed, queue)
    requires next <= BodyKeys(st, processed + queue)
    requires BodyKeys(st, queue) <= next + processed + queue
    ensures Round(st, source, depth + 1, processed + queue, next)
  {
    hide Fetch, ScanKeys;
    ReachGrows(st, source, depth, depth + 1);
    assert processed + queue == Reach(st, source, depth + 1);
    BodyKeysSplit(st, processed, queue);
    ProcessedBodies(st, source, depth);
    assert ScanKeys(source) <= Reach(st, source, depth + 1);
  }

  lemma BodyKeysSplit(st: Storage, a: set<Key>, b: set<Key>)
    ensures BodyKeys(st, a + b) == BodyKeys(st, a) + BodyKeys(st, b)
  {
    hide Fetch, ScanKeys;
  }

  lemma ProcessedBodies(st: Storage, source: string, depth: nat)
    ensures BodyKeys(st, Reach(st, source, depth)) <= Reach(st, source, depth + 1)
  {
    hide Fetch, ScanKeys, BodyKeys;
  }

  // What has been collected once `keys` are processed.
  ghost predicate Collected(st: Storage, keys: set<Key>, sources: map<Key, Source>, known: set<string>,
                            nsCache: map<string, Option<NamespaceId>>) {
    && sources == Found(st, keys) && known == Known(st, keys)
    && forall ns | ns in nsCache :: nsCache[ns] == ResolveNamespace(st, ns)
  }

  lemma CollectMore(st: Storage, keys: set<Key>, key: Key, sources: map<Key, Source>, known: set<string>)
    requires sources == Found(st, keys) && known == Known(st, keys)
    ensures Found(st, keys + {key}) == if Fetch(st, key).Some? then sources[key := Fetch(st, key).value] else sources
    ensures Known(st, keys + {key}) == if ResolveNamespace(st, key.ns).Some? then known + {key.ns} else known
  {
    hide Fetch, ResolveNamespace;
  }

  method BuildTemplateResolver(st: Storage, source: string, max: nat) returns (p: Precomputed)
    ensures p == Prefetched(st, source, max)
  {
    hide ScanKeys, Reach, BodyKeys, Found, Known;
    var sources: map<Key, Source> := map[];
    var known: set<string> := {};
    var nsCache: map<string, Option<NamespaceId>> := map[];
    var first := ScanTemplateCalls(source);
    var queue := SetToSeq(first);
    var depth := 0;
    ghost var processed: set<Key> := {};
    FirstRound(st, source);
    while queue != [] && depth <= max
      invariant depth <= max + 1
      invariant Round(st, source, depth, processed, set k | k in queue)
      invariant Collected(st, processed, sources, known, nsCache)
      decreases max + 1 - depth
    {
      var next: set<Key> := {};
      ghost var keys := set k | k in queue;
      var q := 0;
      ghost var seen: set<Key> := {};
      NoBodies(st);
      assert processed + {} == processed;
      while q < |queue|
        invariant 0 <= q <= |queue| && seen == set k | k in queue[..q]
        invariant Collected(st, processed + seen, sources, known, nsCache)
        invariant next <= BodyKeys(st, processed + seen)
        invariant BodyKeys(st, seen) <= next + processed + keys
      {
        var key := queue[q];
        CollectMore(st, processed + seen, key, sources, known);
        BodyKeysSplit(st, seen, {key});
        BodyKeysSplit(st, processed + seen, {key});
        assert queue[..q + 1] == queue[..q] + [key];
        SourcesAreSeen(st, source, depth, processed, seen, key, sources);
        assert processed + (seen + {key}) == processed + seen + {key};
        sources, known, nsCache, next :=
          ProcessKey(st, key, sources, known, nsCache, next, processed + seen);
        seen := seen + {key};
        q := q + 1;
      }
      assert queue[..q] == queue;
      NextRound(st, source, depth, processed, keys, next);
      processed := processed + keys;
      queue := SetToSeq(next);
      depth := depth + 1;
    }
    if depth <= max {
      ReachStops(st, source, depth, max + 1);
    }
    p := Precomputed(sources, known);
  }

  lemma FirstRound(st: Storage, source: string)
    ensures Round(st, source, 0, {}, ScanKeys(source)) && Found(st, {}) == map[] && Known(st, {}) == {}
  {
    hide Fetch, ScanKeys;
    assert BodyKeys(st, Reach(st, source, 0)) == {};
  }

  // A key that is already collected was processed, and so were its calls queued.
  lemma SourcesAreSeen(st: Storage, source: string, depth: nat, processed: set<Key>, seen: set<Key>, key: Key,
                       sources: map<Key, Source>)
    requires processed == Reach(st, source, depth) && sources == Found(st, processed + seen)
    ensures sources.Keys <= processed + seen
    ensures key in sources && key !in seen ==> BodyKeys(st, {key}) <= Reach(st, source, depth + 1)
    ensures key in seen ==> BodyKeys(st, {key}) <= BodyKeys(st, seen)
  {
    hide Fetch, ScanKeys, Reach;
    ProcessedBodies(st, source, depth);
    if key in seen {
      BodyKeysGrow(st, {key}, seen);
    } else if key in sources {
      BodyKeysGrow(st, {key}, processed);
    }
  }

  lemma NoBodies(st: Storage)
    ensures BodyKeys(st, {}) == {}
  {
  }

  // One turn of the walk's inner loop.
  method ProcessKey(st: Storage, key: Key, sources: map<Key, Source>, known: set<string>,
                    nsCache: map<string, Option<NamespaceId>>, next: set<Key>, ghost keys: set<Key>)
    returns (sources': map<Key, Source>, known': set<string>,
             nsCache': map<string, Option<NamespaceId>>, next': set<Key>)
    requires Collected(st, keys, sources, known, nsCache)
    ensures Collected(st, keys + {key}, sources', known', nsCache')
    ensures next <= next' <= next + BodyKeys(st, {key})
    ensures key !in sources ==> BodyKeys(st, {key}) <= next' + sources.Keys
  {
    hide ScanKeys, ValidSlug;
    CollectMore(st, keys, key, sources, known);
    sources', known', nsCache', next' := sources, known, nsCache, next;
    if key in sources {
      assert Known(st, keys) == Known(st, keys + {key});
      return;
    }
    var ns: Option<NamespaceId>;
    if key.ns in nsCache {
      ns := nsCache[key.ns];
    } else {
      ns := ResolveNamespace(st, key.ns);
      nsCache' := nsCache[key.ns := ns];
    }
    if ns.None? {
      return;
    }
    known' := known + {key.ns};
    if (ns.value, key.name) !in st.pages {
      return;
    }
    var src := SourceOf(st, key, st.pages[(ns.value, key.name)]);
    var calls := ScanTemplateCalls(src.body);
    next' := next + (calls - sources.Keys);
    sources' := sources[key := src];
  }
}
