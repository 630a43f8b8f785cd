// Rebuilding the index from storage: the paging loop that collects every page,
// the one-shot rebuild, and the same pages sent through the worker's channel.
module Reindex {
  import opened Text
  import opened SearchIndex

  type Cursor = string

  datatype Page = Page(id: PageId, namespaceId: nat, slug: string, title: string,
                       revision: Option<string>, updatedAt: int)

  datatype Slice = Slice(items: seq<Page>, next: Option<Cursor>)

  datatype Namespace = Namespace(id: nat, slug: string, isTalk: bool)

  const PAGE_LIMIT := 200

  // Any backend, as the answer to `list_in_namespace`.
  type Lister = (nat, Option<Cursor>, nat) -> Slice

  function Position(pos: map<Cursor, nat>, cursor: Option<Cursor>): nat {
    if cursor.Some? && cursor.value in pos then pos[cursor.value] else 0
  }

  // The cursor contract: a call answers with the rows behind the cursor, in the
  // namespace's order, and with the cursor behind those unless no row remains.
  // `pos` tells how many rows lie before each cursor the backend hands out.
  predicate Honours(list: Lister, ns: nat, rows: seq<Page>, pos: map<Cursor, nat>, cursor: Option<Cursor>) {
    var i := Position(pos, cursor);
    var slice := list(ns, cursor, PAGE_LIMIT);
    && (cursor.Some? ==> cursor.value in pos) && i <= |rows|
    && slice.items <= rows[i..]
    && (slice.next.None? ==> i + |slice.items| == |rows|)
    && (slice.next.Some? ==>
          slice.items != [] && slice.next.value in pos && pos[slice.next.value] == i + |slice.items|)
  }

  ghost predicate Contract(list: Lister, ns: nat, rows: seq<Page>, pos: map<Cursor, nat>) {
    Honours(list, ns, rows, pos, None) && forall c | c in pos :: Honours(list, ns, rows, pos, Some(c))
  }

  // The document of a page: its head revision's body, or none.
  function ToDoc(namespaces: seq<Namespace>, revisions: map<string, string>, p: Page): PageDoc {
    var (slug, isTalk) := SlugOfNamespace(namespaces, p.namespaceId);
    PageDoc(p.id, p.namespaceId, slug, p.slug, p.title,
            if p.revision.Some? && p.revision.value in revisions then revisions[p.revision.value] else "",
            [], p.updatedAt, isTalk)
  }

  // The last row with this id, as a map built from the list would have it.
  function SlugOfNamespace(namespaces: seq<Namespace>, id: nat): (string, bool) {
    if namespaces == [] then ("", false)
    else
      var last := namespaces[|namespaces| - 1];
      if last.id == id then (last.slug, last.isTalk) else SlugOfNamespace(namespaces[..|namespaces| - 1], id)
  }

  function ToDocs(namespaces: seq<Namespace>, revisions: map<string, string>, rows: seq<Page>): seq<PageDoc> {
    if rows == [] then []
    else ToDocs(namespaces, revisions, rows[..|rows| - 1]) + [ToDoc(namespaces, revisions, rows[|rows| - 1])]
  }

  lemma {:induction false} ToDocsAppend(namespaces: seq<Namespace>, revisions: map<string, string>,
                                        a: seq<Page>, b: seq<Page>)
    ensures ToDocs(namespaces, revisions, a + b) == ToDocs(namespaces, revisions, a) + ToDocs(namespaces, revisions, b)
    decreases |b|
  {
    if b == [] {
      assert a + b == a;
    } else {
      assert (a + b)[..|a + b| - 1] == a + b[..|b| - 1];
      ToDocsAppend(namespaces, revisions, a, b[..|b| - 1]);
    }
  }

  // The rows of each namespace in turn.
  function AllRows(rows: map<nat, seq<Page>>, namespaces: seq<Namespace>): seq<Page> {
    if namespaces == [] then []
    else
      var last := namespaces[|namespaces| - 1].id;
      AllRows(rows, namespaces[..|namespaces| - 1]) + if last in rows then rows[last] else []
  }

  // How many rows the first `n` namespaces have.
  function RowsBefore(rows: map<nat, seq<Page>>, namespaces: seq<Namespace>, n: nat): nat
    requires n <= |namespaces|
  {
    if n == 0 then 0
    else RowsBefore(rows, namespaces, n - 1) + if namespaces[n - 1].id in rows then |rows[namespaces[n - 1].id]| else 0
  }

  // The page is the row at `k` of the `n`-th namespace.
  predicate RowAt(rows: map<nat, seq<Page>>, namespaces: seq<Namespace>, n: nat, k: nat, p: Page) {
    n < |namespaces| && namespaces[n].id in rows && k < |rows[namespaces[n].id]| && rows[namespaces[n].id][k] == p
  }

  lemma {:induction false} RowsBeforeFront(rows: map<nat, seq<Page>>, namespaces: seq<Namespace>, n: nat)
    requires n < |namespaces|
    ensures RowsBefore(rows, namespaces[..|namespaces| - 1], n) == RowsBefore(rows, namespaces, n)
  {
    if n > 0 {
      RowsBeforeFront(rows, namespaces, n - 1);
    }
  }

  // The rows collected are as many as the namespaces have, ...
  lemma {:induction false} AllRowsCount(rows: map<nat, seq<Page>>, namespaces: seq<Namespace>)
    ensures |AllRows(rows, namespaces)| == RowsBefore(rows, namespaces, |namespaces|)
  {
    if namespaces != [] {
      AllRowsCount(rows, namespaces[..|namespaces| - 1]);
      RowsBeforeFront(rows, namespaces, |namespaces| - 1);
    }
  }

  // ... in the order of the namespaces and of the rows of each.
  lemma {:induction false} RowIsCollected(rows: map<nat, seq<Page>>, namespaces: seq<Namespace>, n: nat, k: nat, p: Page)
    requires RowAt(rows, namespaces, n, k, p)
    ensures var i := RowsBefore(rows, namespaces, n) + k; i < |AllRows(rows, namespaces)| && AllRows(rows, namespaces)[i] == p
  {
    var last := |namespaces| - 1;
    var front := namespaces[..last];
    AllRowsCount(rows, front);
    RowsBeforeFront(rows, namespaces, last);
    if n < last {
      RowsBeforeFront(rows, namespaces, n);
      RowIsCollected(rows, front, n, k, p);
    }
  }

  // Every collected row is the row of some namespace.
  lemma {:induction false} RowOf(rows: map<nat, seq<Page>>, namespaces: seq<Namespace>, i: nat) returns (n: nat, k: nat)
    requires i < |AllRows(rows, namespaces)|
    ensures RowAt(rows, namespaces, n, k, AllRows(rows, namespaces)[i]) && i == RowsBefore(rows, namespaces, n) + k
  {
    var last := |namespaces| - 1;
    var front := namespaces[..last];
    AllRowsCount(rows, front);
    RowsBeforeFront(rows, namespaces, last);
    if i < |AllRows(rows, front)| {
      n, k := RowOf(rows, front, i);
      RowsBeforeFront(rows, namespaces, n);
    } else {
      n, k := last, i - |AllRows(rows, front)|;
    }
  }

  // The paging loops of the reindex command: every row of every namespace, once
  // and in order.
  method CollectDocs(list: Lister, namespaces: seq<Namespace>, revisions: map<string, string>,
                     ghost rows: map<nat, seq<Page>>, ghost pos: map<nat, map<Cursor, nat>>)
    returns (docs: seq<PageDoc>)
    requires forall ns | ns in namespaces :: ns.id in rows && ns.id in pos && Contract(list, ns.id, rows[ns.id], pos[ns.id])
    ensures docs == ToDocs(namespaces, revisions, AllRows(rows, namespaces))
    ensures DistinctRows(rows, namespaces) ==> HoldsStorage(docs, rows, namespaces, revisions)
  {
    hide HoldsStorage, DistinctRows;
    docs := [];
    for n := 0 to |namespaces|
      invariant docs == ToDocs(namespaces, revisions, AllRows(rows, namespaces[..n]))
    {
      var ns := namespaces[n];
      assert ns in namespaces;
      var more := CollectNamespace(list, ns.id, namespaces, revisions, rows[ns.id], pos[ns.id]);
      assert namespaces[..n + 1][..n] == namespaces[..n];
      ToDocsAppend(namespaces, revisions, AllRows(rows, namespaces[..n]), rows[ns.id]);
      docs := docs + more;
    }
    assert namespaces[..|namespaces|] == namespaces;
    if DistinctRows(rows, namespaces) {
      DocsAreOfRows(namespaces, revisions, rows, docs);
    }
  }

  method CollectNamespace(list: Lister, ns: nat, namespaces: seq<Namespace>, revisions: map<string, string>,
                          ghost rows: seq<Page>, ghost pos: map<Cursor, nat>)
    returns (docs: seq<PageDoc>)
    requires Contract(list, ns, rows, pos)
    ensures docs == ToDocs(namespaces, revisions, rows)
  {
    hide ToDocs;
    docs := [];
    NoDocs(namespaces, revisions);
    var cursor: Option<Cursor> := None;
    ghost var seen := 0;
    while true
      invariant seen == Position(pos, cursor) <= |rows| && (cursor.Some? ==> cursor.value in pos)
      invariant docs == ToDocs(namespaces, revisions, rows[..seen])
      decreases |rows| - seen
    {
      assert Honours(list, ns, rows, pos, cursor);
      var slice := list(ns, cursor, PAGE_LIMIT);
      ghost var upTo := seen + |slice.items|;
      NextRows(rows, seen, slice.items);
      ToDocsAppend(namespaces, revisions, rows[..seen], slice.items);
      docs := AddDocs(docs, namespaces, revisions, slice.items);
      if slice.next.None? {
        assert rows[..upTo] == rows;
        return;
      }
      cursor := slice.next;
      seen := upTo;
    }
  }

  lemma NoDocs(namespaces: seq<Namespace>, revisions: map<string, string>)
    ensures ToDocs(namespaces, revisions, []) == []
  {
  }

  lemma NextRows(rows: seq<Page>, seen: nat, items: seq<Page>)
    requires seen <= |rows| && items <= rows[seen..]
    ensures seen + |items| <= |rows| && rows[..seen + |items|] == rows[..seen] + items
  {
    assert rows[seen..][..|items|] == items;
  }

  method AddDocs(before: seq<PageDoc>, namespaces: seq<Namespace>, revisions: map<string, string>, items: seq<Page>)
    returns (docs: seq<PageDoc>)
    ensures docs == before + ToDocs(namespaces, revisions, items)
  {
    docs := before;
    for k := 0 to |items|
      invariant docs == before + ToDocs(namespaces, revisions, items[..k])
    {
      assert items[..k + 1][..k] == items[..k];
      docs := docs + [ToDoc(namespaces, revisions, items[k])];
    }
    assert items[..|items|] == items;
  }

  // ---- Rebuilding

  function Upserts(docs: seq<PageDoc>): seq<Job> {
    if docs == [] then [] else [Upsert(docs[0])] + Upserts(docs[1..])
  }

  const COUNT_MAX: nat := 0xFFFF_FFFF_FFFF_FFFF

  // `rebuild_into`, on whatever the index held before.
  method RebuildInto(before: seq<PageDoc>, docs: seq<PageDoc>) returns (index: seq<PageDoc>, count: nat)
    ensures index == Replay(before, [Rebuild] + Upserts(docs))
    ensures count == if |docs| <= COUNT_MAX then |docs| else COUNT_MAX
  {
    index := [];
    count := 0;
    assert ([Rebuild] + Upserts(docs))[1..] == Upserts(docs);
    assert docs[0..] == docs;
    for k := 0 to |docs|
      invariant Replay(index, Upserts(docs[k..])) == Replay([], Upserts(docs))
      invariant count == if k <= COUNT_MAX then k else COUNT_MAX
    {
      assert docs[k..][0] == docs[k] && docs[k..][1..] == docs[k + 1..];
      assert Upserts(docs[k..])[1..] == Upserts(docs[k + 1..]);
      index := UpsertOn(index, docs[k]);
      count := if count < COUNT_MAX then count + 1 else count;
    }
    assert docs[|docs|..] == [];
  }

  lemma {:induction false} NotTouched(docs: seq<PageDoc>, id: PageId)
    requires !HasId(docs, id)
    ensures !Touched(Upserts(docs), id)
  {
    if docs != [] {
      assert docs[0] in docs;
      assert forall d | d in docs[1..] :: d in docs;
      NotTouched(docs[1..], id);
      TouchedFirst(Upserts(docs), id);
      assert Upserts(docs)[1..] == Upserts(docs[1..]);
    }
  }

  lemma {:induction false} DistinctSurvive(docs: seq<PageDoc>)
    requires DistinctIds(docs)
    ensures Survivors(Upserts(docs)) == docs
  {
    if docs != [] {
      assert Upserts(docs)[1..] == Upserts(docs[1..]);
      forall d | d in docs[1..] ensures d.id != docs[0].id {
        var k :| 0 <= k < |docs[1..]| && docs[1..][k] == d;
        assert docs[k + 1] == d;
      }
      NotTouched(docs[1..], docs[0].id);
      assert DistinctIds(docs[1..]);
      DistinctSurvive(docs[1..]);
    }
  }

  // A rebuild from pages with distinct ids leaves exactly their documents, in
  // order, whatever the index held.
  lemma RebuildIsExact(before: seq<PageDoc>, docs: seq<PageDoc>)
    requires DistinctIds(docs)
    ensures Replay(before, [Rebuild] + Upserts(docs)) == docs
  {
    assert ([Rebuild] + Upserts(docs))[1..] == Upserts(docs);
    ReplayIsLastWriterWins([], Upserts(docs));
    DistinctSurvive(docs);
  }

  predicate DistinctPages(rows: seq<Page>) {
    forall i, j | 0 <= i < j < |rows| :: rows[i].id != rows[j].id
  }

  lemma {:induction false} DocsKeepIds(namespaces: seq<Namespace>, revisions: map<string, string>, rows: seq<Page>)
    ensures var docs := ToDocs(namespaces, revisions, rows);
      |docs| == |rows| && forall k | 0 <= k < |rows| :: docs[k] == ToDoc(namespaces, revisions, rows[k])
  {
    if rows != [] {
      DocsKeepIds(namespaces, revisions, rows[..|rows| - 1]);
    }
  }

  // What the index has to hold for a page: its fields, the body of its head
  // revision if that exists, and the name of the namespace it is in.
  predicate DocumentOf(d: PageDoc, p: Page, namespaces: seq<Namespace>, revisions: map<string, string>) {
    && d.id == p.id && d.slug == p.slug && d.title == p.title && d.updatedAt == p.updatedAt && d.tags == []
    && d.namespaceId == p.namespaceId
    && (forall r | p.revision == Some(r) && r in revisions :: d.body == revisions[r])
    && ((p.revision.Some? ==> p.revision.value !in revisions) ==> d.body == "")
    && (forall n | 0 <= n < |namespaces| && LastWithId(namespaces, n, p.namespaceId) ::
          d.namespaceSlug == namespaces[n].slug && d.isTalk == namespaces[n].isTalk)
    && ((forall n | 0 <= n < |namespaces| :: namespaces[n].id != p.namespaceId) ==> d.namespaceSlug == "" && !d.isTalk)
  }

  predicate LastWithId(namespaces: seq<Namespace>, n: nat, id: nat)
    requires n < |namespaces|
  {
    namespaces[n].id == id && forall m | n < m < |namespaces| :: namespaces[m].id != id
  }

  lemma {:induction false} SlugOfLast(namespaces: seq<Namespace>, id: nat, n: nat)
    requires n < |namespaces| && LastWithId(namespaces, n, id)
    ensures SlugOfNamespace(namespaces, id) == (namespaces[n].slug, namespaces[n].isTalk)
  {
    var last := |namespaces| - 1;
    if n < last {
      assert namespaces[last].id != id;
      SlugOfLast(namespaces[..last], id, n);
    }
  }

  lemma {:induction false} SlugOfNone(namespaces: seq<Namespace>, id: nat)
    requires forall n | 0 <= n < |namespaces| :: namespaces[n].id != id
    ensures SlugOfNamespace(namespaces, id) == ("", false)
  {
    if namespaces != [] {
      SlugOfNone(namespaces[..|namespaces| - 1], id);
    }
  }

  lemma ToDocIsDocument(namespaces: seq<Namespace>, revisions: map<string, string>, p: Page)
    ensures DocumentOf(ToDoc(namespaces, revisions, p), p, namespaces, revisions)
  {
    hide SlugOfNamespace, LastWithId;
    forall n | 0 <= n < |namespaces| && LastWithId(namespaces, n, p.namespaceId)
      ensures SlugOfNamespace(namespaces, p.namespaceId) == (namespaces[n].slug, namespaces[n].isTalk)
    {
      SlugOfLast(namespaces, p.namespaceId, n);
    }
    if forall n | 0 <= n < |namespaces| :: namespaces[n].id != p.namespaceId {
      SlugOfNone(namespaces, p.namespaceId);
    }
  }

  // Page ids are unique over all namespaces.
  ghost predicate DistinctRows(rows: map<nat, seq<Page>>, namespaces: seq<Namespace>) {
    forall n, k, p, n', k', p' | RowAt(rows, namespaces, n, k, p) && RowAt(rows, namespaces, n', k', p') && p.id == p'.id ::
      n == n' && k == k'
  }

  // One document for every stored page of every namespace, in order, and no others.
  ghost predicate HoldsStorage(index: seq<PageDoc>, rows: map<nat, seq<Page>>, namespaces: seq<Namespace>,
                               revisions: map<string, string>) {
    && DistinctIds(index) && |index| == RowsBefore(rows, namespaces, |namespaces|)
    && (forall n, k, p | RowAt(rows, namespaces, n, k, p) :: HoldsAt(index, rows, namespaces, revisions, n, k, p))
    && (forall d | d in index :: ComesFromARow(d, rows, namespaces, revisions))
  }

  predicate HoldsAt(index: seq<PageDoc>, rows: map<nat, seq<Page>>, namespaces: seq<Namespace>,
                    revisions: map<string, string>, n: nat, k: nat, p: Page)
  {
    n < |namespaces| &&
    var i := RowsBefore(rows, namespaces, n) + k; i < |index| && DocumentOf(index[i], p, namespaces, revisions)
  }

  ghost predicate ComesFromARow(d: PageDoc, rows: map<nat, seq<Page>>, namespaces: seq<Namespace>,
                                revisions: map<string, string>) {
    exists n, k, p :: RowAt(rows, namespaces, n, k, p) && DocumentOf(d, p, namespaces, revisions)
  }

  lemma RowsAreDistinct(rows: map<nat, seq<Page>>, namespaces: seq<Namespace>)
    requires DistinctRows(rows, namespaces)
    ensures DistinctPages(AllRows(rows, namespaces))
  {
    hide AllRows, RowsBefore, RowAt;
    var all := AllRows(rows, namespaces);
    forall i, j | 0 <= i < j < |all| ensures all[i].id != all[j].id {
      var n, k := RowOf(rows, namespaces, i);
      var n', k' := RowOf(rows, namespaces, j);
    }
  }

  lemma {:induction false} DocsAreOfRows(namespaces: seq<Namespace>, revisions: map<string, string>,
                                         rows: map<nat, seq<Page>>, docs: seq<PageDoc>)
    requires DistinctRows(rows, namespaces) && docs == ToDocs(namespaces, revisions, AllRows(rows, namespaces))
    ensures HoldsStorage(docs, rows, namespaces, revisions)
  {
    hide AllRows, RowsBefore, ToDocs, ToDoc, RowAt, DocumentOf;
    var all := AllRows(rows, namespaces);
    DocsKeepIds(namespaces, revisions, all);
    AllRowsCount(rows, namespaces);
    RowsAreDistinct(rows, namespaces);
    forall i | 0 <= i < |all| ensures DocumentOf(docs[i], all[i], namespaces, revisions) && docs[i].id == all[i].id {
      ToDocIsDocument(namespaces, revisions, all[i]);
      SameId(docs[i], all[i], namespaces, revisions);
    }
    forall n, k, p | RowAt(rows, namespaces, n, k, p) ensures HoldsAt(docs, rows, namespaces, revisions, n, k, p) {
      RowIsCollected(rows, namespaces, n, k, p);
      InANamespace(rows, namespaces, n, k, p);
    }
    forall d | d in docs ensures ComesFromARow(d, rows, namespaces, revisions) {
      var i :| 0 <= i < |docs| && docs[i] == d;
      var n, k := RowOf(rows, namespaces, i);
    }
  }

  lemma SameId(d: PageDoc, p: Page, namespaces: seq<Namespace>, revisions: map<string, string>)
    requires DocumentOf(d, p, namespaces, revisions)
    ensures d.id == p.id
  {
  }

  lemma InANamespace(rows: map<nat, seq<Page>>, namespaces: seq<Namespace>, n: nat, k: nat, p: Page)
    requires RowAt(rows, namespaces, n, k, p)
    ensures n < |namespaces|
  {
  }

  // The reindex command, whatever the index held: over any backend that honours
  // the cursor contract, every stored page of every namespace has exactly one
  // document, made from it.
  method ReindexAll(list: Lister, namespaces: seq<Namespace>, revisions: map<string, string>, before: seq<PageDoc>,
                    ghost rows: map<nat, seq<Page>>, ghost pos: map<nat, map<Cursor, nat>>)
    returns (index: seq<PageDoc>, count: nat)
    requires forall ns | ns in namespaces :: ns.id in rows && ns.id in pos && Contract(list, ns.id, rows[ns.id], pos[ns.id])
    requires DistinctRows(rows, namespaces)
    ensures HoldsStorage(index, rows, namespaces, revisions)
    ensures |index| <= COUNT_MAX ==> count == |index|
  {
    hide Contract, DistinctRows, HoldsStorage, Replay, ToDocs, AllRows;
    var docs := CollectDocs(list, namespaces, revisions, rows, pos);
    index, count := RebuildInto(before, docs);
    DocsAreDistinct(docs, rows, namespaces, revisions);
    RebuildIsExact(before, docs);
  }

  lemma DocsAreDistinct(docs: seq<PageDoc>, rows: map<nat, seq<Page>>, namespaces: seq<Namespace>,
                        revisions: map<string, string>)
    requires HoldsStorage(docs, rows, namespaces, revisions)
    ensures DistinctIds(docs)
  {
  }

  // A rebuild from storage leaves one document per stored page and nothing else.
  lemma RebuildFromStorage(before: seq<PageDoc>, namespaces: seq<Namespace>, revisions: map<string, string>, rows: seq<Page>)
    requires DistinctPages(rows)
    ensures var index := Replay(before, [Rebuild] + Upserts(ToDocs(namespaces, revisions, rows)));
      |index| == |rows| && forall k | 0 <= k < |rows| :: index[k] == ToDoc(namespaces, revisions, rows[k])
  {
    DocsKeepIds(namespaces, revisions, rows);
    RebuildIsExact(before, ToDocs(namespaces, revisions, rows));
  }

  // ---- Through the channel

  // The documents whose send was accepted.
  function Kept(docs: seq<PageDoc>, sent: seq<bool>): seq<PageDoc>
    requires |docs| == |sent|
  {
    if docs == [] then []
    else (if sent[0] then [docs[0]] else []) + Kept(docs[1..], sent[1..])
  }

  lemma {:induction false} KeptMembers(docs: seq<PageDoc>, sent: seq<bool>)
    requires |docs| == |sent|
    ensures forall d | d in Kept(docs, sent) :: d in docs
    ensures DistinctIds(docs) ==> DistinctIds(Kept(docs, sent))
    ensures |Kept(docs, sent)| <= |docs|
    ensures |Kept(docs, sent)| == |docs| <==> forall k | 0 <= k < |sent| :: sent[k]
  {
    if docs != [] {
      KeptMembers(docs[1..], sent[1..]);
      var rest := Kept(docs[1..], sent[1..]);
      assert forall k | 0 <= k < |sent[1..]| :: sent[1..][k] == sent[k + 1];
      if DistinctIds(docs) {
        assert DistinctIds(docs[1..]);
        forall d | d in rest ensures d.id != docs[0].id {
          var k :| 0 <= k < |docs[1..]| && docs[1..][k] == d;
          assert docs[k + 1] == d;
        }
      }
    }
  }

  // Streaming the pages through the channel ignores refused sends: the index
  // ends up with the accepted documents, and equals a rebuild exactly when no
  // send was refused.
  lemma StreamIsCompleteIffNothingWasDropped(before: seq<PageDoc>, docs: seq<PageDoc>, sent: seq<bool>)
    requires DistinctIds(docs) && |docs| == |sent|
    ensures var index := Replay(before, [Rebuild] + Upserts(Kept(docs, sent)));
      && index == Kept(docs, sent)
      && (index == Replay(before, [Rebuild] + Upserts(docs)) <==> forall k | 0 <= k < |sent| :: sent[k])
  {
    KeptMembers(docs, sent);
    RebuildIsExact(before, Kept(docs, sent));
    RebuildIsExact(before, docs);
    if forall k | 0 <= k < |sent| :: sent[k] {
      KeptAll(docs, sent);
    }
  }

  lemma {:induction false} KeptAll(docs: seq<PageDoc>, sent: seq<bool>)
    requires |docs| == |sent| && forall k | 0 <= k < |sent| :: sent[k]
    ensures Kept(docs, sent) == docs
  {
    if docs != [] {
      KeptAll(docs[1..], sent[1..]);
    }
  }
}
