// The search index as a list of documents: every write is a delete by page id
// followed by an append.
module SearchIndex {
  import opened Text

  type PageId = nat

  datatype PageDoc = PageDoc(id: PageId, namespaceId: nat, namespaceSlug: string, slug: string, title: string,
                             body: string, tags: seq<string>, updatedAt: int, isTalk: bool)

  datatype Job = Upsert(doc: PageDoc) | Delete(id: PageId) | Rebuild

  // `delete_term` on the page id.
  function DeleteOn(docs: seq<PageDoc>, id: PageId): seq<PageDoc> {
    if docs == [] then []
    else (if docs[0].id == id then [] else [docs[0]]) + DeleteOn(docs[1..], id)
  }

  function UpsertOn(docs: seq<PageDoc>, doc: PageDoc): seq<PageDoc> {
    DeleteOn(docs, doc.id) + [doc]
  }

  function Apply(docs: seq<PageDoc>, job: Job): seq<PageDoc> {
    match job
    case Upsert(doc) => UpsertOn(docs, doc)
    case Delete(id) => DeleteOn(docs, id)
    case Rebuild => []
  }

  // The index after `jobs`, started from `docs`.
  function Replay(docs: seq<PageDoc>, jobs: seq<Job>): seq<PageDoc>
    decreases |jobs|
  {
    if jobs == [] then docs else Replay(Apply(docs, jobs[0]), jobs[1..])
  }

  // ---- Last writer wins

  predicate Touches(job: Job, id: PageId) {
    match job
    case Upsert(doc) => doc.id == id
    case Delete(d) => d == id
    case Rebuild => true
  }

  predicate Touched(jobs: seq<Job>, id: PageId) {
    exists k | 0 <= k < |jobs| :: Touches(jobs[k], id)
  }

  // The upserts that no later job touches, in order.
  function Survivors(jobs: seq<Job>): seq<PageDoc> {
    if jobs == [] then []
    else
      (if jobs[0].Upsert? && !Touched(jobs[1..], jobs[0].doc.id) then [jobs[0].doc] else [])
      + Survivors(jobs[1..])
  }

  // The documents no job touches.
  function Untouched(docs: seq<PageDoc>, jobs: seq<Job>): seq<PageDoc> {
    if docs == [] then []
    else (if Touched(jobs, docs[0].id) then [] else [docs[0]]) + Untouched(docs[1..], jobs)
  }

  // The last thing that happened to a page.
  function LastWrite(jobs: seq<Job>, id: PageId): Option<PageDoc> {
    if jobs == [] then None
    else
      var last := jobs[|jobs| - 1];
      if Touches(last, id) then (if last.Upsert? then Some(last.doc) else None)
      else LastWrite(jobs[..|jobs| - 1], id)
  }

  lemma TouchedFirst(jobs: seq<Job>, id: PageId)
    requires jobs != []
    ensures Touched(jobs, id) <==> Touches(jobs[0], id) || Touched(jobs[1..], id)
  {
    forall k | 0 <= k < |jobs[1..]| ensures jobs[1..][k] == jobs[k + 1] {
    }
    if Touched(jobs, id) && !Touches(jobs[0], id) {
      var k :| 0 <= k < |jobs| && Touches(jobs[k], id);
      assert Touches(jobs[1..][k - 1], id);
    }
    if Touched(jobs[1..], id) {
      var k :| 0 <= k < |jobs[1..]| && Touches(jobs[1..][k], id);
      assert Touches(jobs[k + 1], id);
    }
  }

  // Applying one job before the others keeps only what the others leave.
  lemma {:induction false} UntouchedFirst(docs: seq<PageDoc>, jobs: seq<Job>)
    requires jobs != []
    ensures Untouched(Apply(docs, jobs[0]), jobs[1..]) ==
            Untouched(docs, jobs)
            + (if jobs[0].Upsert? && !Touched(jobs[1..], jobs[0].doc.id) then [jobs[0].doc] else [])
  {
    match jobs[0]
    case Upsert(doc) =>
      UntouchedDelete(docs, jobs, doc.id);
      UntouchedAppend(DeleteOn(docs, doc.id), [doc], jobs[1..]);
      assert [doc][1..] == [];
    case Delete(id) =>
      UntouchedDelete(docs, jobs, id);
    case Rebuild =>
      UntouchedNone(docs, jobs);
  }

  lemma {:induction false} UntouchedDelete(docs: seq<PageDoc>, jobs: seq<Job>, id: PageId)
    requires jobs != [] && !jobs[0].Rebuild? && forall other :: Touches(jobs[0], other) <==> other == id
    ensures Untouched(DeleteOn(docs, id), jobs[1..]) == Untouched(docs, jobs)
  {
    if docs != [] {
      TouchedFirst(jobs, docs[0].id);
      UntouchedDelete(docs[1..], jobs, id);
      var kept := DeleteOn(docs, id);
      if docs[0].id != id {
        assert kept == [docs[0]] + DeleteOn(docs[1..], id);
        assert kept[1..] == DeleteOn(docs[1..], id);
      } else {
        assert kept == DeleteOn(docs[1..], id);
      }
    }
  }

  lemma {:induction false} UntouchedNone(docs: seq<PageDoc>, jobs: seq<Job>)
    requires jobs != [] && jobs[0].Rebuild?
    ensures Untouched(docs, jobs) == []
  {
    if docs != [] {
      assert Touches(jobs[0], docs[0].id);
      UntouchedNone(docs[1..], jobs);
    }
  }

  lemma {:induction false} UntouchedAppend(a: seq<PageDoc>, b: seq<PageDoc>, jobs: seq<Job>)
    ensures Untouched(a + b, jobs) == Untouched(a, jobs) + Untouched(b, jobs)
  {
    if a == [] {
      assert a + b == b;
    } else {
      assert (a + b)[1..] == a[1..] + b;
      UntouchedAppend(a[1..], b, jobs);
    }
  }

  lemma {:induction false} UntouchedByNothing(docs: seq<PageDoc>)
    ensures Untouched(docs, []) == docs
  {
    if docs != [] {
      UntouchedByNothing(docs[1..]);
    }
  }

  // Replaying any jobs on any index: the untouched documents, then the upserts
  // nothing overwrote, in order.
  lemma {:induction false} ReplayIsLastWriterWins(docs: seq<PageDoc>, jobs: seq<Job>)
    ensures Replay(docs, jobs) == Untouched(docs, jobs) + Survivors(jobs)
    decreases |jobs|
  {
    hide Untouched, Apply, Touched;
    if jobs == [] {
      UntouchedByNothing(docs);
      assert docs + [] == docs;
    } else {
      var kept := if jobs[0].Upsert? && !Touched(jobs[1..], jobs[0].doc.id) then [jobs[0].doc] else [];
      ReplayIsLastWriterWins(Apply(docs, jobs[0]), jobs[1..]);
      UntouchedFirst(docs, jobs);
      Assoc(Untouched(docs, jobs), kept, Survivors(jobs[1..]));
    }
  }

  // ---- One document per page

  predicate DistinctIds(docs: seq<PageDoc>) {
    forall i, j | 0 <= i < j < |docs| :: docs[i].id != docs[j].id
  }

  predicate HasId(docs: seq<PageDoc>, id: PageId) {
    exists d | d in docs :: d.id == id
  }

  lemma {:induction false} DeleteDeletes(docs: seq<PageDoc>, id: PageId)
    ensures forall d :: d in DeleteOn(docs, id) <==> d in docs && d.id != id
    ensures DistinctIds(docs) ==> DistinctIds(DeleteOn(docs, id))
  {
    if docs != [] {
      DeleteDeletes(docs[1..], id);
      var rest := DeleteOn(docs[1..], id);
      assert forall d | d in rest :: d in docs[1..];
      if DistinctIds(docs) {
        assert DistinctIds(docs[1..]);
        forall d | d in docs[1..] ensures d.id != docs[0].id {
          var k :| 0 <= k < |docs[1..]| && docs[1..][k] == d;
          assert docs[k + 1] == d;
        }
      }
    }
  }

  lemma {:induction false} ReplayKeepsIdsDistinct(docs: seq<PageDoc>, jobs: seq<Job>)
    requires DistinctIds(docs)
    ensures DistinctIds(Replay(docs, jobs))
    decreases |jobs|
  {
    if jobs != [] {
      if jobs[0].Upsert? {
        DeleteDeletes(docs, jobs[0].doc.id);
      } else if jobs[0].Delete? {
        DeleteDeletes(docs, jobs[0].id);
      }
      ReplayKeepsIdsDistinct(Apply(docs, jobs[0]), jobs[1..]);
    }
  }

  lemma {:induction false} ReplayAppend(docs: seq<PageDoc>, a: seq<Job>, b: seq<Job>)
    ensures Replay(docs, a + b) == Replay(Replay(docs, a), b)
    decreases |a|
  {
    if a == [] {
      assert a + b == b;
    } else {
      assert (a + b)[1..] == a[1..] + b;
      ReplayAppend(Apply(docs, a[0]), a[1..], b);
    }
  }

  // A page is in the index with what was last written to it, or not at all.
  lemma {:induction false} IndexHoldsLastWrites(jobs: seq<Job>, d: PageDoc)
    ensures d in Replay([], jobs) <==> LastWrite(jobs, d.id) == Some(d)
    decreases |jobs|
  {
    if jobs != [] {
      var front, last := jobs[..|jobs| - 1], jobs[|jobs| - 1];
      assert jobs == front + [last];
      ReplayAppend([], front, [last]);
      IndexHoldsLastWrites(front, d);
      assert [last][1..] == [];
      assert Replay([], jobs) == Apply(Replay([], front), last);
      if last.Upsert? {
        DeleteDeletes(Replay([], front), last.doc.id);
      } else if last.Delete? {
        DeleteDeletes(Replay([], front), last.id);
      }
    }
  }

  // ---- Replay after a crash

  lemma {:induction false} TouchedAppend(a: seq<Job>, b: seq<Job>, id: PageId)
    ensures Touched(a + b, id) <==> Touched(a, id) || Touched(b, id)
  {
    if Touched(a + b, id) {
      var k :| 0 <= k < |a + b| && Touches((a + b)[k], id);
      if k >= |a| {
        assert b[k - |a|] == (a + b)[k];
      }
    }
    if k :| 0 <= k < |a| && Touches(a[k], id) {
      assert (a + b)[k] == a[k];
    }
    if k :| 0 <= k < |b| && Touches(b[k], id) {
      assert (a + b)[|a| + k] == b[k];
    }
  }

  lemma {:induction false} UntouchedTwice(docs: seq<PageDoc>, a: seq<Job>, b: seq<Job>)
    ensures Untouched(Untouched(docs, a), b) == Untouched(docs, a + b)
  {
    if docs != [] {
      TouchedAppend(a, b, docs[0].id);
      UntouchedTwice(docs[1..], a, b);
      var kept := Untouched(docs, a);
      if !Touched(a, docs[0].id) {
        assert kept[1..] == Untouched(docs[1..], a);
      } else {
        assert kept == Untouched(docs[1..], a);
      }
    }
  }

  // A later copy of some of the jobs leaves none of their first effects.
  lemma {:induction false} SurvivorsOverwritten(a: seq<Job>, b: seq<Job>)
    requires forall k | 0 <= k < |a| :: a[k] in b
    ensures Untouched(Survivors(a), b) == []
    decreases |a|
  {
    if a != [] {
      SurvivorsOverwritten(a[1..], b);
      var first := if a[0].Upsert? && !Touched(a[1..], a[0].doc.id) then [a[0].doc] else [];
      UntouchedAppend(first, Survivors(a[1..]), b);
      if first != [] {
        var k :| 0 <= k < |b| && b[k] == a[0];
        assert Touches(b[k], a[0].doc.id);
        assert Touched(b, first[0].id);
        assert first[1..] == [];
        assert Untouched(first, b) == [];
      }
    }
  }

  lemma {:induction false} UntouchedSameTouch(docs: seq<PageDoc>, a: seq<Job>, b: seq<Job>)
    requires forall id :: Touched(a, id) <==> Touched(b, id)
    ensures Untouched(docs, a) == Untouched(docs, b)
  {
    if docs != [] {
      UntouchedSameTouch(docs[1..], a, b);
    }
  }

  // Replaying jobs that are already in the index changes nothing.
  lemma ReplayTwice(docs: seq<PageDoc>, jobs: seq<Job>)
    ensures Replay(Replay(docs, jobs), jobs) == Replay(docs, jobs)
  {
    hide Replay, Survivors, Untouched, Touched;
    var kept, written := Untouched(docs, jobs), Survivors(jobs);
    ReplayIsLastWriterWins(docs, jobs);
    ReplayIsLastWriterWins(kept + written, jobs);
    UntouchedAppend(kept, written, jobs);
    UntouchedTwice(docs, jobs, jobs);
    forall id ensures Touched(jobs + jobs, id) <==> Touched(jobs, id) {
      TouchedAppend(jobs, jobs, id);
    }
    UntouchedSameTouch(docs, jobs + jobs, jobs);
    SurvivorsOverwritten(jobs, jobs);
    assert kept + [] == kept;
  }

  // For any job log, any commit point and any earlier point: replaying from the
  // earlier point on the committed index gives the index of the whole log, in
  // the same order.
  lemma CrashReplay(docs: seq<PageDoc>, log: seq<Job>, from: nat, committed: nat)
    requires from <= committed <= |log|
    ensures Replay(Replay(docs, log[..committed]), log[from..]) == Replay(docs, log)
  {
    var before, again, after := log[..from], log[from..committed], log[committed..];
    assert log[..committed] == before + again && log[from..] == again + after && log == before + again + after;
    ReplayAppend(docs, before, again);
    ReplayAppend(Replay(docs, log[..committed]), again, after);
    ReplayTwice(Replay(docs, before), again);
    ReplayAppend(docs, log[..committed], after);
  }
}
