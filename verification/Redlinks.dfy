// Redlinks: whether the link resolver built before rendering makes the renderer
// show as missing exactly the links whose pages do not exist.
module Redlinks {
  import opened Text
  import opened Links

  // ---- The link resolver

  // Targets that are looked up and exist; `pages` are the slugs in the namespace.
  function KnownTargets(links: seq<WikiLink>, pages: set<string>): set<string> {
    set link | link in links && link.target != "" && link.target in pages :: link.target
  }

  method BuildResolver(links: seq<WikiLink>, pages: set<string>) returns (known: set<string>)
    ensures known == KnownTargets(links, pages)
  {
    known := {};
    var seen: set<string> := {};
    for k := 0 to |links|
      invariant seen == set link | link in links[..k] && link.target != "" :: link.target
      invariant known == KnownTargets(links[..k], pages)
    {
      var target := links[k].target;
      assert links[..k + 1] == links[..k] + [links[k]];
      if target != "" && target !in seen {
        seen := seen + {target};
        if target in pages {
          known := known + {target};
        }
      }
    }
    assert links[..|links|] == links;
  }

  // What pass 3 makes of the event at `i` of `es` when the resolver was built from
  // the stream `scanned`: the text before templates are expanded.
  function Shown(scanned: seq<Event>, es: seq<Event>, i: nat, ns: string, pages: set<string>): Event
    requires i < |es|
  {
    Rewritten(es, i, ns, Some(KnownTargets(Extracted(scanned), pages)))
  }

  // The tag of the wikilink at `i` is a redlink exactly when its page is missing.
  predicate ShownRight(scanned: seq<Event>, es: seq<Event>, i: nat, ns: string, pages: set<string>)
    requires i < |es| && es[i].StartWiki?
  {
    var e := Shown(scanned, es, i, ns, pages); e.Html? && (IsRedlink(e.html) <==> es[i].target !in pages)
  }

  ghost predicate RedlinksAgree(scanned: seq<Event>, es: seq<Event>, ns: string, pages: set<string>) {
    forall i | 0 <= i < |es| && es[i].StartWiki? :: ShownRight(scanned, es, i, ns, pages)
  }

  // The wikilink at `k` is found by the scan before rendering: some link ends
  // before another wikilink starts.
  predicate Survives(es: seq<Event>, k: nat)
    requires k < |es|
  {
    es[k].StartWiki? && EndsNext(es, k + 1)
  }

  // The text before expansion has such a wikilink with this target.
  predicate LookedUp(scanned: seq<Event>, target: string) {
    target != "" && exists k | 0 <= k < |scanned| :: Survives(scanned, k) && scanned[k].target == target
  }

  ghost predicate AllLookedUp(scanned: seq<Event>, es: seq<Event>) {
    forall i | 0 <= i < |es| && es[i].StartWiki? :: LookedUp(scanned, es[i].target)
  }

  lemma {:induction false} KeptTargets(es: seq<Event>, i: nat, target: string)
    requires i <= |es|
    ensures (exists link | link in KeptFrom(es, i) :: link.target == target)
       <==> exists k | i <= k < |es| :: Survives(es, k) && es[k].target == target
    decreases |es| - i
  {
    hide EndsNext, TextToEnd, KeptFrom, Survives;
    KeptStep(es, i);
    if i < |es| {
      KeptTargets(es, i + 1, target);
      if Survives(es, i) {
        HasTarget(ShortLinkAt(es, i), KeptFrom(es, i + 1), target);
      } else {
        assert [] + KeptFrom(es, i + 1) == KeptFrom(es, i + 1);
      }
    }
  }

  lemma KeptStep(es: seq<Event>, i: nat)
    requires i <= |es|
    ensures i == |es| ==> KeptFrom(es, i) == []
    ensures i < |es| ==> KeptFrom(es, i) == (if Survives(es, i) then [ShortLinkAt(es, i)] else []) + KeptFrom(es, i + 1)
    ensures i < |es| && Survives(es, i) ==> es[i].StartWiki? && ShortLinkAt(es, i).target == es[i].target
  {
    hide EndsNext, TextToEnd;
  }

  lemma HasTarget(first: WikiLink, rest: seq<WikiLink>, target: string)
    ensures (exists link | link in [first] + rest :: link.target == target)
       <==> first.target == target || exists link | link in rest :: link.target == target
  {
    assert first in [first] + rest;
    assert forall link | link in rest :: link in [first] + rest;
  }

  lemma ExtractedTargets(es: seq<Event>, target: string)
    ensures (exists link | link in Extracted(es) :: link.target == target)
       <==> exists k | 0 <= k < |es| :: Survives(es, k) && es[k].target == target
  {
    ExtractKeeps(es, 0, None);
    KeptTargets(es, 0, target);
    assert [] + KeptFrom(es, 0) == KeptFrom(es, 0);
  }

  lemma ShownIff(scanned: seq<Event>, es: seq<Event>, i: nat, ns: string, pages: set<string>)
    requires i < |es| && es[i].StartWiki?
    ensures var e := Shown(scanned, es, i, ns, pages);
      e.Html? && (IsRedlink(e.html) <==> !(LookedUp(scanned, es[i].target) && es[i].target in pages))
    ensures ShownRight(scanned, es, i, ns, pages) <==> LookedUp(scanned, es[i].target) || es[i].target !in pages
  {
    hide Extracted, Survives, OpensLink, IsRedlink, Rewritten;
    var resolver := Some(KnownTargets(Extracted(scanned), pages));
    RewrittenIsRight(es, i, ns, resolver);
    RedlinkIff(Rewritten(es, i, ns, resolver).html, ns, es[i].target, es[i].target in resolver.value);
    ExtractedTargets(scanned, es[i].target);
  }

  // For every two streams: the tags written are right for every content of
  // storage exactly when each rendered target is non-empty and the target of a
  // wikilink in the unexpanded text after which some link ends before another
  // starts.
  lemma RedlinksAgreeIff(scanned: seq<Event>, es: seq<Event>, ns: string)
    ensures (forall pages :: RedlinksAgree(scanned, es, ns, pages)) <==> AllLookedUp(scanned, es)
  {
    hide ShownRight, LookedUp;
    forall pages, i | 0 <= i < |es| && es[i].StartWiki?
      ensures ShownRight(scanned, es, i, ns, pages) <==> LookedUp(scanned, es[i].target) || es[i].target !in pages
    {
      ShownIff(scanned, es, i, ns, pages);
    }
    if !AllLookedUp(scanned, es) {
      var i :| 0 <= i < |es| && es[i].StartWiki? && !LookedUp(scanned, es[i].target);
      var pages := {es[i].target};
      assert es[i].target in pages && !ShownRight(scanned, es, i, ns, pages);
      assert !RedlinksAgree(scanned, es, ns, pages);
    }
  }

  // In particular without templates, when links do not nest in wikilinks and
  // targets are not empty.
  lemma FlatRedlinksAgree(es: seq<Event>, ns: string, pages: set<string>)
    requires forall i | 0 <= i < |es| && es[i].StartWiki? :: ClosedFlat(es, i + 1) && es[i].target != ""
    ensures RedlinksAgree(es, es, ns, pages)
  {
    hide RedlinksAgree, Display, TextToEnd, ClosedFlat;
    forall i | 0 <= i < |es| && es[i].StartWiki? ensures LookedUp(es, es[i].target) {
      FlatIsFaithful(es, i + 1);
      assert Survives(es, i);
    }
    RedlinksAgreeIff(es, es, ns);
  }
}
