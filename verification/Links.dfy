// Wikilinks in the Markdown event stream: how the renderer rewrites them in
// place, and which links it reports, before rendering and by rendering.
module Links {
  import opened Text
  import opened Codecs
  import opened Tags
  import Expander

  // The events this pass tells apart; `Chars` is text or code.
  datatype Event =
    | StartWiki(target: string, pothole: bool)
    | StartLink
    | EndLink
    | Chars(text: string)
    | Html(html: string)
    | Other(tag: string)

  datatype WikiLink = WikiLink(target: string, display: Option<string>)

  predicate IsStart(e: Event) {
    e.StartWiki? || e.StartLink?
  }

  // ---- What belongs together

  // The start still open before `i` that is `m` levels out.
  function OpenStart(es: seq<Event>, i: nat, m: nat): (r: Option<nat>)
    requires i <= |es|
    ensures r.Some? ==> r.value < i && IsStart(es[r.value])
    decreases i
  {
    if i == 0 then None
    else if es[i - 1].EndLink? then OpenStart(es, i - 1, m + 1)
    else if IsStart(es[i - 1]) then if m == 0 then Some(i - 1) else OpenStart(es, i - 1, m - 1)
    else OpenStart(es, i - 1, m)
  }

  // Starts minus ends in `es[i..j]`.
  function Level(es: seq<Event>, i: nat, j: nat): int
    requires i <= j <= |es|
    decreases j
  {
    if i == j then 0
    else Level(es, i, j - 1) + if IsStart(es[j - 1]) then 1 else if es[j - 1].EndLink? then -1 else 0
  }

  // `es[i]` opens a link, `es[j]` ends one, and between them every end has its own start.
  ghost predicate Pairs(es: seq<Event>, i: nat, j: nat) {
    && i < j < |es| && IsStart(es[i]) && es[j].EndLink?
    && Level(es, i + 1, j) == 0 && NeverBelow(es, i + 1, j)
  }

  ghost predicate NeverBelow(es: seq<Event>, from: nat, j: nat)
    requires from <= j <= |es|
  {
    forall k | from <= k <= j :: Level(es, from, k) >= 0
  }

  // The start that the end at `j` belongs to.
  function Partner(es: seq<Event>, j: nat): Option<nat>
    requires j < |es|
  {
    OpenStart(es, j, 0)
  }

  // Text between the start at `i` and the end that closes it, or the end of the stream.
  function Display(es: seq<Event>, i: nat, depth: int): string
    requires i <= |es|
    decreases |es| - i
  {
    if i == |es| then ""
    else if IsStart(es[i]) then Display(es, i + 1, depth + 1)
    else if es[i].EndLink? then if depth == 1 then "" else Display(es, i + 1, depth - 1)
    else if es[i].Chars? && depth >= 1 then es[i].text + Display(es, i + 1, depth)
    else Display(es, i + 1, depth)
  }

  // ---- The rewritten stream

  function EscapeAttr(s: string): string {
    Expander.EscapeHtml(s)
  }

  function OpenTag(ns: string, target: string, known: bool): string {
    if known then "<a href=\"/wiki/" + EscapeAttr(ns) + "/" + EscapeAttr(EncodePathSegment(target)) + "\">"
    else
      "<a class=\"redlink\" href=\"/wiki/" + EscapeAttr(ns) + "/" + EscapeAttr(EncodePathSegment(target))
      + "/edit?new=1\" title=\"(missing) " + EscapeAttr(target) + "\">"
  }

  const CLOSE_TAG := "</a>"

  // No resolver: every link counts as existing.
  predicate Resolves(resolver: Option<set<string>>, target: string) {
    resolver.None? || target in resolver.value
  }

  predicate EndsWiki(es: seq<Event>, j: nat)
    requires j < |es|
  {
    es[j].EndLink? && Partner(es, j).Some? && es[Partner(es, j).value].StartWiki?
  }

  function Rewritten(es: seq<Event>, i: nat, ns: string, resolver: Option<set<string>>): Event
    requires i < |es|
  {
    if es[i].StartWiki? then Html(OpenTag(ns, es[i].target, Resolves(resolver, es[i].target)))
    else if EndsWiki(es, i) then Html(CLOSE_TAG)
    else es[i]
  }

  function LinkAt(es: seq<Event>, i: nat): WikiLink
    requires i < |es| && es[i].StartWiki?
  {
    WikiLink(es[i].target, if es[i].pothole then Some(Display(es, i, 0)) else None)
  }

  // One entry per wikilink, in order.
  function Outbound(es: seq<Event>, n: nat): seq<WikiLink>
    requires n <= |es|
  {
    if n == 0 then []
    else Outbound(es, n - 1) + if es[n - 1].StartWiki? then [LinkAt(es, n - 1)] else []
  }

  method CollectDisplay(events: array<Event>, start: nat) returns (out: string)
    requires start <= events.Length
    ensures out == Display(events[..], start, 0)
    ensures forall j | Closes(events[..], start, j) :: out == TextBetween(events[..], start + 1, j)
  {
    forall j | Closes(events[..], start, j) ensures Display(events[..], start, 0) == TextBetween(events[..], start + 1, j) {
      DisplayIsBetween(events[..], start, j);
    }
    hide Closes, TextBetween;
    var depth := 0;
    out := "";
    var i := start;
    while i < events.Length
      invariant start <= i <= events.Length
      invariant out + Display(events[..], i, depth) == Display(events[..], start, 0)
    {
      match events[i] {
        case StartWiki(_, _) => depth := depth + 1;
        case StartLink => depth := depth + 1;
        case EndLink =>
          depth := depth - 1;
          if depth == 0 {
            assert out + "" == out;
            return;
          }
        case Chars(text) =>
          if depth >= 1 {
            assert out + (text + Display(events[..], i + 1, depth)) == out + text + Display(events[..], i + 1, depth);
            out := out + text;
          }
        case Html(_) =>
        case Other(_) =>
      }
      i := i + 1;
    }
    assert out + "" == out;
  }

  // The open links, innermost last: what the pass keeps on its stack.
  ghost predicate StackIs(es: seq<Event>, i: nat, stack: seq<bool>, starts: seq<nat>) {
    && i <= |es| && |stack| == |starts|
    && (forall k | 0 <= k < |starts| :: starts[k] < i && IsStart(es[starts[k]]) && (stack[k] <==> es[starts[k]].StartWiki?))
    && (forall m: nat :: OpenStart(es, i, m) == if m < |starts| then Some(starts[|starts| - 1 - m]) else None)
  }

  lemma Pushed(es: seq<Event>, i: nat, stack: seq<bool>, starts: seq<nat>)
    requires StackIs(es, i, stack, starts) && i < |es| && IsStart(es[i])
    ensures StackIs(es, i + 1, stack + [es[i].StartWiki?], starts + [i]) && !EndsWiki(es, i)
  {
    var more := starts + [i];
    var next := i + 1;
    forall m: nat ensures OpenStart(es, next, m) == if m < |more| then Some(more[|more| - 1 - m]) else None {
      if m > 0 {
        assert OpenStart(es, next, m) == OpenStart(es, i, m - 1);
      }
    }
  }

  lemma Popped(es: seq<Event>, i: nat, stack: seq<bool>, starts: seq<nat>)
    requires StackIs(es, i, stack, starts) && i < |es| && es[i].EndLink?
    ensures stack != [] ==> StackIs(es, i + 1, stack[..|stack| - 1], starts[..|starts| - 1])
    ensures stack == [] ==> StackIs(es, i + 1, [], [])
    ensures EndsWiki(es, i) <==> stack != [] && stack[|stack| - 1]
  {
    var next := i + 1;
    forall m: nat ensures OpenStart(es, next, m) == OpenStart(es, i, m + 1) {
    }
    assert Partner(es, i) == if 0 < |starts| then Some(starts[|starts| - 1]) else None;
  }

  lemma Passed(es: seq<Event>, i: nat, stack: seq<bool>, starts: seq<nat>)
    requires StackIs(es, i, stack, starts) && i < |es| && !IsStart(es[i]) && !es[i].EndLink?
    ensures StackIs(es, i + 1, stack, starts) && !EndsWiki(es, i)
  {
    var next := i + 1;
    forall m: nat
      ensures OpenStart(es, next, m) == if m < |starts| then Some(starts[|starts| - 1 - m]) else None
    {
      assert OpenStart(es, next, m) == OpenStart(es, i, m);
    }
  }

  lemma NothingOpen(es: seq<Event>)
    ensures StackIs(es, 0, [], [])
  {
  }

  // Pass 3, in place.
  method RewriteLinks(events: array<Event>, ns: string, resolver: Option<set<string>>)
    returns (outbound: seq<WikiLink>)
    modifies events
    ensures forall i | 0 <= i < events.Length :: events[i] == Rewritten(old(events[..]), i, ns, resolver)
    ensures forall i | 0 <= i < events.Length :: BecomesRight(old(events[..]), i, ns, resolver, events[i])
    ensures outbound == Outbound(old(events[..]), events.Length)
  {
    hide BecomesRight;
    hide OpenStart, StackIs, Display, OpenTag, EndsWiki, Resolves;
    ghost var es := events[..];
    outbound := [];
    var stack: seq<bool> := [];
    ghost var starts: seq<nat> := [];
    NothingOpen(es);
    for i := 0 to events.Length
      invariant |starts| == |stack| && StackIs(es, i, stack, starts)
      invariant forall k | 0 <= k < i :: events[k] == Rewritten(es, k, ns, resolver)
      invariant forall k | i <= k < events.Length :: events[k] == es[k]
      invariant outbound == Outbound(es, i)
    {
      match events[i] {
        case StartWiki(target, pothole) =>
          var text := CollectDisplay(events, i);
          DisplayAhead(es, events[..], i, 0);
          outbound := outbound + [WikiLink(target, if pothole then Some(text) else None)];
          events[i] := Html(OpenTag(ns, target, Resolves(resolver, target)));
          Pushed(es, i, stack, starts);
          stack := stack + [true];
          starts := starts + [i];
        case StartLink =>
          Pushed(es, i, stack, starts);
          stack := stack + [false];
          starts := starts + [i];
        case EndLink =>
          Popped(es, i, stack, starts);
          if stack != [] {
            if stack[|stack| - 1] {
              events[i] := Html(CLOSE_TAG);
            }
            stack := stack[..|stack| - 1];
            starts := starts[..|starts| - 1];
          }
        case Chars(_) => Passed(es, i, stack, starts);
        case Html(_) => Passed(es, i, stack, starts);
        case Other(_) => Passed(es, i, stack, starts);
      }
    }
    forall i | 0 <= i < events.Length ensures BecomesRight(es, i, ns, resolver, events[i]) {
      RewrittenIsRight(es, i, ns, resolver);
    }
  }

  // The display text only depends on what lies ahead.
  lemma {:induction false} DisplayAhead(a: seq<Event>, b: seq<Event>, i: nat, depth: int)
    requires i <= |a| == |b| && forall k | i <= k < |a| :: a[k] == b[k]
    ensures Display(a, i, depth) == Display(b, i, depth)
    decreases |a| - i
  {
    if i < |a| {
      DisplayAhead(a, b, i + 1, depth);
      DisplayAhead(a, b, i + 1, depth + 1);
      DisplayAhead(a, b, i + 1, depth - 1);
    }
  }

  // ---- Pairing

  // The partner found by counting back is the one start between which and the
  // end the stream is balanced.
  lemma {:induction false} OpenStartBalances(es: seq<Event>, i: nat, j: nat, m: nat)
    requires i < j <= |es| && IsStart(es[i])
    ensures OpenStart(es, j, m) == Some(i) <==>
            Level(es, i + 1, j) == m && NeverBelow(es, i + 1, j)
    decreases j
  {
    if j == i + 1 {
      if m > 0 && i > 0 {
        assert OpenStart(es, j, m) == OpenStart(es, i, m - 1);
      }
    } else {
      var e := es[j - 1];
      if e.EndLink? {
        OpenStartBalances(es, i, j - 1, m + 1);
      } else if IsStart(e) {
        if m == 0 {
          assert Level(es, i + 1, j) == Level(es, i + 1, j - 1) + 1;
        } else {
          OpenStartBalances(es, i, j - 1, m - 1);
        }
      } else {
        OpenStartBalances(es, i, j - 1, m);
      }
    }
  }

  // For every stream: pass 3 puts `</a>` exactly at the ends that pair with a
  // wikilink start, and no end has two starts.
  lemma PartnerIsPair(es: seq<Event>, i: nat, j: nat)
    requires i < |es| && j < |es| && es[j].EndLink?
    ensures Partner(es, j) == Some(i) <==> Pairs(es, i, j)
    ensures EndsWiki(es, j) <==> exists s | 0 <= s < j :: Pairs(es, s, j) && es[s].StartWiki?
  {
    hide OpenStart, Level;
    PairsWithOpen(es, i, j);
    var p := Partner(es, j);
    if p.Some? {
      PairsWithOpen(es, p.value, j);
    }
    if s :| 0 <= s < j && Pairs(es, s, j) && es[s].StartWiki? {
      PairsWithOpen(es, s, j);
    }
  }

  lemma PairsWithOpen(es: seq<Event>, i: nat, j: nat)
    requires i < |es| && j < |es| && es[j].EndLink?
    ensures Partner(es, j) == Some(i) <==> Pairs(es, i, j)
  {
    if i < j && IsStart(es[i]) {
      OpenStartBalances(es, i, j, 0);
      hide Level, OpenStart, NeverBelow;
      if Partner(es, j) == Some(i) {
        assert Pairs(es, i, j);
      }
      if Pairs(es, i, j) {
        assert Partner(es, j) == Some(i);
      }
    }
  }

  function CountStarts(es: seq<Event>, n: nat): nat
    requires n <= |es|
  {
    if n == 0 then 0 else CountStarts(es, n - 1) + if es[n - 1].StartWiki? then 1 else 0
  }

  function CountEnds(es: seq<Event>, n: nat): nat
    requires n <= |es|
  {
    if n == 0 then 0 else CountEnds(es, n - 1) + if EndsWiki(es, n - 1) then 1 else 0
  }

  function OpenWikis(stack: seq<bool>): nat {
    if stack == [] then 0 else OpenWikis(stack[..|stack| - 1]) + if stack[|stack| - 1] then 1 else 0
  }

  lemma {:induction false} StartsAndEnds(es: seq<Event>, n: nat) returns (stack: seq<bool>, starts: seq<nat>)
    requires n <= |es|
    ensures StackIs(es, n, stack, starts)
    ensures CountStarts(es, n) == CountEnds(es, n) + OpenWikis(stack)
  {
    hide StackIs, EndsWiki;
    stack, starts := [], [];
    NothingOpen(es);
    if n > 0 {
      stack, starts := StartsAndEnds(es, n - 1);
      var e := es[n - 1];
      if IsStart(e) {
        Pushed(es, n - 1, stack, starts);
        assert (stack + [e.StartWiki?])[..|stack|] == stack;
        stack, starts := stack + [e.StartWiki?], starts + [n - 1];
      } else if e.EndLink? {
        Popped(es, n - 1, stack, starts);
        if stack != [] {
          SameHeight(es, n - 1, stack, starts);
          stack, starts := stack[..|stack| - 1], starts[..|starts| - 1];
        } else {
          starts := [];
        }
      } else {
        Passed(es, n - 1, stack, starts);
      }
    }
  }

  lemma SameHeight(es: seq<Event>, i: nat, stack: seq<bool>, starts: seq<nat>)
    requires StackIs(es, i, stack, starts)
    ensures |starts| == |stack|
  {
  }

  // When every link is closed, as many `</a>` are written as wikilinks opened.
  lemma ClosedLinksBalance(es: seq<Event>)
    requires OpenStart(es, |es|, 0).None?
    ensures CountEnds(es, |es|) == CountStarts(es, |es|)
  {
    var stack, starts := StartsAndEnds(es, |es|);
    assert |starts| == 0;
  }

  // ---- What pass 3 writes and reports

  function PagePath(ns: string, target: string): string {
    "/wiki/" + ns + "/" + EncodePathSegment(target)
  }

  // Read as a tag, `html` links to an existing page, or offers to create a
  // missing one.
  predicate OpensLink(html: string, ns: string, target: string, known: bool) {
    ReadTag(html) == Some(Tag("a", if known then [Attribute("href", PagePath(ns, target))]
                                   else [Attribute("class", "redlink"),
                                         Attribute("href", PagePath(ns, target) + "/edit?new=1"),
                                         Attribute("title", "(missing) " + target)], ""))
  }

  predicate IsRedlink(html: string) {
    var tag := ReadTag(html); tag.Some? && Attribute("class", "redlink") in tag.value.attributes
  }

  lemma RedlinkIff(html: string, ns: string, target: string, known: bool)
    requires OpensLink(html, ns, target, known)
    ensures IsRedlink(html) <==> !known
  {
    hide ReadTag, PagePath;
    assert "class" != "href" && "title" != "class" by { assert "class"[0] != "href"[0] && "title"[0] != "class"[0]; }
    var tag := ReadTag(html).value;
    if !known {
      assert tag.attributes[0] == Attribute("class", "redlink");
    }
  }

  // Escaping the parts of a path is escaping the path.
  lemma PathIsEscaped(ns: string, target: string)
    ensures "/wiki/" + EscapeAttr(ns) + "/" + EscapeAttr(EncodePathSegment(target)) == EscapeAttr(PagePath(ns, target))
  {
    hide Expander.EscapeHtml, EncodePathSegment;
    var path := EncodePathSegment(target);
    WordsAreWritten();
    EscapeBoth("/wiki/", ns);
    EscapeBoth("/wiki/" + ns, "/");
    EscapeBoth("/wiki/" + ns + "/", path);
  }

  lemma PlainTagReads(ns: string, target: string)
    ensures OpensLink(OpenTag(ns, target, true), ns, target, true)
  {
    PathIsEscaped(ns, target);
    PlainSpelled(EscapeAttr(ns), EscapeAttr(EncodePathSegment(target)));
    hide Expander.EscapeHtml, EncodePathSegment, ReadTag, ReadAttributes, PagePath;
    var path := PagePath(ns, target);
    EndsTag();
    ReadAttribute("a", "href", path, "\">");
    assert " " + "href" + "=\"" == " href=\"" && "<" + "a" == "<a";
    var attributes := " href=\"" + EscapeAttr(path) + "\">";
    assert attributes[0] == ' ';
    ReadName("a", attributes);
    assert [Attribute("href", path)] + [] == [Attribute("href", path)];
  }

  lemma PlainSpelled(a: string, b: string)
    ensures "<a href=\"/wiki/" + a + "/" + b + "\">" == "<a" + (" href=\"" + ("/wiki/" + a + "/" + b) + "\">")
  {
    var h, w := "<a href=\"", "/wiki/";
    assert h + w == "<a href=\"/wiki/" && "<a" + " href=\"" == h;
    Regroup(h, w, a, "/", b);
    Assoc("<a", " href=\"", "/wiki/" + a + "/" + b);
    Assoc("<a", " href=\"" + ("/wiki/" + a + "/" + b), "\">");
  }

  lemma Regroup(h: string, w: string, a: string, x: string, b: string)
    ensures h + w + a + x + b == h + (w + a + x + b)
  {
    Assoc(h, w, a);
    Assoc(h, w + a, x);
    Assoc(h, w + a + x, b);
  }

  lemma RedTagReads(ns: string, target: string)
    ensures OpensLink(OpenTag(ns, target, false), ns, target, false)
  {
    hide Expander.EscapeHtml, EncodePathSegment, ReadTag, RedAttributes, PagePath;
    WordsAreWritten();
    RedTagSpelled(ns, target);
    EscapeBoth(PagePath(ns, target), "/edit?new=1");
    EscapeBoth("(missing) ", target);
    RedReads(PagePath(ns, target) + "/edit?new=1", "(missing) " + target);
  }

  lemma WordsAreWritten()
    ensures EscapeAttr("redlink") == "redlink" && EscapeAttr("/edit?new=1") == "/edit?new=1"
    ensures EscapeAttr("(missing) ") == "(missing) " && EscapeAttr("/wiki/") == "/wiki/" && EscapeAttr("/") == "/"
  {
    hide Expander.EscapeHtml;
    EscapePlain("redlink");
    EscapePlain("/edit?new=1");
    EscapePlain("(missing) ");
    EscapePlain("/wiki/");
    EscapePlain("/");
  }

  lemma RedTagSpelled(ns: string, target: string)
    ensures OpenTag(ns, target, false)
         == "<a" + RedAttributes(EscapeAttr(PagePath(ns, target)) + "/edit?new=1", "(missing) " + EscapeAttr(target))
  {
    hide Expander.EscapeHtml, EncodePathSegment, PagePath, RedAttributes;
    PathIsEscaped(ns, target);
    RedRegrouped(EscapeAttr(ns), EscapeAttr(EncodePathSegment(target)), EscapeAttr(target));
    RedSpelled(EscapeAttr(PagePath(ns, target)), EscapeAttr(target));
  }

  lemma RedReads(path: string, title: string)
    ensures ReadTag("<a" + RedAttributes(EscapeAttr(path), EscapeAttr(title)))
         == Some(Tag("a", [Attribute("class", "redlink"), Attribute("href", path), Attribute("title", title)], ""))
  {
    hide Expander.EscapeHtml, ReadTag, ReadAttributes;
    WordsAreWritten();
    RedWritten(path, title);
    var second := "\" href=\"" + EscapeAttr(path) + TitleWritten(title);
    ReadAttribute("a", "class", "redlink", second);
    assert " " + "class" + "=\"" == " class=\"" && "<" + "a" == "<a";
    var attributes := RedAttributes(EscapeAttr(path), EscapeAttr(title));
    assert attributes == " class=\"" + "redlink" + second;
    assert attributes[0] == ' ';
    ReadName("a", attributes);
    assert [Attribute("class", "redlink")] + [Attribute("href", path), Attribute("title", title)]
        == [Attribute("class", "redlink"), Attribute("href", path), Attribute("title", title)];
  }

  function TitleWritten(title: string): string {
    "\" title=\"" + EscapeAttr(title) + "\">"
  }

  lemma RedWritten(path: string, title: string)
    ensures var s := "\" href=\"" + EscapeAttr(path) + TitleWritten(title);
      && s != "" && s[0] == '"'
      && ReadAttributes("a", s[1..]) == Some(Tag("a", [Attribute("href", path), Attribute("title", title)], ""))
  {
    hide Expander.EscapeHtml, ReadAttributes;
    assert "\"" + (" " + "title" + "=\"") == "\" title=\"" && "\"" + (" " + "href" + "=\"") == "\" href=\"";
    EndsTag();
    ReadBehind("a", "\" title=\"", "title", title, "\">");
    ReadBehind("a", "\" href=\"", "href", path, TitleWritten(title));
    var t := [Attribute("title", title)];
    assert t + [] == t && [Attribute("href", path)] + t == [Attribute("href", path), Attribute("title", title)];
  }

  lemma EndsTag()
    ensures ReadAttributes("a", "\">"[1..]) == Some(Tag("a", [], ""))
  {
    hide ReadAttributes;
    assert "\">"[1..] == ">" && ">"[1..] == "";
    ReadEnd("a", ">");
  }

  // The attributes of a redlink, written.
  function RedAttributes(path: string, title: string): string {
    " class=\"" + "redlink" + ("\" href=\"" + path + ("\" title=\"" + title + "\">"))
  }

  lemma RedSpelled(path: string, target: string)
    ensures "<a class=\"redlink\" href=\"" + (path + "/edit?new=1") + ("\" title=\"" + ("(missing) " + target) + "\">")
         == "<a" + RedAttributes(path + "/edit?new=1", "(missing) " + target)
  {
    var x := path + "/edit?new=1";
    var rest := "\" title=\"" + ("(missing) " + target) + "\">";
    assert "<a" + " class=\"" + "redlink" + "\" href=\"" == "<a class=\"redlink\" href=\"";
    Assoc("\" href=\"", x, rest);
    Assoc(" class=\"" + "redlink", "\" href=\"", x + rest);
    Assoc("<a", " class=\"" + "redlink" + "\" href=\"", x + rest);
    Assoc("<a" + (" class=\"" + "redlink" + "\" href=\""), x, rest);
    assert "<a" + (" class=\"" + "redlink" + "\" href=\"") == "<a class=\"redlink\" href=\"";
  }

  lemma RedRegrouped(a: string, b: string, c: string)
    ensures "<a class=\"redlink\" href=\"/wiki/" + a + "/" + b + "/edit?new=1\" title=\"(missing) " + c + "\">"
         == "<a class=\"redlink\" href=\"" + ("/wiki/" + a + "/" + b + "/edit?new=1")
            + ("\" title=\"" + ("(missing) " + c) + "\">")
  {
    var h, w, e, t, m, end := "<a class=\"redlink\" href=\"", "/wiki/", "/edit?new=1", "\" title=\"", "(missing) ", "\">";
    assert h + w == "<a class=\"redlink\" href=\"/wiki/" && e + (t + m) == "/edit?new=1\" title=\"(missing) ";
    var p := w + a + "/" + b;
    Regroup(h, w, a, "/", b);
    Assoc(h, p, e + (t + m));
    Assoc(p, e, t + m);
    Assoc(h, p + e, t + m);
    var front := h + (p + e);
    Assoc(front, t + m, c);
    Assoc(t, m, c);
    Assoc(front, t + (m + c), end);
  }

  ghost predicate ClosesWiki(es: seq<Event>, j: nat) {
    exists i | 0 <= i < j :: Pairs(es, i, j) && es[i].StartWiki?
  }

  // What the event at `i` has to become.
  ghost predicate BecomesRight(es: seq<Event>, i: nat, ns: string, resolver: Option<set<string>>, e: Event)
    requires i < |es|
  {
    match es[i]
    case StartWiki(target, _) => e.Html? && OpensLink(e.html, ns, target, resolver.Some? ==> target in resolver.value)
    case EndLink => e == if ClosesWiki(es, i) then Html("</a>") else EndLink
    case _ => e == es[i]
  }

  lemma RewrittenIsRight(es: seq<Event>, i: nat, ns: string, resolver: Option<set<string>>)
    requires i < |es|
    ensures BecomesRight(es, i, ns, resolver, Rewritten(es, i, ns, resolver))
  {
    hide OpensLink, OpenTag, Partner, Pairs, EndsWiki;
    if es[i].StartWiki? {
      PlainTagReads(ns, es[i].target);
      RedTagReads(ns, es[i].target);
    } else if es[i].EndLink? {
      PartnerIsPair(es, i, i);
    } else {
      NoEnd(es, i);
    }
  }

  lemma NoEnd(es: seq<Event>, i: nat)
    requires i < |es| && !es[i].EndLink?
    ensures !EndsWiki(es, i)
  {
  }

  // The text and code among the events from `i` to `j`.
  function TextBetween(es: seq<Event>, i: nat, j: nat): string
    requires i <= j <= |es|
    decreases j - i
  {
    if i == j then ""
    else if es[i].Chars? then es[i].text + TextBetween(es, i + 1, j)
    else TextBetween(es, i + 1, j)
  }

  // `j` is the end that pairs with the start at `i`, or the end of the stream if there is none.
  ghost predicate Closes(es: seq<Event>, i: nat, j: nat) {
    && i < j <= |es| && IsStart(es[i]) && NeverBelow(es, i + 1, j)
    && (j < |es| ==> es[j].EndLink? && Level(es, i + 1, j) == 0)
  }

  // The display text is what stands between a start and the end that pairs with it.
  lemma DisplayIsBetween(es: seq<Event>, i: nat, j: nat)
    requires Closes(es, i, j)
    ensures Display(es, i, 0) == TextBetween(es, i + 1, j)
  {
    assert Level(es, i + 1, i + 1) == 0;
    DisplayFrom(es, i, i + 1, j);
  }

  lemma {:induction false} DisplayFrom(es: seq<Event>, i: nat, k: nat, j: nat)
    requires Closes(es, i, j) && i < k <= j
    ensures Display(es, k, Level(es, i + 1, k) + 1) == TextBetween(es, k, j)
    decreases j - k
  {
    if k < j {
      DisplayFrom(es, i, k + 1, j);
      LevelAt(es, i, k);
      assert Level(es, i + 1, k) >= 0 && Level(es, i + 1, k + 1) >= 0;
      hide Level, NeverBelow;
    }
  }

  lemma LevelAt(es: seq<Event>, i: nat, k: nat)
    requires i < k < |es|
    ensures Level(es, i + 1, k + 1)
         == Level(es, i + 1, k) + if IsStart(es[k]) then 1 else if es[k].EndLink? then -1 else 0
  {
  }

  // The reported links are the wikilinks in order, each with its own target, and
  // with a pothole the text between its start and its end.
  lemma ReportedInOrder(es: seq<Event>, i: nat, j: nat)
    requires i < |es| && es[i].StartWiki? && Closes(es, i, j)
    ensures |Outbound(es, |es|)| == CountStarts(es, |es|) && CountStarts(es, i) < CountStarts(es, |es|)
    ensures Outbound(es, |es|)[CountStarts(es, i)]
         == WikiLink(es[i].target, if es[i].pothole then Some(TextBetween(es, i + 1, j)) else None)
  {
    ReportedAt(es, i, |es|);
    DisplayIsBetween(es, i, j);
  }

  lemma {:induction false} ReportedAt(es: seq<Event>, i: nat, n: nat)
    requires i < n <= |es| && es[i].StartWiki?
    ensures |Outbound(es, n)| == CountStarts(es, n) && CountStarts(es, i) < CountStarts(es, n)
    ensures Outbound(es, n)[CountStarts(es, i)] == LinkAt(es, i)
    decreases n
  {
    hide Display;
    ReportedCount(es, n - 1);
    if i < n - 1 {
      ReportedAt(es, i, n - 1);
    }
  }

  lemma {:induction false} ReportedCount(es: seq<Event>, n: nat)
    requires n <= |es|
    ensures |Outbound(es, n)| == CountStarts(es, n)
  {
    if n > 0 {
      ReportedCount(es, n - 1);
    }
  }

  // ---- The links found before rendering

  // `extract_links`: one open wikilink at a time, ended by the next end of any link.
  function ExtractFrom(es: seq<Event>, i: nat, open: Option<WikiLink>): seq<WikiLink>
    requires i <= |es|
    decreases |es| - i
  {
    if i == |es| then []
    else
      match es[i]
      case StartWiki(target, pothole) =>
        ExtractFrom(es, i + 1, Some(WikiLink(target, if pothole then Some("") else None)))
      case EndLink => (if open.Some? then [open.value] else []) + ExtractFrom(es, i + 1, None)
      case Chars(text) =>
        ExtractFrom(es, i + 1, if open.Some? then Some(AddText(open.value, text)) else None)
      case _ => ExtractFrom(es, i + 1, open)
  }

  function AddText(link: WikiLink, text: string): WikiLink {
    link.(display := if link.display.Some? then Some(link.display.value + text) else None)
  }

  function Extracted(es: seq<Event>): seq<WikiLink> {
    ExtractFrom(es, 0, None)
  }

  method ExtractLinks(es: seq<Event>) returns (out: seq<WikiLink>)
    ensures out == Extracted(es)
  {
    out := [];
    // The renderer keeps the text of every open link and drops it when it has no pothole.
    var open: Option<(string, bool, string)> := None;
    for i := 0 to |es|
      invariant out + ExtractFrom(es, i, Pending(open)) == Extracted(es)
    {
      match es[i]
      case StartWiki(target, pothole) => open := Some((target, pothole, ""));
      case EndLink =>
        if open.Some? {
          var link := WikiLink(open.value.0, if open.value.1 then Some(open.value.2) else None);
          Assoc(out, [link], ExtractFrom(es, i + 1, None));
          out := out + [link];
          open := None;
        } else {
          assert [] + ExtractFrom(es, i + 1, None) == ExtractFrom(es, i + 1, None);
        }
      case Chars(text) =>
        if open.Some? {
          open := Some((open.value.0, open.value.1, open.value.2 + text));
        }
      case StartLink =>
      case Html(_) =>
      case Other(_) =>
    }
  }

  function Pending(open: Option<(string, bool, string)>): Option<WikiLink> {
    if open.Some? then Some(WikiLink(open.value.0, if open.value.1 then Some(open.value.2) else None)) else None
  }

  // Scanning on from `i`: is the next wikilink start or end of a link an end?
  predicate EndsNext(es: seq<Event>, i: nat)
    requires i <= |es|
    decreases |es| - i
  {
    i < |es| && !es[i].StartWiki? && (es[i].EndLink? || EndsNext(es, i + 1))
  }

  // Text up to the next end of any link.
  function TextToEnd(es: seq<Event>, i: nat): string
    requires i <= |es|
    decreases |es| - i
  {
    if i == |es| || es[i].EndLink? then ""
    else if es[i].Chars? then es[i].text + TextToEnd(es, i + 1)
    else TextToEnd(es, i + 1)
  }

  function ShortLinkAt(es: seq<Event>, i: nat): WikiLink
    requires i < |es| && es[i].StartWiki?
  {
    WikiLink(es[i].target, if es[i].pothole then Some(TextToEnd(es, i + 1)) else None)
  }

  // What becomes of the wikilinks from `i` on.
  function KeptFrom(es: seq<Event>, i: nat): seq<WikiLink>
    requires i <= |es|
    decreases |es| - i
  {
    if i == |es| then []
    else (if es[i].StartWiki? && EndsNext(es, i + 1) then [ShortLinkAt(es, i)] else []) + KeptFrom(es, i + 1)
  }

  lemma {:induction false} ExtractKeeps(es: seq<Event>, i: nat, open: Option<WikiLink>)
    requires i <= |es|
    ensures ExtractFrom(es, i, open) == Ending(es, i, open) + KeptFrom(es, i)
    decreases |es| - i
  {
    if i < |es| {
      hide ExtractFrom, KeptFrom, Ending;
      ExtractKeeps(es, i + 1, Later(es[i], open));
      ExtractStep(es, i, open);
    }
  }

  // The entry the open wikilink will give.
  function Ending(es: seq<Event>, i: nat, open: Option<WikiLink>): seq<WikiLink>
    requires i <= |es|
  {
    if open.Some? && EndsNext(es, i) then [AddText(open.value, TextToEnd(es, i))] else []
  }

  lemma AddTextTwice(link: WikiLink, a: string, b: string)
    ensures AddText(AddText(link, a), b) == AddText(link, a + b)
    ensures AddText(link, "") == link
  {
    if link.display.Some? {
      Assoc(link.display.value, a, b);
      assert link.display.value + "" == link.display.value;
    }
  }

  lemma ExtractStep(es: seq<Event>, i: nat, open: Option<WikiLink>)
    requires i < |es|
    requires var later := Later(es[i], open); ExtractFrom(es, i + 1, later) == Ending(es, i + 1, later) + KeptFrom(es, i + 1)
    ensures ExtractFrom(es, i, open) == Ending(es, i, open) + KeptFrom(es, i)
  {
    hide ExtractFrom, KeptFrom, Ending;
    ExtractNext(es, i, open);
    EndingNext(es, i, open);
    if es[i].EndLink? {
      assert [] + KeptFrom(es, i + 1) == KeptFrom(es, i + 1);
    } else if es[i].StartWiki? {
      assert [] + KeptFrom(es, i) == KeptFrom(es, i);
    }
  }

  // The open wikilink behind this event.
  function Later(e: Event, open: Option<WikiLink>): Option<WikiLink> {
    match e
    case StartWiki(target, pothole) => Some(WikiLink(target, if pothole then Some("") else None))
    case EndLink => None
    case Chars(text) => if open.Some? then Some(AddText(open.value, text)) else None
    case _ => open
  }

  lemma ExtractNext(es: seq<Event>, i: nat, open: Option<WikiLink>)
    requires i < |es|
    ensures ExtractFrom(es, i, open)
         == (if es[i].EndLink? && open.Some? then [open.value] else []) + ExtractFrom(es, i + 1, Later(es[i], open))
  {
  }

  lemma EndingNext(es: seq<Event>, i: nat, open: Option<WikiLink>)
    requires i < |es|
    ensures var later := Later(es[i], open); var e := es[i];
      && (e.StartWiki? ==> Ending(es, i, open) == []
                           && KeptFrom(es, i) == Ending(es, i + 1, later) + KeptFrom(es, i + 1))
      && (e.EndLink? ==> Ending(es, i, open) == (if open.Some? then [open.value] else [])
                         && Ending(es, i + 1, later) == [])
      && (!e.StartWiki? ==> KeptFrom(es, i) == KeptFrom(es, i + 1))
      && (!e.StartWiki? && !e.EndLink? ==> Ending(es, i, open) == Ending(es, i + 1, later))
  {
    if open.Some? {
      AddTextTwice(open.value, "", "");
      if es[i].Chars? {
        AddTextTwice(open.value, es[i].text, TextToEnd(es, i + 1));
      }
    }
    if es[i].StartWiki? {
      assert "" + TextToEnd(es, i + 1) == TextToEnd(es, i + 1);
    }
    assert [] + KeptFrom(es, i + 1) == KeptFrom(es, i + 1);
  }

  // ---- Both lists

  // The wikilink at `i` is reported before rendering with the text it has in the end.
  predicate SameLink(es: seq<Event>, i: nat)
    requires i < |es| && es[i].StartWiki?
  {
    EndsNext(es, i + 1) && (es[i].pothole ==> TextToEnd(es, i + 1) == Display(es, i, 0))
  }

  // Some link ends between `i` and `k`, ...
  predicate EndBetween(es: seq<Event>, i: nat, k: nat)
    requires k <= |es|
  {
    exists j | i < j < k :: es[j].EndLink?
  }

  // ... and yet the link at `i` is still open at `k`.
  ghost predicate BehindAnEnd(es: seq<Event>, i: nat, k: nat)
    requires i < k <= |es|
  {
    EndBetween(es, i, k) && NeverBelow(es, i + 1, k)
  }

  ghost predicate NoTextBehind(es: seq<Event>, i: nat, from: nat)
    requires i < from
  {
    forall k | from <= k < |es| && es[k].Chars? && BehindAnEnd(es, i, k) :: es[k].text == ""
  }

  // Some link ends before another wikilink starts; with a pothole, no text of the
  // wikilink at `i` stands behind the first such end.
  ghost predicate Faithful(es: seq<Event>, i: nat)
    requires i < |es| && es[i].StartWiki?
  {
    EndsNext(es, i + 1) && (es[i].pothole ==> NoTextBehind(es, i, i + 1))
  }

  ghost predicate AllFaithful(es: seq<Event>) {
    forall i | 0 <= i < |es| && es[i].StartWiki? :: Faithful(es, i)
  }

  lemma NoTextStep(es: seq<Event>, i: nat, j: nat)
    requires i < j < |es|
    ensures NoTextBehind(es, i, j) <==>
            (es[j].Chars? && BehindAnEnd(es, i, j) ==> es[j].text == "") && NoTextBehind(es, i, j + 1)
  {
    hide BehindAnEnd;
  }

  lemma EndBetweenStep(es: seq<Event>, i: nat, j: nat)
    requires i < j < |es|
    ensures EndBetween(es, i, j + 1) <==> EndBetween(es, i, j) || es[j].EndLink?
  {
  }

  lemma LevelStep(es: seq<Event>, i: nat, j: nat)
    requires i < j < |es| && NeverBelow(es, i + 1, j)
    ensures Level(es, i + 1, j + 1)
         == Level(es, i + 1, j) + if IsStart(es[j]) then 1 else if es[j].EndLink? then -1 else 0
    ensures NeverBelow(es, i + 1, j + 1) <==> Level(es, i + 1, j + 1) >= 0
  {
  }

  lemma ClosedForGood(es: seq<Event>, i: nat, j: nat)
    requires i < j < |es| && Level(es, i + 1, j + 1) < 0
    ensures NoTextBehind(es, i, j + 1)
  {
    forall k | j + 1 <= k < |es| ensures !BehindAnEnd(es, i, k) {
    }
  }

  // Reading on from `j` inside the wikilink at `i`.
  lemma {:induction false} TextIsDisplay(es: seq<Event>, i: nat, j: nat)
    requires i < j <= |es| && NeverBelow(es, i + 1, j)
    ensures var d := Level(es, i + 1, j) + 1;
      && (EndBetween(es, i, j) ==> (Display(es, j, d) == "" <==> NoTextBehind(es, i, j)))
      && (!EndBetween(es, i, j) && EndsNext(es, j) ==>
            (Display(es, j, d) == TextToEnd(es, j) <==> NoTextBehind(es, i, j)))
    decreases |es| - j
  {
    if j < |es| {
      hide Level, NeverBelow, NoTextBehind, EndBetween;
      NoTextStep(es, i, j);
      EndBetweenStep(es, i, j);
      LevelStep(es, i, j);
      DepthIsPositive(es, i, j);
      if Level(es, i + 1, j + 1) >= 0 {
        TextIsDisplay(es, i, j + 1);
        if es[j].Chars? {
          Cancel(es[j].text, Display(es, j + 1, Level(es, i + 1, j) + 1), TextToEnd(es, j + 1));
        }
      } else {
        ClosedForGood(es, i, j);
      }
    }
  }

  lemma DepthIsPositive(es: seq<Event>, i: nat, j: nat)
    requires i < j <= |es| && NeverBelow(es, i + 1, j)
    ensures Level(es, i + 1, j) >= 0
  {
  }

  lemma Cancel(a: string, x: string, y: string)
    ensures a + x == a + y <==> x == y
    ensures a + x == "" <==> a == "" && x == ""
  {
    if a + x == a + y {
      assert (a + x)[|a|..] == x && (a + y)[|a|..] == y;
    }
  }

  lemma FaithfulIsSame(es: seq<Event>, i: nat)
    requires i < |es| && es[i].StartWiki?
    ensures Faithful(es, i) <==> SameLink(es, i)
  {
    assert !EndBetween(es, i, i + 1) && Level(es, i + 1, i + 1) == 0;
    TextIsDisplay(es, i, i + 1);
  }

  // `Outbound`, from the front.
  function OutboundFrom(es: seq<Event>, i: nat): seq<WikiLink>
    requires i <= |es|
    decreases |es| - i
  {
    if i == |es| then []
    else (if es[i].StartWiki? then [LinkAt(es, i)] else []) + OutboundFrom(es, i + 1)
  }

  lemma {:induction false} OutboundIs(es: seq<Event>, i: nat)
    requires i <= |es|
    ensures Outbound(es, |es|) == Outbound(es, i) + OutboundFrom(es, i)
    decreases |es| - i
  {
    if i < |es| {
      OutboundIs(es, i + 1);
      var link := if es[i].StartWiki? then [LinkAt(es, i)] else [];
      Assoc(Outbound(es, i), link, OutboundFrom(es, i + 1));
    } else {
      assert Outbound(es, i) + [] == Outbound(es, i);
    }
  }

  lemma {:induction false} SameFrom(es: seq<Event>, i: nat)
    requires i <= |es|
    ensures |KeptFrom(es, i)| <= |OutboundFrom(es, i)|
    ensures KeptFrom(es, i) == OutboundFrom(es, i) <==>
            forall k | i <= k < |es| && es[k].StartWiki? :: SameLink(es, k)
    decreases |es| - i
  {
    hide Display, TextToEnd, EndsNext;
    if i < |es| {
      SameFrom(es, i + 1);
      var x, y := KeptFrom(es, i + 1), OutboundFrom(es, i + 1);
      assert [] + x == x && [] + y == y;
      if es[i].StartWiki? {
        assert SameLink(es, i) <==> EndsNext(es, i + 1) && ShortLinkAt(es, i) == LinkAt(es, i);
        SameHeads(ShortLinkAt(es, i), LinkAt(es, i), x, y);
      }
    }
  }

  lemma SameHeads(a: WikiLink, b: WikiLink, x: seq<WikiLink>, y: seq<WikiLink>)
    ensures [a] + x == [b] + y <==> a == b && x == y
    ensures |x| <= |y| ==> [] + x != [b] + y
  {
    if [a] + x == [b] + y {
      assert ([a] + x)[0] == a && ([a] + x)[1..] == x && ([b] + y)[0] == b && ([b] + y)[1..] == y;
    }
    assert |[] + x| == |x|;
  }

  // For every stream: the links found before rendering are the links the
  // renderer reports exactly when after each wikilink some link ends before
  // another wikilink starts, and no text of a wikilink with a pothole stands
  // behind the first such end.
  lemma ExtractedIsOutboundIff(es: seq<Event>)
    ensures Extracted(es) == Outbound(es, |es|) <==> AllFaithful(es)
  {
    ExtractKeeps(es, 0, None);
    OutboundIs(es, 0);
    SameFrom(es, 0);
    forall i | 0 <= i < |es| && es[i].StartWiki? ensures Faithful(es, i) <==> SameLink(es, i) {
      FaithfulIsSame(es, i);
    }
    assert [] + KeptFrom(es, 0) == KeptFrom(es, 0);
    assert [] + OutboundFrom(es, 0) == OutboundFrom(es, 0);
  }

  // A wikilink in a wikilink: only the inner one is found before rendering.
  lemma NestedLinkIsDropped()
    ensures var es := [StartWiki("A", false), StartWiki("B", false), EndLink, EndLink];
      && Extracted(es) == [WikiLink("B", None)]
      && Outbound(es, |es|) == [WikiLink("A", None), WikiLink("B", None)]
  {
    var es := [StartWiki("A", false), StartWiki("B", false), EndLink, EndLink];
    var b := WikiLink("B", None);
    assert ExtractFrom(es, 4, None) == [];
    assert ExtractFrom(es, 3, None) == [] + [] == [];
    assert ExtractFrom(es, 2, Some(b)) == [b] + [] == [b];
    assert ExtractFrom(es, 1, Some(WikiLink("A", None))) == [b];
    assert Outbound(es, 1) == Outbound(es, 0) + [LinkAt(es, 0)] == [WikiLink("A", None)];
    assert Outbound(es, 2) == Outbound(es, 1) + [LinkAt(es, 1)];
    assert Outbound(es, 3) == Outbound(es, 2) + [];
  }

  // No link starts inside a wikilink, and every wikilink is closed.
  predicate ClosedFlat(es: seq<Event>, i: nat)
    requires i <= |es|
    decreases |es| - i
  {
    i < |es| && !IsStart(es[i]) && (es[i].EndLink? || ClosedFlat(es, i + 1))
  }

  lemma {:induction false} FlatIsFaithful(es: seq<Event>, i: nat)
    requires i <= |es| && ClosedFlat(es, i)
    ensures EndsNext(es, i) && TextToEnd(es, i) == Display(es, i, 1)
    decreases |es| - i
  {
    if !es[i].EndLink? {
      FlatIsFaithful(es, i + 1);
    }
  }

  lemma FlatLink(es: seq<Event>, i: nat)
    requires i < |es| && es[i].StartWiki? && ClosedFlat(es, i + 1)
    ensures Faithful(es, i)
  {
    FlatIsFaithful(es, i + 1);
    FaithfulIsSame(es, i);
  }

  // In particular they agree when links do not nest in wikilinks.
  lemma FlatLinksAgree(es: seq<Event>)
    requires forall i | 0 <= i < |es| && es[i].StartWiki? :: ClosedFlat(es, i + 1)
    ensures Extracted(es) == Outbound(es, |es|)
  {
    hide Faithful, ClosedFlat, Extracted, Outbound;
    forall i | 0 <= i < |es| && es[i].StartWiki? ensures Faithful(es, i) {
      FlatLink(es, i);
    }
    ExtractedIsOutboundIff(es);
  }
}
