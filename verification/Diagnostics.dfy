// What a diagnostic says on the page, and where.
module Diagnostics {
  import opened Text
  import opened Wikitext
  import opened Expander
  import opened Names
  import opened Measured
  import opened Transclusion
  import opened Codecs
  import opened Tags

  // ---- Reading a diagnostic back

  // Read as markup, `html` is one span with this line and column, and with text
  // that reads as this message.
  ghost predicate ShowsError(html: string, message: string, site: Site) {
    var tag := ReadTag(html);
    && tag.Some? && tag.value.name == "span" && |tag.value.attributes| == 3
    && tag.value.attributes[0] == Attribute("class", "template-error")
    && IsNumber(tag.value.attributes[1], "data-line", site.line)
    && IsNumber(tag.value.attributes[2], "data-col", site.col)
    && exists written ::
         && tag.value.rest == "[template error: " + written + "]</span>"
         && MarkupFree(written) && Unescape(written) == message
  }

  predicate IsNumber(a: Attribute, name: string, n: nat) {
    a.name == name && ReadDecimal(a.value) == n
  }

  // Numbers and messages can be read back from every diagnostic, whatever the
  // message contains.
  lemma ErrorReads(m: Message, site: Site)
    ensures ShowsError(RenderError(m, site), MessageText(m), site)
  {
    DecimalReadsBack(site.line);
    DecimalReadsBack(site.col);
    HtmlRoundTrip(MessageText(m));
    hide Decimal, ReadDecimal, MessageText, EscapeHtml, Unescape, ReadTag, MarkupFree;
    SpanReads(site.line, site.col, EscapeHtml(MessageText(m)));
  }

  lemma SpanReads(line: nat, col: nat, written: string)
    ensures ReadTag("<span class=\"template-error\" data-line=\"" + Decimal(line) + "\" data-col=\"" + Decimal(col)
                    + "\">[template error: " + written + "]</span>")
         == Some(Tag("span", [Attribute("class", "template-error"), Attribute("data-line", Decimal(line)),
                              Attribute("data-col", Decimal(col))], "[template error: " + written + "]</span>"))
  {
    NumbersArePlain(line);
    NumbersArePlain(col);
    hide Decimal, EscapeHtml, ReadTag, ReadAttributes;
    SpanSpelled(Decimal(line), Decimal(col), written);
    var end := SpanEnd(written);
    var third := "\" data-col=\"" + Decimal(col) + end;
    var second := "\" data-line=\"" + Decimal(line) + third;
    var attributes := " class=\"" + "template-error" + second;
    LeadsSpelled();
    EndReads(written);
    ReadBehind("span", "\" data-col=\"", "data-col", Decimal(col), end);
    ReadBehind("span", "\" data-line=\"", "data-line", Decimal(line), third);
    ClassIsPlain();
    ReadAttribute("span", "class", "template-error", second);
    assert attributes[0] == ' ';
    ReadName("span", attributes);
    var a, b, c := Attribute("class", "template-error"), Attribute("data-line", Decimal(line)), Attribute("data-col", Decimal(col));
    assert [c] + [] == [c] && [a] + ([b] + [c]) == [a, b, c];
  }

  function SpanEnd(written: string): string {
    "\">[template error: " + written + "]</span>"
  }

  lemma NumbersArePlain(n: nat)
    ensures EscapeHtml(Decimal(n)) == Decimal(n)
  {
    DecimalReadsBack(n);
    hide Decimal, EscapeHtml;
    forall k | 0 <= k < |Decimal(n)| ensures NeedsNoEscape(Decimal(n)[k]) {
      assert Decimal(n)[k] in Decimal(n);
    }
    EscapePlain(Decimal(n));
  }

  lemma ClassIsPlain()
    ensures EscapeHtml("template-error") == "template-error"
  {
    hide EscapeHtml;
    EscapePlain("template-error");
  }

  lemma LeadsSpelled()
    ensures "\"" + (" " + "data-line" + "=\"") == "\" data-line=\"" && "\"" + (" " + "data-col" + "=\"") == "\" data-col=\""
    ensures " " + "class" + "=\"" == " class=\"" && "<" + "span" == "<span"
  {
  }

  lemma EndReads(written: string)
    ensures var end := SpanEnd(written); var rest := "[template error: " + written + "]</span>";
      end != "" && end[0] == '"' && ReadAttributes("span", end[1..]) == Some(Tag("span", [], rest))
  {
    hide ReadAttributes;
    var rest := "[template error: " + written + "]</span>";
    assert "\">" + "[template error: " == "\">[template error: ";
    Assoc("\">", "[template error: ", written);
    Assoc("\">", "[template error: " + written, "]</span>");
    assert ("\">" + rest)[1..] == ">" + rest && (">" + rest)[1..] == rest;
    ReadEnd("span", ">" + rest);
  }

  lemma SpanSpelled(line: string, col: string, written: string)
    ensures "<span class=\"template-error\" data-line=\"" + line + "\" data-col=\"" + col + "\">[template error: " + written + "]</span>"
         == "<span" + (" class=\"" + "template-error" + ("\" data-line=\"" + line + ("\" data-col=\"" + col + SpanEnd(written))))
  {
    HeadSpelled();
    Regrouped("<span", " class=\"" + "template-error", "\" data-line=\"", line, "\" data-col=\"", col,
              "\">[template error: ", written, "]</span>");
  }

  lemma HeadSpelled()
    ensures "<span" + (" class=\"" + "template-error") + "\" data-line=\"" == "<span class=\"template-error\" data-line=\""
  {
    assert " class=\"" + "template-error" == " class=\"template-error";
    assert "<span" + " class=\"template-error" == "<span class=\"template-error";
    assert "<span class=\"template-error" + "\" data-line=\"" == "<span class=\"template-error\" data-line=\"";
  }

  lemma Regrouped(s: string, h: string, l: string, line: string, c: string, col: string, t: string, written: string, e: string)
    ensures s + h + l + line + c + col + t + written + e == s + (h + (l + line + (c + col + (t + written + e))))
  {
    var end := t + written + e;
    var front := s + h + l + line + c + col;
    Assoc(front, t, written);
    Assoc(front, t + written, e);
    Assoc(s + h + l + line, c, col);
    Assoc(s + h + l + line, c + col, end);
    Assoc(s + h, l, line);
    Assoc(s + h, l + line, c + col + end);
    Assoc(s, h, l + line + (c + col + end));
  }

  // ---- The messages, spelled out

  lemma MissingSpelled()
    ensures MessageText(NotFound(Key("Help", "Foo"))) == "template `Help:Foo` not found"
  {
    assert "template `" + "Help" + ":" == "template `Help:";
  }

  lemma NamespaceSpelled()
    ensures MessageText(UnknownNamespace("Hlep")) == "unknown namespace `Hlep`"
  {
  }

  lemma FunctionSpelled()
    ensures MessageText(ParserFunction("if")) == "parser function '#if' is not supported in v1"
  {
    var rest := "' is not supported in v1";
    assert "parser function '#" + "if" == "parser function '#if";
    assert "parser function '#if" + rest == "parser function '#if' is not supported in v1";
  }

  lemma CycleSpelled()
    ensures MessageText(Cycle(["A", "B", "A"])) == "transclusion cycle detected at A -> B -> A"
  {
    var chain, rest := ["A", "B", "A"], ["B", "A"];
    assert chain[1..] == rest && rest[1..] == ["A"];
    ChainSpelled();
    assert Join(rest, " -> ") == "B" + " -> " + "A";
    assert Join(chain, " -> ") == "A" + " -> " + "B -> A";
    hide Join;
    assert MessageText(Cycle(chain)) == "transclusion cycle detected at " + "A -> B -> A";
  }

  lemma ChainSpelled()
    ensures "B" + " -> " + "A" == "B -> A" && "A" + " -> " + "B -> A" == "A -> B -> A"
  {
  }

  lemma LimitSpelled()
    ensures MessageText(Limit(8)) == "recursion limit exceeded (8)"
  {
    assert Decimal(8) == "8";
  }

  // ---- On the page

  // A page that is a text and a call behind it.
  function TextThenCall(before: string, name: string, args: Args): string {
    before + ("{{" + (name + PrintArgs(args)) + "}}")
  }

  lemma PageIsCut(before: string, call: string)
    ensures var page := before + call; page[0..] == before + call && page[|before|..] == call + ""
  {
    var page := before + call;
    assert page[|before|..] == call && call + "" == call;
  }

  lemma PlainThenStep(env: Env, before: string, call: string, text: string)
    requires BraceFree(before) && call != ""
    requires var step := MeantStep(env, before + call, |before|, TOP);
      step.consumed == |call| && step.meaning.status.Settled? && step.meaning.text == text
    ensures Returns(env, before + call, before + text)
  {
    hide Returns, Meant, MeantStep, BraceFree;
    var page := before + call;
    PageIsCut(before, call);
    PlainMeant(env, page, 0, before, call, TOP);
    LastStep(env, page, |before|, TOP);
    PageAgrees(env, page);
  }

  lemma TextThenCallExpands(env: Env, before: string, name: string, args: Args, text: string)
    requires BraceFree(before) && BraceFree(name) && '|' !in name && Trim(name) != "" && WellFormedArgs(args)
    requires var page := TextThenCall(before, name, args); var m := CallMeaning(env, name, args, LineCol(page, |before|), TOP);
      m.status.Settled? && m.text == text
    ensures Returns(env, TextThenCall(before, name, args), before + text)
  {
    hide Returns, Trim, MeantStep, CallMeaning, PrintArgs, WellFormedArgs, LineCol, BraceFree;
    var call := "{{" + (name + PrintArgs(args)) + "}}";
    PageIsCut(before, call);
    CallStep(env, before + call, |before|, name, args, "", TOP);
    PlainThenStep(env, before, call, text);
  }

  // A step that reaches the end of the text.
  lemma LastStep(env: Env, page: string, i: nat, f: Frame)
    requires i < |page| && f.depth <= env.max && MeantStep(env, page, i, f).consumed == |page| - i
    ensures var m, step := Meant(env, page, i, f), MeantStep(env, page, i, f).meaning;
      m.text == step.text && m.status == step.status
  {
    MeantUnfolds(env, page, i, f);
    NothingLeft(env, page, f);
    hide Meant, MeantStep;
    var step := MeantStep(env, page, i, f).meaning;
    assert step.text + "" == step.text;
  }

  // The page expands to its text and a diagnostic that reads as this message and
  // carries the position of the call.
  ghost predicate Shows(env: Env, before: string, name: string, args: Args, m: Message) {
    var page := TextThenCall(before, name, args); var site := LineCol(page, |before|);
    && Returns(env, page, before + RenderError(m, site))
    && ShowsError(RenderError(m, site), MessageText(m), site)
    && Counts(site, page, |before|)
  }

  lemma CallShows(env: Env, before: string, name: string, args: Args, m: Message)
    requires BraceFree(before) && BraceFree(name) && '|' !in name && Trim(name) != "" && WellFormedArgs(args)
    requires forall site :: CallMeaning(env, name, args, site, TOP) == Meaning(RenderError(m, site), Settled, 0)
    ensures Shows(env, before, name, args, m)
  {
    hide ShowsError, Returns, RenderError, Counts, LineCol, PrintArgs, WellFormedArgs, Trim, CallMeaning, BraceFree;
    var page := TextThenCall(before, name, args);
    var site := LineCol(page, |before|);
    LineColCounts(page, |before|);
    ErrorReads(m, site);
    TextThenCallExpands(env, before, name, args, RenderError(m, site));
  }

  // A parser function is refused in the place where it is called.
  lemma ParserFunctionIsRefused(env: Env, before: string, name: string, args: Args)
    requires BraceFree(before) && BraceFree(name) && '|' !in name && ':' !in name && WellFormedArgs(args)
    requires name != "" && name[0] != '#'
    ensures Shows(env, before, "#" + name, args, ParserFunction(Trim(name)))
  {
    hide Shows, RenderError, WellFormedArgs, FunctionName;
    FunctionNameReads("#", name, "");
    assert name + "" == name;
    HashStays(name);
    hide Trim, TrimStart;
    CallShows(env, before, "#" + name, args, ParserFunction(Trim(name)));
  }

  lemma HashStays(name: string)
    ensures TrimStart("#" + name) == "#" + name && Trim("#" + name) != ""
  {
    TrimIsEmptyIff("#" + name);
  }

  // So is a template that does not exist, or whose namespace does not.
  lemma MissingTemplateIsShown(env: Env, before: string, ns: string, name: string, args: Args)
    requires BraceFree(before) && BraceFree(ns) && BraceFree(name) && '|' !in ns && '|' !in name && WellFormedArgs(args)
    requires ':' !in ns && ns != "" && !IsWhitespace(ns[0]) && ns[0] != '#' && name != "" && !IsWhitespace(name[|name| - 1])
    requires Key(Trim(ns), Trim(name)) !in env.resolver.sources
    ensures Shows(env, before, ns + ":" + name, args,
                  if Trim(ns) in env.resolver.known then NotFound(Key(Trim(ns), Trim(name))) else UnknownNamespace(Trim(ns)))
  {
    hide Shows, RenderError, WellFormedArgs, Trim, TrimStart, BraceFree;
    AddressIsPlain(ns, name);
    MissingMeans(env, ns, name, args);
    CallShows(env, before, ns + ":" + name, args,
              if Trim(ns) in env.resolver.known then NotFound(Key(Trim(ns), Trim(name))) else UnknownNamespace(Trim(ns)));
  }

  lemma AddressIsPlain(ns: string, name: string)
    requires BraceFree(ns) && BraceFree(name) && '|' !in ns && '|' !in name
    requires ns != "" && !IsWhitespace(ns[0]) && name != "" && !IsWhitespace(name[|name| - 1])
    ensures var full := ns + ":" + name;
      && BraceFree(full) && '|' !in full && ':' in full && full[0] == ns[0] && TrimStart(full) == full && Trim(full) == full
  {
    var full := ns + ":" + name;
    assert full[|ns|] == ':' && full[|full| - 1] == name[|name| - 1];
    hide Trim, TrimStart;
    NameIsTrimmed(full);
  }

  lemma MissingMeans(env: Env, ns: string, name: string, args: Args)
    requires var full := ns + ":" + name; TrimStart(full) == full && Trim(full) == full && ':' in full && full[0] != '#'
    requires ':' !in ns && Key(Trim(ns), Trim(name)) !in env.resolver.sources
    ensures var m := if Trim(ns) in env.resolver.known then NotFound(Key(Trim(ns), Trim(name))) else UnknownNamespace(Trim(ns));
      forall site :: CallMeaning(env, ns + ":" + name, args, site, TOP) == Meaning(RenderError(m, site), Settled, 0)
  {
    hide RenderError, Trim, TrimStart, ParseAddress;
    AddressReads(ns, name);
  }

  lemma NameIsTrimmed(s: string)
    requires s != "" && !IsWhitespace(s[0]) && !IsWhitespace(s[|s| - 1])
    ensures TrimStart(s) == s && Trim(s) == s
  {
  }
}
