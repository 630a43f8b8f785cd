// A link that only a template brings in.
module TemplateLinks {
  import opened Text
  import opened Wikitext
  import opened Expander
  import opened Measured
  import opened Transclusion
  import Links
  import Redlinks

  // A page that is one call of a template whose body has no braces expands to
  // that body.
  lemma TemplateExpands(env: Env, template: string, body: string)
    requires BraceFree(template) && '|' !in template && Trim(template) != "" && TrimStart(template)[0] != '#'
    requires BraceFree(body) && env.max >= 1
    requires var key := ParseAddress(Trim(template)); key in env.resolver.sources && env.resolver.sources[key].body == body
    ensures Returns(env, "{{" + template + "}}", body)
  {
    TrimIsEmptyIff(template);
    hide Returns, ParseAddress, Trim, TrimStart, Meant;
    var page := "{{" + template + "}}";
    assert page[0..] == "{{" + (template + PrintArgs(NoArgs)) + "}}" + "" by {
      assert template + "" == template && page[0..] == page && page + "" == page;
    }
    CallStep(env, page, 0, template, NoArgs, "", TOP);
    MeantUnfolds(env, page, 0, TOP);
    NothingLeft(env, page, TOP);
    CallGivesBody(env, template, body);
    assert body + "" == body;
    PageAgrees(env, page);
  }

  lemma CallGivesBody(env: Env, template: string, body: string)
    requires TrimStart(template) != "" && TrimStart(template)[0] != '#' && BraceFree(body) && env.max >= 1
    requires var key := ParseAddress(Trim(template)); key in env.resolver.sources && env.resolver.sources[key].body == body
    ensures var m := CallMeaning(env, template, NoArgs, Site(1, 1), TOP); m.status.Settled? && m.text == body
  {
    hide ParseAddress, Trim, TrimStart, Meant;
    var source := env.resolver.sources[ParseAddress(Trim(template))];
    var f := BodyFrame(TOP, [], source.id, Site(1, 1));
    NoArgsMeant(env, 1, TOP, Site(1, 1));
    PlainMeansItself(env, body, f);
  }

  // `{{T}}` alone, where T's body is a link to an existing page. Whatever else
  // the Markdown parser does, if it sees no wikilink in the call and one in the
  // expanded text, the tag of that link is a redlink.
  lemma LinkFromATemplateIsRed(env: Env, template: string, target: string, ns: string, parse: string -> seq<Links.Event>)
    requires BraceFree(template) && '|' !in template && Trim(template) != "" && TrimStart(template)[0] != '#'
    requires BraceFree(target) && env.max >= 1
    requires var key := ParseAddress(Trim(template));
      key in env.resolver.sources && env.resolver.sources[key].body == "[[" + target + "]]"
    requires forall e | e in parse("{{" + template + "}}") :: !e.StartWiki?
    requires parse("[[" + target + "]]") == [Links.StartWiki(target, false), Links.Chars(target), Links.EndLink]
    ensures var page := "{{" + template + "}}";
      exists expanded ::
        && Returns(env, page, expanded) && parse(expanded) != []
        && var tag := Redlinks.Shown(parse(page), parse(expanded), 0, ns, {target}); tag.Html? && Links.IsRedlink(tag.html)
  {
    hide Returns, ParseAddress, Trim, TrimStart;
    var page, body := "{{" + template + "}}", "[[" + target + "]]";
    LinkIsBraceFree(target);
    TemplateExpands(env, template, body);
    var scanned, es := parse(page), parse(body);
    Redlinks.ShownIff(scanned, es, 0, ns, {target});
    assert es[0].StartWiki? && es[0].target == target;
    assert forall k | 0 <= k < |scanned| :: scanned[k] in scanned;
  }

  lemma LinkIsBraceFree(target: string)
    requires BraceFree(target)
    ensures BraceFree("[[" + target + "]]")
  {
  }
}
