// Pages and templates of a single node under a plain name, for concrete cases.
module SmallPages {
  import opened Text
  import opened Wikitext
  import opened Expander
  import opened Names
  import opened Semantics

  predicate SimpleName(name: string) {
    name != "" && forall c | c in name :: 'A' <= c <= 'Z' || 'a' <= c <= 'z'
  }

  function TemplateKey(name: string): Key {
    Key(DEFAULT_NAMESPACE, name)
  }

  lemma SimpleNameReads(name: string)
    requires SimpleName(name)
    ensures TrimStart(name) == name && Trim(name) == name && ParseAddress(name) == TemplateKey(name)
    ensures BraceFree(name) && '|' !in name && ':' !in name && name[0] != '#'
    ensures OwnKey(name) == {TemplateKey(name)}
  {
    LettersStay(name);
    hide TrimStart, TrimEnd, SimpleName, ParseAddress;
    AddressReads(name, "");
  }

  lemma LettersStay(name: string)
    requires SimpleName(name)
    ensures TrimStart(name) == name && Trim(name) == name && name != "" && name[0] != '#'
    ensures BraceFree(name) && '|' !in name && ':' !in name
  {
    assert name[0] in name && name[|name| - 1] in name;
  }

  lemma LastRefMeans(lib: Library, max: nat, name: string, default: Option<Doc>, f: Frame)
    requires f.depth <= max && f.inTemplate
    ensures Denote(lib, max, Ref(name, default, End), Site(1, 1), f)
         == Append(DenoteRef(lib, max, Trim(name), default, f), Denotation("", true))
  {
    hide DenoteRef, PrintRef;
    NodesMean(lib, max, f);
  }

  lemma LastCallMeans(lib: Library, max: nat, name: string, at: Site, f: Frame)
    requires f.depth <= max
    ensures Denote(lib, max, Call(name, NoArgs, End), at, f)
         == Append(DenoteCall(lib, max, name, NoArgs, if f.site.Some? then f.site.value else at, f), Denotation("", true))
  {
    hide DenoteCall;
    NodesMean(lib, max, f);
  }

  lemma NodesMean(lib: Library, max: nat, f: Frame)
    requires f.depth <= max
    ensures forall at :: Denote(lib, max, End, at, f) == Denotation("", true)
    ensures forall at :: Denote(lib, max, Plain(" ", End), at, f) == Denotation(" ", true)
  {
    assert " " + "" == " ";
  }
}
