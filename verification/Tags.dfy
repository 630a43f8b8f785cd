// Reading the tags the renderer writes: name and attributes, entities replaced.
module Tags {
  import opened Text
  import opened Codecs
  import Expander

  datatype Attribute = Attribute(name: string, value: string)

  // What is read, and the text behind the tag.
  datatype Tag = Tag(name: string, attributes: seq<Attribute>, rest: string)

  function ReadTag(s: string): Option<Tag> {
    if s == "" || s[0] != '<' then None
    else
      var name := UpTo(s[1..], {' ', '>'});
      ReadAttributes(name, s[1 + |name|..])
  }

  // Attributes are quoted, and a quote cannot occur in one.
  function ReadAttributes(tag: string, s: string): Option<Tag>
    decreases |s|
  {
    if s == "" then None
    else if s[0] == '>' then Some(Tag(tag, [], s[1..]))
    else if s[0] != ' ' then None
    else
      var name := UpTo(s[1..], {'='});
      var quoted := s[1 + |name|..];
      if !("=\"" <= quoted) then None
      else
        var value := UpTo(quoted[2..], {'"'});
        if |quoted| == 2 + |value| then None
        else
          match ReadAttributes(tag, quoted[2 + |value| + 1..])
          case None => None
          case Some(t) => Some(Tag(tag, [Attribute(name, Unescape(value))] + t.attributes, t.rest))
  }

  lemma ReadEnd(tag: string, s: string)
    requires s != "" && s[0] == '>'
    ensures ReadAttributes(tag, s) == Some(Tag(tag, [], s[1..]))
  {
  }

  lemma ReadOne(tag: string, s: string, name: string, quoted: string, written: string)
    requires s != "" && s[0] == ' ' && UpTo(s[1..], {'='}) == name && s[1 + |name|..] == quoted
    requires "=\"" <= quoted && UpTo(quoted[2..], {'"'}) == written && |quoted| > 2 + |written|
    ensures ReadAttributes(tag, s) ==
            match ReadAttributes(tag, quoted[2 + |written| + 1..])
            case None => None
            case Some(t) => Some(Tag(tag, [Attribute(name, Unescape(written))] + t.attributes, t.rest))
  {
    hide Unescape, UpTo;
  }

  // A written attribute is read back whatever its value contains.
  lemma ReadAttribute(tag: string, name: string, value: string, rest: string)
    requires '=' !in name && rest != "" && rest[0] == '"' && ReadAttributes(tag, rest[1..]).Some?
    ensures var more := ReadAttributes(tag, rest[1..]).value;
      ReadAttributes(tag, " " + name + "=\"" + Expander.EscapeHtml(value) + rest)
      == Some(Tag(tag, [Attribute(name, value)] + more.attributes, more.rest))
  {
    HtmlRoundTrip(value);
    hide Unescape, Expander.EscapeHtml, ReadAttributes, UpTo;
    var written := Expander.EscapeHtml(value);
    var quoted := "=\"" + (written + rest);
    var s := " " + name + "=\"" + written + rest;
    Assoc(" " + name + "=\"", written, rest);
    Assoc(" " + name, "=\"", written + rest);
    Assoc(" ", name, quoted);
    assert s[0] == ' ' && s[1..] == name + quoted;
    UpToStops(name, quoted, {'='});
    assert s[1 + |name|..] == quoted && quoted[2..] == written + rest;
    UpToStops(written, rest, {'"'});
    assert quoted[2 + |written| + 1..] == rest[1..];
    ReadOne(tag, s, name, quoted, written);
  }

  // The same behind the quote that ends the attribute before.
  lemma ReadBehind(tag: string, lead: string, name: string, value: string, rest: string)
    requires '=' !in name && rest != "" && rest[0] == '"' && ReadAttributes(tag, rest[1..]).Some?
    requires lead == "\"" + (" " + name + "=\"")
    ensures var s := lead + Expander.EscapeHtml(value) + rest; var more := ReadAttributes(tag, rest[1..]).value;
      && s != "" && s[0] == '"'
      && ReadAttributes(tag, s[1..]) == Some(Tag(tag, [Attribute(name, value)] + more.attributes, more.rest))
  {
    ReadAttribute(tag, name, value, rest);
    hide Expander.EscapeHtml, ReadAttributes;
    var x := Expander.EscapeHtml(value);
    DropQuote(" " + name + "=\"", x, rest);
  }

  lemma DropQuote(lead: string, x: string, rest: string)
    ensures var s := "\"" + lead + x + rest; s != "" && s[0] == '"' && s[1..] == lead + x + rest
  {
    Assoc("\"", lead, x);
    Assoc("\"", lead + x, rest);
    assert ("\"" + (lead + x + rest))[1..] == lead + x + rest;
  }

  lemma ReadName(name: string, rest: string)
    requires ' ' !in name && '>' !in name && rest != "" && (rest[0] == ' ' || rest[0] == '>')
    ensures ReadTag("<" + name + rest) == ReadAttributes(name, rest)
  {
    var s := "<" + name + rest;
    assert s[1..] == name + rest;
    UpToStops(name, rest, {' ', '>'});
    assert s[1 + |name|..] == rest;
  }

  lemma {:induction false} EscapeBoth(a: string, b: string)
    ensures Expander.EscapeHtml(a + b) == Expander.EscapeHtml(a) + Expander.EscapeHtml(b)
  {
    if a == "" {
      assert a + b == b;
    } else {
      assert (a + b)[1..] == a[1..] + b;
      EscapeBoth(a[1..], b);
    }
  }

  predicate NeedsNoEscape(c: char) {
    c != '&' && c != '<' && c != '>' && c != '"' && c != '\''
  }

  // Text without special characters is written as it is.
  lemma {:induction false} EscapePlain(s: string)
    requires forall k | 0 <= k < |s| :: NeedsNoEscape(s[k])
    ensures Expander.EscapeHtml(s) == s
  {
    if s != "" {
      EscapePlain(s[1..]);
    }
  }
}
