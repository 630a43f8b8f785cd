// The scanners recover from a printed call exactly the name and the arguments
// it was printed from, whatever text follows it.
module RoundTrip {
  import opened Text
  import opened Scanner
  import opened Wikitext

  // A scan that has not stopped inside `s` goes on behind it.
  predicate Passes(stop: Stop, depth: int, c: char) {
    !(stop.AtChar? && depth == 0 && stop.c == c)
  }

  lemma {:induction false} FindTriplePrefix(s: string, rest: string)
    requires FindTriple(s).Some?
    ensures FindTriple(s + rest) == FindTriple(s)
  {
    if !Thrice(s, '}') {
      assert (s + rest)[1..] == s[1..] + rest;
      FindTriplePrefix(s[1..], rest);
    }
  }

  // One step of a scan over `{{{`, and over anything else.
  lemma FindOverTriple(s: string, depth: int, stop: Stop)
    requires Thrice(s, '{')
    ensures var k := FindTriple(s[3..]);
      Find(s, depth, stop) ==
      if k.Some? then Shift(3 + k.value + 3, Find(s[3 + k.value + 3..], depth, stop)) else None
  {
    hide FindTriple;
  }

  lemma FindOverRest(s: string, depth: int, stop: Stop)
    requires s != "" && !Thrice(s, '{')
    ensures Find(s, depth, stop) ==
            if Twice(s, '{') then Shift(2, Find(s[2..], depth + 1, stop))
            else if Twice(s, '}') then
              if stop.AtClose? && depth == 0 then Some(0) else Shift(2, Find(s[2..], depth - 1, stop))
            else if stop.AtChar? && depth == 0 && s[0] == stop.c then Some(0)
            else Shift(1, Find(s[1..], depth, stop))
  {
  }

  lemma FindNothing(depth: int, stop: Stop)
    ensures Find("", depth, stop).None?
  {
  }

  // What a scan finds in a prefix it finds in the whole.
  lemma {:induction false} FindPrefix(p: string, rest: string, depth: int, stop: Stop)
    requires (stop.AtChar? ==> stop.c != '{' && stop.c != '}') && Find(p, depth, stop).Some?
    ensures Find(p + rest, depth, stop) == Find(p, depth, stop)
    decreases |p|
  {
    hide Find, FindTriple;
    var s := p + rest;
    FindNothing(depth, stop);
    if Thrice(p, '{') {
      assert s[3..] == p[3..] + rest;
      FindOverTriple(p, depth, stop);
      FindOverTriple(s, depth, stop);
      FindTriplePrefix(p[3..], rest);
      var w := 3 + FindTriple(p[3..]).value + 3;
      assert s[w..] == p[w..] + rest;
      FindPrefix(p[w..], rest, depth, stop);
    } else {
      FindOverRest(p, depth, stop);
      ShortPrefix(p, depth, stop);
      SameToken(p, rest);
      FindOverRest(s, depth, stop);
      if Twice(p, '{') {
        FindPrefix(p[2..], rest, depth + 1, stop);
      } else if Twice(p, '}') {
        if !(stop.AtClose? && depth == 0) {
          FindPrefix(p[2..], rest, depth - 1, stop);
        }
      } else if !(stop.AtChar? && depth == 0 && p[0] == stop.c) {
        FindPrefix(p[1..], rest, depth, stop);
      }
    }
  }

  // A prefix in which something is found does not end in the middle of a token.
  lemma ShortPrefix(p: string, depth: int, stop: Stop)
    requires p != "" && !Thrice(p, '{') && (stop.AtChar? ==> stop.c != '{' && stop.c != '}')
    requires Find(p, depth, stop).Some?
    ensures Twice(p, '{') ==> |p| > 2
    ensures |p| == 1 ==> p[0] != '{' && p[0] != '}'
  {
    hide Find;
    FindOverRest(p, depth, stop);
    FindNothing(depth, stop);
    FindNothing(depth + 1, stop);
    if |p| == 2 {
      assert p[2..] == "";
    }
    if |p| == 1 {
      assert p[1..] == "";
    }
  }

  lemma SameToken(p: string, rest: string)
    requires p != "" && !Thrice(p, '{') && (Twice(p, '{') ==> |p| > 2) && (|p| == 1 ==> p[0] != '{' && p[0] != '}')
    ensures var s := p + rest;
      && !Thrice(s, '{') && (Twice(s, '{') <==> Twice(p, '{')) && (Twice(s, '}') <==> Twice(p, '}'))
      && s[0] == p[0] && s[1..] == p[1..] + rest && (|p| >= 2 ==> s[2..] == p[2..] + rest)
  {
  }

  lemma {:induction false} FindSkipsPlain(text: string, rest: string, depth: int, stop: Stop)
    requires BraceFree(text)
    requires forall c | c in text :: Passes(stop, depth, c)
    ensures Find(text + rest, depth, stop) == Shift(|text|, Find(rest, depth, stop))
  {
    if text == "" {
      assert text + rest == rest;
    } else {
      assert (text + rest)[1..] == text[1..] + rest;
      assert (text + rest)[0] == text[0];
      assert text[0] in text;
      FindSkipsPlain(text[1..], rest, depth, stop);
    }
  }

  // One step of a scan over each kind of token.
  lemma FindOpen(x: string, depth: int, stop: Stop)
    requires x != "" && x[0] != '{'
    ensures Find("{{" + x, depth, stop) == Shift(2, Find(x, depth + 1, stop))
  {
    var s := "{{" + x;
    assert s[2] == x[0] && s[2..] == x;
  }

  lemma FindClose(x: string, depth: int, stop: Stop)
    ensures Find("}}" + x, depth, stop) ==
            if stop.AtClose? && depth == 0 then Some(0) else Shift(2, Find(x, depth - 1, stop))
  {
    var s := "}}" + x;
    assert s[0] == '}' && s[1] == '}' && s[2..] == x;
  }

  // A reference is one token, ended by its own closing `}}}`.
  predicate Closed(inner: string) {
    FindTriple(inner + "}}}") == Some(|inner|)
  }

  lemma RefCloses(inner: string, rest: string)
    requires Closed(inner)
    ensures FindTriple(inner + ("}}}" + rest)) == Some(|inner|)
  {
    FindTriplePrefix(inner + "}}}", rest);
    Assoc(inner, "}}}", rest);
  }

  lemma FindRef(inner: string, rest: string, depth: int, stop: Stop)
    requires Closed(inner)
    ensures var s := "{{{" + inner + "}}}";
      Find(s + rest, depth, stop) == Shift(|s|, Find(rest, depth, stop))
  {
    RefCloses(inner, rest);
    Enclosed("{{{", inner, "}}}", rest);
  }

  // Passing over `a` and then over `b` passes over both.
  predicate PassesOver(a: string, rest: string, depth: int, stop: Stop) {
    Find(a + rest, depth, stop) == Shift(|a|, Find(rest, depth, stop))
  }

  lemma PassesBoth(a: string, b: string, rest: string, depth: int, stop: Stop)
    requires PassesOver(a, b + rest, depth, stop) && PassesOver(b, rest, depth, stop)
    ensures PassesOver(a + b, rest, depth, stop)
  {
    hide Find;
    Assoc(a, b, rest);
  }

  predicate StopFree(t: Doc, depth: int, stop: Stop) {
    depth == 0 && stop.AtChar? ==> TopFree(t, stop.c)
  }

  // A printed document is balanced: a scan passes over it unless it stops at
  // a character of its top-level text.
  lemma {:induction false} FindSkipsDoc(t: Doc, rest: string, depth: int, stop: Stop)
    requires WellFormed(t) && depth >= 0 && StopFree(t, depth, stop)
    ensures PassesOver(Print(t), rest, depth, stop)
    decreases t, 1
  {
    hide Find;
    match t
    case End =>
      assert "" + rest == rest;
    case Plain(text, more) =>
      FindSkipsPlain(text, Print(more) + rest, depth, stop);
      FindSkipsDoc(more, rest, depth, stop);
      PassesBoth(text, Print(more), rest, depth, stop);
    case Ref(name, default, more) =>
      FindRef(PrintRef(name, default), Print(more) + rest, depth, stop);
      FindSkipsDoc(more, rest, depth, stop);
      PassesBoth("{{{" + PrintRef(name, default) + "}}}", Print(more), rest, depth, stop);
    case Call(name, args, more) =>
      FindSkipsCall(name, args, Print(more) + rest, depth, stop);
      FindSkipsDoc(more, rest, depth, stop);
      PassesBoth("{{" + (name + PrintArgs(args)) + "}}", Print(more), rest, depth, stop);
  }

  lemma {:induction false} FindSkipsCall(name: string, args: Args, rest: string, depth: int, stop: Stop)
    requires BraceFree(name) && Trim(name) != "" && WellFormedArgs(args) && depth >= 0
    ensures PassesOver("{{" + (name + PrintArgs(args)) + "}}", rest, depth, stop)
    decreases args, 1
  {
    hide Find, PrintArgs, WellFormedArgs, Trim;
    var tail := "}}" + rest;
    FindSkipsPlain(name, PrintArgs(args) + tail, depth + 1, stop);
    FindSkipsArgs(args, tail, depth + 1, stop);
    FindClose(rest, depth + 1, stop);
    FindAfterOpen(name, PrintArgs(args), rest, depth, stop);
  }

  // The name keeps `{{` from being read as the start of `{{{`.
  lemma FindAfterOpen(name: string, args: string, rest: string, depth: int, stop: Stop)
    requires BraceFree(name) && Trim(name) != ""
    ensures Find("{{" + (name + args) + "}}" + rest, depth, stop)
         == Shift(2, Find(name + (args + ("}}" + rest)), depth + 1, stop))
  {
    hide Find;
    var x := name + (args + ("}}" + rest));
    assert x[0] == name[0] && name[0] in name;
    FindOpen(x, depth, stop);
    Assoc("{{" + (name + args), "}}", rest);
    Assoc("{{", name + args, "}}" + rest);
    Assoc(name, args, "}}" + rest);
  }

  lemma {:induction false} FindSkipsArgs(args: Args, rest: string, depth: int, stop: Stop)
    requires WellFormedArgs(args) && (depth > 0 || (depth == 0 && stop.AtClose?))
    ensures PassesOver(PrintArgs(args), rest, depth, stop)
    decreases args, 0
  {
    hide Find;
    match args
    case NoArgs =>
      assert "" + rest == rest;
    case Positional(value, more) =>
      FindSkipsDoc(value, PrintArgs(more) + rest, depth, stop);
      FindSkipsArgs(more, rest, depth, stop);
      PassesBoth(Print(value), PrintArgs(more), rest, depth, stop);
      FindSkipsLead("|", Print(value), PrintArgs(more), rest, depth, stop);
    case Named(key, value, more) =>
      FindSkipsDoc(value, PrintArgs(more) + rest, depth, stop);
      FindSkipsArgs(more, rest, depth, stop);
      PassesBoth(Print(value), PrintArgs(more), rest, depth, stop);
      FindSkipsLead("|" + (key + "="), Print(value), PrintArgs(more), rest, depth, stop);
      Assoc("|", key + "=", Print(value));
  }

  lemma FindSkipsLead(lead: string, value: string, more: string, rest: string, depth: int, stop: Stop)
    requires BraceFree(lead) && (depth > 0 || (depth == 0 && stop.AtClose?))
    requires PassesOver(value + more, rest, depth, stop)
    ensures PassesOver(lead + value + more, rest, depth, stop)
  {
    hide Find;
    FindSkipsPlain(lead, value + more + rest, depth, stop);
    PassesBoth(lead, value + more, rest, depth, stop);
    Assoc(lead, value, more);
  }

  // The closing `}}` found for a printed call is its own.
  lemma CallCloses(name: string, args: Args, rest: string)
    requires BraceFree(name) && WellFormedArgs(args)
    ensures var inner := name + PrintArgs(args);
      Find(inner + ("}}" + rest), 0, AtClose) == Some(|inner|)
  {
    hide Find;
    var tail := "}}" + rest;
    Assoc(name, PrintArgs(args), tail);
    FindSkipsPlain(name, PrintArgs(args) + tail, 0, AtClose);
    FindSkipsArgs(args, tail, 0, AtClose);
    FindClose(rest, 0, AtClose);
  }

  // Splitting a printed call at its top-level pipes gives the name and the argument texts.
  lemma SplitCall(name: string, args: Args)
    requires BraceFree(name) && '|' !in name && WellFormedArgs(args)
    ensures Split(name + PrintArgs(args)) == [name] + ArgTexts(args)
  {
    FindSkipsPlain(name, PrintArgs(args), 0, AtChar('|'));
    SplitArgs(name, args);
  }

  lemma {:induction false} SplitArgs(head: string, args: Args)
    requires WellFormedArgs(args)
    requires Find(head + PrintArgs(args), 0, AtChar('|')) == Shift(|head|, Find(PrintArgs(args), 0, AtChar('|')))
    ensures Split(head + PrintArgs(args)) == [head] + ArgTexts(args)
    decreases args
  {
    match args
    case NoArgs =>
      assert head + PrintArgs(args) == head;
    case Positional(value, more) =>
      FindSkipsDoc(value, PrintArgs(more), 0, AtChar('|'));
      SplitArgs(Print(value), more);
      SplitOff(head, Print(value), PrintArgs(more));
    case Named(key, value, more) =>
      FindSkipsNamed(key, value, PrintArgs(more));
      SplitArgs(key + "=" + Print(value), more);
      SplitOff(head, key + "=" + Print(value), PrintArgs(more));
  }

  lemma FindSkipsNamed(key: string, value: Doc, rest: string)
    requires BraceFree(key) && '|' !in key && WellFormed(value) && TopFree(value, '|')
    ensures Find(key + "=" + Print(value) + rest, 0, AtChar('|'))
         == Shift(|key + "=" + Print(value)|, Find(rest, 0, AtChar('|')))
  {
    hide Find;
    FindSkipsDoc(value, rest, 0, AtChar('|'));
    FindSkipsPlain(key + "=", Print(value) + rest, 0, AtChar('|'));
    Assoc(key + "=", Print(value), rest);
  }

  lemma SplitOff(head: string, first: string, more: string)
    requires var args := "|" + first + more;
      Find(head + args, 0, AtChar('|')) == Shift(|head|, Find(args, 0, AtChar('|')))
    ensures Split(head + ("|" + first + more)) == [head] + Split(first + more)
  {
    var s := head + ("|" + first + more);
    BarStops(first, more);
    Cut(head, first, more);
  }

  lemma BarStops(first: string, more: string)
    ensures Find("|" + first + more, 0, AtChar('|')) == Some(0)
  {
    Assoc("|", first, more);
    var s := "|" + (first + more);
    assert s[0] == '|';
  }

  lemma Cut(head: string, first: string, more: string)
    ensures var s := head + ("|" + first + more); s[..|head|] == head && s[|head| + 1..] == first + more
  {
  }

  // `find_top_level_equals` sees no `=` in a positional argument and the
  // separating one in a named argument.
  lemma PositionalHasNoKey(value: Doc)
    requires WellFormed(value) && TopFree(value, '=')
    ensures Find(Print(value), 0, AtChar('=')) == None
  {
    FindSkipsDoc(value, "", 0, AtChar('='));
    assert Print(value) + "" == Print(value);
  }

  lemma NamedKey(key: string, value: string)
    requires BraceFree(key) && '=' !in key
    ensures Find(key + "=" + value, 0, AtChar('=')) == Some(|key|)
  {
    assert key + "=" + value == key + ("=" + value);
    FindSkipsPlain(key, "=" + value, 0, AtChar('='));
  }

  // A reference splits into its name and its default.
  lemma SplitRef(name: string, default: Option<Doc>)
    requires BraceFree(name) && '|' !in name
    ensures var inner := PrintRef(name, default);
      Find(inner, 0, AtChar('|')) == if default.Some? then Some(|name|) else None
  {
    match default
    case None =>
      FindSkipsPlain(name, "", 0, AtChar('|'));
      assert name + "" == name;
    case Some(d) =>
      assert PrintRef(name, default) == name + ("|" + Print(d));
      FindSkipsPlain(name, "|" + Print(d), 0, AtChar('|'));
  }
}
