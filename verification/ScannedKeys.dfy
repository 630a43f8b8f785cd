// Which keys the prefetcher collects from a text, well-formed or not.
module ScannedKeys {
  import opened Text
  import opened Scanner
  import opened Wikitext
  import opened Expander
  import opened RoundTrip
  import opened Pieces
  import opened Prefetch
  import opened ScannedCalls
  import opened SmallPages

  function KeysOf(texts: set<string>): set<Key> {
    set t, key | t in texts && key in HeadKey(t) :: key
  }

  // The keys the prefetcher collects are those of these calls.
  lemma {:induction false} ScannedKeysAreOfCalls(s: string)
    ensures ScanKeys(s) == KeysOf(CallTexts(s))
    decreases |s|
  {
    hide Find, FindTriple, HeadKey;
    if s != "" {
      if !Twice(s, '{') {
        ScannedKeysAreOfCalls(s[1..]);
      } else if Thrice(s, '{') {
        var close := FindTriple(s[3..]);
        if close.Some? {
          ScannedKeysAreOfCalls(s[3 + close.value + 3..]);
        }
      } else {
        var close := Find(s[2..], 0, AtClose);
        if close.Some? {
          ScannedKeysAreOfCalls(s[2..2 + close.value]);
          ScannedKeysAreOfCalls(s[2 + close.value + 2..]);
        }
      }
    }
  }

  // The worker's key of a call is the prefetcher's, when no brace stands in front
  // of the first `|`.
  lemma SameKey(inner: string)
    requires BraceFree(UpTo(inner, {'|'})) && Trim(Split(inner)[0]) != ""
    requires var trimmed := TrimStart(inner); !(trimmed != "" && trimmed[0] == '#')
    ensures HeadKey(inner) == {ParseAddress(Trim(Split(inner)[0]))}
  {
    hide Trim, TrimStart, ParseAddress;
    HeadUpToBar(inner);
  }

  lemma HeadUpToBar(inner: string)
    requires BraceFree(UpTo(inner, {'|'}))
    ensures Split(inner)[0] == UpTo(inner, {'|'})
  {
    var head := UpTo(inner, {'|'});
    UpToIsPrefix(inner);
    var rest := inner[|head|..];
    assert inner == head + rest;
    FindSkipsPlain(head, rest, 0, AtChar('|'));
    if rest != "" {
      BarStops("", rest[1..]);
      assert rest == "|" + "" + rest[1..];
    }
  }

  lemma {:induction false} UpToIsPrefix(s: string)
    ensures var head := UpTo(s, {'|'});
      && |head| <= |s| && s[..|head|] == head && '|' !in head
      && (|head| < |s| ==> s[|head|] == '|')
  {
    if s != "" && s[0] != '|' {
      UpToIsPrefix(s[1..]);
    }
  }

  // `{{ {{T}}`: the scan stops at the pair that is never closed, the worker copies
  // it and takes the call behind it.
  lemma BehindAnOpenPairIsMissed(name: string, inTemplate: bool)
    requires SimpleName(name)
    ensures var s := "{{ {{" + name + "}}"; Called(name) in PiecesOf(s, inTemplate) && ScanKeys(s) == {} && !AllClosed(s)
  {
    hide PiecesOf, ScanKeys, AllClosed, Find, SimpleName, Twice;
    var call := "{{" + name + "}}";
    var behind := " " + call;
    Spelled(name);
    NeverClosed(name);
    TakenAsCall(name, inTemplate);
    OpenPair(behind, inTemplate);
    OneCharCopied(behind, inTemplate);
  }

  lemma Spelled(name: string)
    ensures var call := "{{" + name + "}}"; var behind := " " + call;
      && "{{ {{" + name + "}}" == "{{" + behind && " {{" + name + "}}" == behind
      && behind[1..] == call && behind != "" && behind[0] == ' ' && !Twice(behind, '{')
  {
    Assoc(" ", "{{" + name, "}}");
    Assoc(" ", "{{", name);
    Assoc("{{", " {{" + name, "}}");
    Assoc("{{", " {{", name);
    assert "{{" + " {{" == "{{ {{" && " " + "{{" == " {{";
  }

  // A pair that is never closed.
  lemma OpenPair(x: string, inTemplate: bool)
    requires x != "" && x[0] != '{' && Find(x, 0, AtClose).None?
    ensures var s := "{{" + x;
      && ScanKeys(s) == {} && !AllClosed(s)
      && forall p | p in PiecesOf(x, inTemplate) :: p in PiecesOf(s, inTemplate)
  {
    hide Find, PiecesOf;
    var s := "{{" + x;
    assert s[2..] == x && !Thrice(s, '{') && Twice(s, '{');
    assert s[1..] == "{" + x && s[1..][1..] == x;
    OneCharCopied(s[1..], inTemplate);
    FirstCopied(s, inTemplate);
  }

  lemma FirstCopied(s: string, inTemplate: bool)
    requires Twice(s, '{') && !Thrice(s, '{') && Find(s[2..], 0, AtClose).None?
    ensures forall p | p in PiecesOf(s[1..], inTemplate) :: p in PiecesOf(s, inTemplate)
  {
    hide Find;
  }

  lemma OneCharCopied(s: string, inTemplate: bool)
    requires s != "" && !Twice(s, '{')
    ensures forall p | p in PiecesOf(s[1..], inTemplate) :: p in PiecesOf(s, inTemplate)
  {
  }

  lemma NeverClosed(name: string)
    requires SimpleName(name)
    ensures Find(" {{" + name + "}}", 0, AtClose).None?
  {
    var call := "{{" + name + "}}";
    SimpleNameReads(name);
    hide Find, SimpleName;
    Spelled(name);
    FindNothing(0, AtClose);
    FindSkipsPlain(" ", call, 0, AtClose);
    FindOpen(name + "}}", 0, AtClose);
    assert call == "{{" + (name + "}}");
    FindSkipsPlain(name, "}}", 1, AtClose);
    FindClose("", 1, AtClose);
    assert "}}" + "" == "}}";
  }

  lemma TakenAsCall(name: string, inTemplate: bool)
    requires SimpleName(name)
    ensures Called(name) in PiecesOf("{{" + name + "}}", inTemplate)
  {
    hide SimpleName, Find, IsCall, PiecesOf, FirstPiece;
    var s := "{{" + name + "}}";
    NameIsCall(name);
    NameCloses(name);
    FirstPieceIs(s, inTemplate);
    OnePiece(s, inTemplate);
  }

  lemma NameIsCall(name: string)
    requires SimpleName(name)
    ensures IsCall(name)
  {
    SimpleNameReads(name);
    FindSkipsPlain(name, "", 0, AtChar('|'));
    assert name + "" == name;
  }

  lemma NameCloses(name: string)
    requires SimpleName(name)
    ensures var s := "{{" + name + "}}";
      && Twice(s, '{') && !Thrice(s, '{') && Find(s[2..], 0, AtClose) == Some(|name|)
      && s[2..2 + |name|] == name && |s| == 2 + |name| + 2
  {
    SimpleNameReads(name);
    hide Find;
    var s := "{{" + name + "}}";
    assert s[2..] == name + "}}" && s[2] == name[0];
    FindSkipsPlain(name, "}}", 0, AtClose);
    FindClose("", 0, AtClose);
    assert "}}" + "" == "}}";
  }

  lemma OnePiece(s: string, inTemplate: bool)
    requires s != ""
    ensures FirstPiece(s, inTemplate).0 in PiecesOf(s, inTemplate)
  {
    hide FirstPiece;
  }
}
