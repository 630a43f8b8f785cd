// Heading anchors: turning titles into slugs, and keeping the anchors of one
// document apart.
module Slug {
  import opened Text

  // ---- Slugs

  predicate IsAlphanumeric(c: char) {
    'a' <= c <= 'z' || 'A' <= c <= 'Z' || '0' <= c <= '9'
  }

  function MapChar(c: char): Option<char> {
    if IsAlphanumeric(c) then Some(LowerCase(c))
    else if IsWhitespace(c) || c == '-' || c == '_' then Some('-')
    else None
  }

  predicate EndsWithDash(s: string) {
    s != "" && s[|s| - 1] == '-'
  }

  // `out` after one more character of the title.
  function Push(out: string, c: char): string {
    match MapChar(c)
    case None => out
    case Some(m) => if m == '-' && (out == "" || EndsWithDash(out)) then out else out + [m]
  }

  function Squeeze(s: string): string {
    if s == "" then "" else Push(Squeeze(s[..|s| - 1]), s[|s| - 1])
  }

  function StripDashes(s: string): string {
    if EndsWithDash(s) then StripDashes(s[..|s| - 1]) else s
  }

  const FALLBACK := "section"

  function SlugOf(title: string): string {
    var s := StripDashes(Squeeze(title));
    if s == "" then FALLBACK else s
  }

  method Slugify(input: string) returns (r: string)
    ensures r == SlugOf(input)
  {
    var out := "";
    var prevDash := false;
    assert input[..0] == "";
    for i := 0 to |input|
      invariant out == Squeeze(input[..i]) && prevDash == EndsWithDash(out)
    {
      assert input[..i + 1][..i] == input[..i];
      match MapChar(input[i])
      case Some(m) =>
        if m == '-' {
          if !prevDash && out != "" {
            out := out + "-";
            prevDash := true;
          }
        } else {
          out := out + [m];
          prevDash := false;
        }
      case None =>
    }
    assert input[..|input|] == input;
    while EndsWithDash(out)
      invariant StripDashes(out) == StripDashes(Squeeze(input))
      decreases |out|
    {
      out := out[..|out| - 1];
    }
    r := if out == "" then FALLBACK else out;
  }

  predicate SlugChar(c: char) {
    'a' <= c <= 'z' || '0' <= c <= '9' || c == '-'
  }

  // Characters of a slug, no dash in front, no two dashes in a row.
  predicate Squeezed(s: string) {
    && (forall k | 0 <= k < |s| :: SlugChar(s[k]))
    && (s != "" ==> s[0] != '-')
    && (forall k | 0 <= k < |s| - 1 :: s[k] != '-' || s[k + 1] != '-')
  }

  predicate IsSlug(s: string) {
    s != "" && Squeezed(s) && !EndsWithDash(s)
  }

  lemma {:induction false} SqueezeSqueezes(s: string)
    ensures Squeezed(Squeeze(s))
  {
    if s != "" {
      SqueezeSqueezes(s[..|s| - 1]);
    }
  }

  lemma {:induction false} StripStrips(s: string)
    requires Squeezed(s)
    ensures Squeezed(StripDashes(s)) && !EndsWithDash(StripDashes(s))
  {
    if EndsWithDash(s) {
      StripStrips(s[..|s| - 1]);
    }
  }

  lemma {:induction false} SqueezeKeeps(s: string)
    requires Squeezed(s)
    ensures Squeeze(s) == s
  {
    if s != "" {
      var front := s[..|s| - 1];
      SqueezeKeeps(front);
      assert s == front + [s[|s| - 1]];
      assert front != "" ==> front[|front| - 1] == s[|s| - 2];
    }
  }

  // Every title gets a slug, and the slugs are exactly the titles left unchanged.
  lemma SlugsAreTheFixedPoints(title: string)
    ensures IsSlug(SlugOf(title))
    ensures SlugOf(title) == title <==> IsSlug(title)
    ensures SlugOf(SlugOf(title)) == SlugOf(title)
  {
    SqueezeSqueezes(title);
    StripStrips(Squeeze(title));
    assert IsSlug(FALLBACK);
    if IsSlug(title) {
      SqueezeKeeps(title);
    }
    SqueezeKeeps(SlugOf(title));
  }

  // ---- What a slug is made of

  // What separates words: white space, dashes and underscores.
  predicate Separates(c: char) {
    IsWhitespace(c) || c == '-' || c == '_'
  }

  // Letters and digits of a word, in lower case; everything else is dropped.
  function Letters(word: string): string {
    if word == "" then ""
    else
      var c := word[0];
      (if 'a' <= c <= 'z' || '0' <= c <= '9' then [c]
       else if 'A' <= c <= 'Z' then [(c as int + 32) as char]
       else "") + Letters(word[1..])
  }

  // The text up to the first separator.
  function FirstWord(s: string): (r: string)
    ensures r <= s
  {
    if s == "" || Separates(s[0]) then "" else [s[0]] + FirstWord(s[1..])
  }

  // The words between separators that have a letter or a digit.
  function WordsOf(s: string): seq<string>
    decreases |s|
  {
    if s == "" then []
    else if Separates(s[0]) then WordsOf(s[1..])
    else
      var word := FirstWord(s);
      (if Letters(word) == "" then [] else [Letters(word)]) + WordsOf(s[|word|..])
  }

  // The loop over a text, from what it has written before.
  function PushAll(out: string, s: string): string
    decreases |s|
  {
    if s == "" then out else PushAll(Push(out, s[0]), s[1..])
  }

  lemma {:induction false} PushAllAppend(out: string, a: string, b: string)
    ensures PushAll(out, a + b) == PushAll(PushAll(out, a), b)
    decreases |a|
  {
    if a == "" {
      assert a + b == b;
    } else {
      assert (a + b)[1..] == a[1..] + b;
      PushAllAppend(Push(out, a[0]), a[1..], b);
    }
  }

  lemma {:induction false} SqueezeIsPushAll(s: string)
    ensures Squeeze(s) == PushAll("", s)
  {
    if s != "" {
      var front, last := s[..|s| - 1], s[|s| - 1];
      SqueezeIsPushAll(front);
      PushAllAppend("", front, [last]);
      assert s == front + [last];
      assert [last][1..] == "";
    }
  }

  lemma {:induction false} LettersArePlain(word: string)
    ensures '-' !in Letters(word)
  {
    if word != "" {
      LettersArePlain(word[1..]);
    }
  }

  // A word without separators adds its letters and digits.
  lemma {:induction false} PushWord(out: string, word: string)
    requires forall c | c in word :: !Separates(c)
    ensures PushAll(out, word) == out + Letters(word)
    decreases |word|
  {
    if word == "" {
      assert out + "" == out;
    } else {
      var c := word[0];
      assert c in word;
      PushWord(Push(out, c), word[1..]);
      var own := if 'a' <= c <= 'z' || '0' <= c <= '9' then [c]
                 else if 'A' <= c <= 'Z' then [(c as int + 32) as char] else "";
      assert Push(out, c) == out + own;
      Assoc(out, own, Letters(word[1..]));
    }
  }

  lemma {:induction false} FirstWordStops(s: string)
    ensures forall c | c in FirstWord(s) :: !Separates(c)
    ensures var n := |FirstWord(s)|; n == |s| || Separates(s[n])
    ensures s != "" && !Separates(s[0]) ==> FirstWord(s) != ""
  {
    if s != "" && !Separates(s[0]) {
      FirstWordStops(s[1..]);
    }
  }

  // `out` is empty or ends with a dash, so a separator adds nothing.
  predicate Fresh(out: string) {
    out == "" || EndsWithDash(out)
  }

  lemma PushSeparator(out: string, c: char)
    requires Separates(c)
    ensures Push(out, c) == if Fresh(out) then out else out + "-"
  {
  }

  lemma WordsFromFirst(s: string)
    requires s != "" && !Separates(s[0])
    ensures var letters, rest := Letters(FirstWord(s)), s[|FirstWord(s)|..];
      |rest| < |s| && WordsOf(s) == (if letters == "" then [] else [letters]) + WordsOf(rest)
  {
    hide Separates, Letters;
    FirstWordStops(s);
  }

  // Reading the next word, and the separator behind it.
  lemma PushFirstWord(out: string, s: string)
    requires Fresh(out) && s != "" && !Separates(s[0])
    ensures var letters, rest := Letters(FirstWord(s)), s[|FirstWord(s)|..];
      && |rest| < |s| && WordsOf(s) == (if letters == "" then [] else [letters]) + WordsOf(rest)
      && (letters == "" ==> PushAll(out, s) == PushAll(out, rest))
      && (letters != "" && rest == "" ==> PushAll(out, s) == out + letters && WordsOf(rest) == [])
      && (letters != "" && rest != "" ==> PushAll(out, s) == PushAll(out + letters + "-", rest[1..])
                                          && WordsOf(rest) == WordsOf(rest[1..]))
  {
    hide Separates, Push, StripDashes, Letters, PushAll, WordsOf, FirstWord, Fresh, EndsWithDash;
    var word := FirstWord(s);
    var rest := s[|word|..];
    FirstWordStops(s);
    WordsFromFirst(s);
    PushedWord(out, word, rest);
    assert s == word + rest;
    if Letters(word) == "" {
      assert out + "" == out;
    } else {
      NextWord(rest);
      LettersArePlain(word);
      BehindAWord(out, Letters(word), rest);
    }
  }

  lemma PushedWord(out: string, word: string, rest: string)
    requires forall c | c in word :: !Separates(c)
    ensures PushAll(out, word + rest) == PushAll(out + Letters(word), rest)
  {
    hide PushAll, Letters, Separates;
    PushAllAppend(out, word, rest);
    PushWord(out, word);
  }

  // Reading on from the start of a word.
  lemma {:induction false} PushWords(out: string, s: string)
    requires Fresh(out)
    ensures StripDashes(PushAll(out, s)) == if WordsOf(s) == [] then StripDashes(out) else out + Join(WordsOf(s), "-")
    decreases |s|
  {
    if s == "" {
    } else if Separates(s[0]) {
      hide Separates, Push, StripDashes;
      PushSeparator(out, s[0]);
      PushWords(out, s[1..]);
    } else {
      hide Separates, Push, PushAll, WordsOf, StripDashes, Letters, Join, FirstWord;
      var letters, rest := Letters(FirstWord(s)), s[|FirstWord(s)|..];
      PushFirstWord(out, s);
      if letters == "" {
        assert [] + WordsOf(rest) == WordsOf(rest);
        PushWords(out, rest);
      } else {
        LettersArePlain(FirstWord(s));
        WordIsKept(out, letters);
        JoinFirst(letters, WordsOf(rest));
        if rest != "" {
          PushWords(out + letters + "-", rest[1..]);
          Assoc(out, letters, "-");
          Assoc(out, letters + "-", Join(WordsOf(rest), "-"));
        }
      }
    }
  }

  lemma NextWord(rest: string)
    requires rest == "" || Separates(rest[0])
    ensures rest != "" ==> WordsOf(rest) == WordsOf(rest[1..])
    ensures rest == "" ==> WordsOf(rest) == []
  {
  }

  lemma WordIsKept(out: string, letters: string)
    requires letters != "" && '-' !in letters
    ensures !Fresh(out + letters) && Fresh(out + letters + "-")
    ensures StripDashes(out + letters) == out + letters && StripDashes(out + letters + "-") == out + letters
  {
    var all := out + letters;
    assert all[|all| - 1] == letters[|letters| - 1] && letters[|letters| - 1] in letters;
    assert (all + "-")[..|all|] == all;
  }

  lemma BehindAWord(out: string, letters: string, rest: string)
    requires letters != "" && '-' !in letters && (rest == "" || Separates(rest[0]))
    ensures rest == "" ==> PushAll(out + letters, rest) == out + letters
    ensures rest != "" ==> PushAll(out + letters, rest) == PushAll(out + letters + "-", rest[1..])
  {
    hide Separates;
    WordIsKept(out, letters);
    if rest != "" {
      PushSeparator(out + letters, rest[0]);
    }
  }

  lemma JoinFirst(word: string, rest: seq<string>)
    ensures Join([word] + rest, "-") == if rest == [] then word else word + "-" + Join(rest, "-")
  {
    assert ([word] + rest)[1..] == rest;
  }

  // A slug is the words of the title, lower case, with a dash between them.
  lemma SlugJoinsTheWords(title: string)
    ensures SlugOf(title) == if WordsOf(title) == [] then "section" else Join(WordsOf(title), "-")
  {
    SqueezeIsPushAll(title);
    PushWords("", title);
    JoinedIsNotEmpty(title);
  }

  lemma {:induction false} JoinedIsNotEmpty(title: string)
    ensures WordsOf(title) != [] ==> Join(WordsOf(title), "-") != ""
    ensures forall w | w in WordsOf(title) :: w != ""
    decreases |title|
  {
    if title != "" {
      FirstWordStops(title);
      if Separates(title[0]) {
        JoinedIsNotEmpty(title[1..]);
      } else {
        JoinedIsNotEmpty(title[|FirstWord(title)|..]);
      }
      if WordsOf(title) != [] {
        assert WordsOf(title)[0] in WordsOf(title);
      }
    }
  }

  // ---- Anchors

  function Count(bases: seq<string>, b: string): nat {
    if bases == [] then 0
    else Count(bases[..|bases| - 1], b) + if bases[|bases| - 1] == b then 1 else 0
  }

  // The anchor of the `n`-th heading with this slug.
  function Numbered(base: string, n: nat): string {
    if n == 1 then base else base + "-" + Decimal(n)
  }

  function AnchorAt(bases: seq<string>, i: nat): string
    requires i < |bases|
  {
    Numbered(bases[i], Count(bases[..i + 1], bases[i]))
  }

  class SlugAllocator {
    var used: map<string, nat>
    // Slugs of the headings so far.
    ghost var bases: seq<string>

    ghost predicate Valid()
      reads this
    {
      forall b :: Count(bases, b) == if b in used then used[b] else 0
    }

    constructor ()
      ensures Valid() && bases == []
    {
      used, bases := map[], [];
    }

    method Allocate(raw: string) returns (anchor: string)
      requires Valid()
      modifies this
      ensures Valid() && bases == old(bases) + [SlugOf(raw)]
      ensures anchor == AnchorAt(bases, |old(bases)|)
    {
      var base := Slugify(raw);
      var count := (if base in used then used[base] else 0) + 1;
      used := used[base := count];
      bases := bases + [base];
      assert bases[..|bases| - 1] == old(bases);
      assert bases[..|old(bases)| + 1] == bases;
      anchor := if count == 1 then base else base + "-" + Decimal(count);
    }
  }

  // The anchors of a whole document, as the renderer hands them out.
  method AllocateAll(titles: seq<string>) returns (anchors: seq<string>)
    ensures |anchors| == |titles|
    ensures var bases := seq(|titles|, i requires 0 <= i < |titles| => SlugOf(titles[i]));
      forall i | 0 <= i < |titles| :: anchors[i] == AnchorAt(bases, i)
  {
    var allocator := new SlugAllocator();
    anchors := [];
    ghost var bases := seq(|titles|, i requires 0 <= i < |titles| => SlugOf(titles[i]));
    for k := 0 to |titles|
      invariant allocator.Valid() && fresh(allocator) && allocator.bases == bases[..k]
      invariant |anchors| == k && forall i | 0 <= i < k :: anchors[i] == AnchorAt(bases, i)
    {
      var anchor := allocator.Allocate(titles[k]);
      assert bases[..k + 1] == bases[..k] + [bases[k]];
      assert bases[..k + 1][..k + 1] == bases[..k + 1];
      anchors := anchors + [anchor];
    }
  }

  // The numbered anchor of some heading is also the slug of another one.
  ghost predicate Clash(bases: seq<string>) {
    exists b, n: nat :: 2 <= n <= Count(bases, b) && Numbered(b, n) in bases
  }

  ghost predicate DistinctAnchors(bases: seq<string>) {
    forall i, j | 0 <= i < j < |bases| :: AnchorAt(bases, i) != AnchorAt(bases, j)
  }

  lemma {:induction false} CountGrows(bases: seq<string>, m: nat, b: string)
    requires m <= |bases|
    ensures Count(bases[..m], b) <= Count(bases, b)
    decreases |bases|
  {
    if m < |bases| {
      assert bases[..|bases| - 1][..m] == bases[..m];
      CountGrows(bases[..|bases| - 1], m, b);
    } else {
      assert bases[..m] == bases;
    }
  }

  lemma CountAt(bases: seq<string>, i: nat)
    requires i < |bases|
    ensures Count(bases[..i + 1], bases[i]) == Count(bases[..i], bases[i]) + 1
  {
    assert bases[..i + 1][..i] == bases[..i];
  }

  // The dash before the number is the last one, so it tells base and number apart.
  lemma LastDash(base: string, n: nat)
    ensures var s := base + "-" + Decimal(n);
      s[|base|] == '-' && forall k | |base| < k < |s| :: s[k] != '-'
  {
    var s, x := base + "-" + Decimal(n), Decimal(n);
    DecimalIsDigits(n, '-');
    forall k | |base| < k < |s| ensures s[k] != '-' {
      assert s[k] == x[k - |base| - 1] && x[k - |base| - 1] in x;
    }
  }

  lemma NumberedApart(a: string, m: nat, b: string, n: nat)
    requires m >= 2 && n >= 2 && Numbered(a, m) == Numbered(b, n)
    ensures a == b && m == n
  {
    hide Decimal;
    LastDash(a, m);
    LastDash(b, n);
    var s := a + "-" + Decimal(m);
    assert s == b + "-" + Decimal(n);
    assert |a| == |b|;
    assert a == s[..|a|] == b;
    assert Decimal(m) == s[|a| + 1..] == Decimal(n);
    DecimalInjective(m, n);
  }

  lemma SameAnchorClashes(bases: seq<string>, i: nat, j: nat)
    requires i < j < |bases| && AnchorAt(bases, i) == AnchorAt(bases, j)
    ensures Clash(bases)
  {
    var a, b := bases[i], bases[j];
    var m, n := Count(bases[..i + 1], a), Count(bases[..j + 1], b);
    CountAt(bases, i);
    CountAt(bases, j);
    CountGrows(bases, i + 1, a);
    CountGrows(bases, j + 1, b);
    if m >= 2 && n >= 2 {
      NumberedApart(a, m, b, n);
      assert bases[..j][..i + 1] == bases[..i + 1];
      CountGrows(bases[..j], i + 1, a);
    } else if m == 1 && n == 1 {
      assert bases[..j][..i + 1] == bases[..i + 1];
      CountGrows(bases[..j], i + 1, a);
    } else if m == 1 {
      assert Numbered(b, n) in bases;
    } else {
      assert Numbered(a, m) in bases;
    }
  }

  lemma {:induction false} Occurrence(bases: seq<string>, b: string, n: nat) returns (j: nat)
    requires 1 <= n <= Count(bases, b)
    ensures j < |bases| && bases[j] == b && Count(bases[..j + 1], b) == n
    decreases |bases|
  {
    var front := bases[..|bases| - 1];
    if n <= Count(front, b) {
      j := Occurrence(front, b, n);
      assert front[..j + 1] == bases[..j + 1];
    } else {
      j := |bases| - 1;
      assert bases[..j + 1] == bases;
    }
  }

  lemma {:induction false} MemberIsCounted(bases: seq<string>, b: string)
    requires b in bases
    ensures Count(bases, b) >= 1
  {
    var front, last := bases[..|bases| - 1], bases[|bases| - 1];
    if last != b {
      assert bases == front + [last];
      MemberIsCounted(front, b);
    }
  }

  // In every document the anchors are pairwise distinct exactly when no slug is
  // another slug, occurring `n` times or more, with `-n` behind it.
  lemma AnchorsAreDistinctUnlessTheyClash(bases: seq<string>)
    ensures DistinctAnchors(bases) <==> !Clash(bases)
  {
    if !DistinctAnchors(bases) {
      var i, j :| 0 <= i < j < |bases| && AnchorAt(bases, i) == AnchorAt(bases, j);
      SameAnchorClashes(bases, i, j);
    }
    if Clash(bases) {
      var b, n: nat :| 2 <= n <= Count(bases, b) && Numbered(b, n) in bases;
      var other := Numbered(b, n);
      MemberIsCounted(bases, other);
      var i := Occurrence(bases, other, 1);
      var j := Occurrence(bases, b, n);
      assert AnchorAt(bases, i) == other == AnchorAt(bases, j);
      assert |other| > |b|;
      if i < j {
        assert !DistinctAnchors(bases);
      } else {
        assert !DistinctAnchors(bases);
      }
    }
  }

  // `Foo`, `Foo`, `Foo 2`: the second and the third heading share `foo-2`.
  lemma TwoHeadingsOneAnchor()
    ensures var bases := [SlugOf("Foo"), SlugOf("Foo"), SlugOf("Foo 2")];
      AnchorAt(bases, 1) == AnchorAt(bases, 2) == "foo-2"
  {
    hide SlugOf, Count, Decimal, IsSlug, MapChar;
    FooSlugs();
    var one, two, bases := ["foo"], ["foo", "foo"], ["foo", "foo", "foo-2"];
    CountOnce([], "foo", "foo");
    CountOnce(one, "foo", "foo");
    CountOnce([], "foo", "foo-2");
    CountOnce(one, "foo", "foo-2");
    CountOnce(two, "foo-2", "foo-2");
    assert [] + ["foo"] == one && one + ["foo"] == two && two + ["foo-2"] == bases;
    assert bases[..2] == two && bases[..3] == bases;
  }

  lemma FooSlugs()
    ensures SlugOf("Foo") == "foo" && SlugOf("Foo 2") == "foo-2" && "foo" != "foo-2" && Decimal(2) == "2"
  {
    assert |"foo"| != |"foo-2"|;
    hide SlugOf;
    SpellFoo();
    SpellFooTwo();
  }

  lemma SpellFoo()
    ensures SlugOf("Foo") == "foo"
  {
    hide SlugOf;
    assert IsSlug("foo");
    Spell("Foo", "foo");
  }

  lemma SpellFooTwo()
    ensures SlugOf("Foo 2") == "foo-2"
  {
    hide SlugOf;
    assert IsSlug("foo-2");
    Spell("Foo 2", "foo-2");
  }

  lemma CountOnce(bases: seq<string>, last: string, b: string)
    ensures Count(bases + [last], b) == Count(bases, b) + if last == b then 1 else 0
    ensures Count([], b) == 0
  {
    assert (bases + [last])[..|bases|] == bases;
  }

  lemma Spell(title: string, slug: string)
    requires |title| == |slug| && IsSlug(slug)
    requires forall k | 0 <= k < |title| :: MapChar(title[k]) == Some(slug[k])
    ensures SlugOf(title) == slug
  {
    SpellFront(title, slug, |title|);
    assert title[..|title|] == title && slug[..|slug|] == slug;
  }

  lemma {:induction false} SpellFront(title: string, slug: string, n: nat)
    requires |title| == |slug| && IsSlug(slug) && n <= |title|
    requires forall k | 0 <= k < |title| :: MapChar(title[k]) == Some(slug[k])
    ensures Squeeze(title[..n]) == slug[..n]
  {
    if n > 0 {
      SpellFront(title, slug, n - 1);
      assert title[..n][..n - 1] == title[..n - 1];
      assert slug[..n] == slug[..n - 1] + [slug[n - 1]];
      assert n >= 2 ==> slug[..n - 1][n - 2] == slug[n - 2];
    }
  }
}
