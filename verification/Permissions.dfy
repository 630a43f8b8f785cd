// Permission sets as text: formatting writes the known flags, parsing reads
// flag names in any case, order and number.
module Permissions {
  import opened Text

  // The bits of a permission set; only the lowest ones have a name.
  type Bits = set<nat>

  const NAMES: seq<string> := [
    "READ", "EDIT", "CREATE", "DELETE", "MOVE", "PROTECT", "MANAGE_USERS", "MANAGE_ROLES",
    "MANAGE_NAMESPACES", "VIEW_AUDIT_LOG", "MANAGE_BLOCKLIST", "REVIEW_EDITS"]

  const COUNT := 12

  function NameOf(k: nat): string
    requires k < COUNT
  {
    NAMES[k]
  }

  datatype Parsed = Ok(flags: Bits) | Unknown(word: string)

  function Known(p: Bits): Bits {
    set k | k in p && k < COUNT
  }

  // Names of the flags from bit `k` on.
  function FlagNames(p: Bits, k: nat): seq<string>
    requires k <= COUNT
    decreases COUNT - k
  {
    if k == COUNT then [] else (if k in p then [NameOf(k)] else []) + FlagNames(p, k + 1)
  }

  method PermissionFlags(p: Bits) returns (parts: seq<string>)
    ensures parts == FlagNames(p, 0)
  {
    parts := [];
    for k := 0 to COUNT
      invariant parts + FlagNames(p, k) == FlagNames(p, 0)
    {
      var own := if k in p then [NameOf(k)] else [];
      Assoc(parts, own, FlagNames(p, k + 1));
      parts := parts + own;
    }
    assert parts + [] == parts;
  }

  // ---- Parsing

  predicate EqIgnoreCase(a: string, b: string) {
    |a| == |b| && forall k | 0 <= k < |a| :: LowerCase(a[k]) == LowerCase(b[k])
  }

  // The first flag of this name.
  function FlagFrom(word: string, k: nat): (r: Option<nat>)
    requires k <= COUNT
    ensures r.Some? ==> k <= r.value < COUNT && EqIgnoreCase(NameOf(r.value), word)
    ensures r.None? ==> forall j | k <= j < COUNT :: !EqIgnoreCase(NameOf(j), word)
    decreases COUNT - k
  {
    if k == COUNT then None
    else if EqIgnoreCase(NameOf(k), word) then Some(k)
    else FlagFrom(word, k + 1)
  }

  function FlagOf(word: string): Option<nat> {
    FlagFrom(word, 0)
  }

  // `str::split('|')`
  function SplitBars(s: string): (parts: seq<string>)
    ensures parts != []
  {
    if s == "" then [""]
    else if s[0] == '|' then [""] + SplitBars(s[1..])
    else
      var rest := SplitBars(s[1..]);
      [[s[0]] + rest[0]] + rest[1..]
  }

  function TrimAll(tokens: seq<string>): seq<string> {
    if tokens == [] then []
    else (if Trim(tokens[0]) == "" then [] else [Trim(tokens[0])]) + TrimAll(tokens[1..])
  }

  // The words the caller supplied.
  function Words(input: seq<string>): seq<string> {
    if input == [] then [] else TrimAll(SplitBars(input[0])) + Words(input[1..])
  }

  // The words before the first unknown one are read; that one is reported.
  function ParseWords(words: seq<string>, flags: Bits): Parsed {
    if words == [] then Ok(flags)
    else if FlagOf(words[0]).None? then Unknown(words[0])
    else ParseWords(words[1..], flags + {FlagOf(words[0]).value})
  }

  method ParsePermissions(input: seq<string>) returns (r: Parsed)
    ensures r == ParseWords(Words(input), {})
  {
    hide FlagOf, SplitBars, Trim;
    var flags: Bits := {};
    assert input[0..] == input;
    for i := 0 to |input|
      invariant ParseWords(Words(input[i..]), flags) == ParseWords(Words(input), {})
    {
      var tokens := SplitBars(input[i]);
      ghost var later := Words(input[i + 1..]);
      assert input[i..][0] == input[i] && input[i..][1..] == input[i + 1..];
      assert tokens[0..] == tokens;
      for j := 0 to |tokens|
        invariant ParseWords(TrimAll(tokens[j..]) + later, flags) == ParseWords(Words(input), {})
      {
        var word := Trim(tokens[j]);
        NextWord(tokens, j, later, flags);
        if word == "" {
          continue;
        }
        var flag := FlagOf(word);
        if flag.None? {
          return Unknown(word);
        }
        flags := flags + {flag.value};
      }
      assert TrimAll(tokens[|tokens|..]) + later == later;
    }
    r := Ok(flags);
  }

  lemma NextWord(tokens: seq<string>, j: nat, later: seq<string>, flags: Bits)
    requires j < |tokens|
    ensures var word := Trim(tokens[j]); var more := TrimAll(tokens[j + 1..]) + later;
      ParseWords(TrimAll(tokens[j..]) + later, flags) ==
      if word == "" then ParseWords(more, flags)
      else if FlagOf(word).None? then Unknown(word)
      else ParseWords(more, flags + {FlagOf(word).value})
  {
    hide FlagOf, Trim;
    var word := Trim(tokens[j]);
    var more := TrimAll(tokens[j + 1..]);
    assert tokens[j..][0] == tokens[j] && tokens[j..][1..] == tokens[j + 1..];
    if word == "" {
      assert [] + more == more;
    } else {
      Assoc([word], more, later);
      assert ([word] + (more + later))[1..] == more + later;
    }
  }

  // ---- What parsing means

  predicate AllKnown(words: seq<string>) {
    forall w | w in words :: FlagOf(w).Some?
  }

  function FlagSet(words: seq<string>): Bits {
    set w | w in words && FlagOf(w).Some? :: FlagOf(w).value
  }

  // The word at `k` is the first unknown one.
  predicate FirstUnknown(words: seq<string>, k: nat) {
    k < |words| && AllKnown(words[..k]) && FlagOf(words[k]).None?
  }

  lemma KnownFirst(w: string, rest: seq<string>)
    ensures AllKnown([w] + rest) <==> FlagOf(w).Some? && AllKnown(rest)
    ensures FlagOf(w).Some? ==> FlagSet([w] + rest) == {FlagOf(w).value} + FlagSet(rest)
  {
    hide FlagOf;
    var words := [w] + rest;
    assert words[0] == w && forall k | 0 <= k < |rest| :: words[k + 1] == rest[k];
    forall x ensures x in words <==> x == w || x in rest {
    }
  }

  lemma UnknownLater(w: string, rest: seq<string>, k: nat)
    requires FlagOf(w).Some? && FirstUnknown(rest, k)
    ensures FirstUnknown([w] + rest, k + 1) && ([w] + rest)[k + 1] == rest[k]
  {
    hide FlagOf, AllKnown;
    KnownFirst(w, rest[..k]);
    assert ([w] + rest)[..k + 1] == [w] + rest[..k];
  }

  // Parsing succeeds exactly when every word is known, with the flags of all
  // words, and otherwise reports the first unknown one.
  lemma {:induction false} ParseIsFlagSet(words: seq<string>, flags: Bits)
    ensures AllKnown(words) <==> ParseWords(words, flags).Ok?
    ensures AllKnown(words) ==> ParseWords(words, flags) == Ok(flags + FlagSet(words))
    ensures !AllKnown(words) ==>
              exists k: nat | k < |words| :: FirstUnknown(words, k) && ParseWords(words, flags) == Unknown(words[k])
  {
    hide FlagOf, AllKnown, FlagSet, FirstUnknown;
    if words == [] {
      NoWords();
      assert flags + {} == flags;
    } else {
      var w, rest := words[0], words[1..];
      assert words == [w] + rest;
      KnownFirst(w, rest);
      if FlagOf(w).None? {
        FirstIsUnknown(words);
      } else {
        var more := flags + {FlagOf(w).value};
        ParseIsFlagSet(rest, more);
        assert more + FlagSet(rest) == flags + ({FlagOf(w).value} + FlagSet(rest));
        if !AllKnown(words) {
          var k: nat :| k < |rest| && FirstUnknown(rest, k) && ParseWords(rest, more) == Unknown(rest[k]);
          UnknownLater(w, rest, k);
        }
      }
    }
  }

  lemma NoWords()
    ensures AllKnown([]) && FlagSet([]) == {}
  {
  }

  lemma FirstIsUnknown(words: seq<string>)
    requires words != [] && FlagOf(words[0]).None?
    ensures FirstUnknown(words, 0)
  {
    hide FlagOf;
  }

  // Order and repetition of the words do not matter.
  lemma OrderAndRepetitionDoNotMatter(a: seq<string>, b: seq<string>)
    requires forall w :: w in Words(a) <==> w in Words(b)
    ensures var x, y := ParseWords(Words(a), {}), ParseWords(Words(b), {});
      (x.Ok? <==> y.Ok?) && (x.Ok? ==> x == y)
  {
    hide FlagOf, Words;
    ParseIsFlagSet(Words(a), {});
    ParseIsFlagSet(Words(b), {});
  }

  lemma {:induction false} SplitJoined(a: string, b: string)
    ensures SplitBars(a + "|" + b) == SplitBars(a) + SplitBars(b)
  {
    if a == "" {
      assert (a + "|" + b)[1..] == b;
    } else {
      assert (a + "|" + b)[1..] == a[1..] + "|" + b;
      SplitJoined(a[1..], b);
    }
  }

  lemma {:induction false} TrimAllAppend(a: seq<string>, b: seq<string>)
    ensures TrimAll(a + b) == TrimAll(a) + TrimAll(b)
  {
    if a == [] {
      assert a + b == b;
    } else {
      assert (a + b)[1..] == a[1..] + b;
      TrimAllAppend(a[1..], b);
    }
  }

  // A list of names, and the same names in one string with bars between them.
  lemma {:induction false} JoiningDoesNotMatter(input: seq<string>)
    requires input != []
    ensures Words([Join(input, "|")]) == Words(input)
  {
    hide Trim;
    var joined := Join(input, "|");
    assert [joined][1..] == [] && Words([joined]) == TrimAll(SplitBars(joined));
    if |input| > 1 {
      JoiningDoesNotMatter(input[1..]);
      var rest := Join(input[1..], "|");
      assert [rest][1..] == [] && Words([rest]) == TrimAll(SplitBars(rest));
      SplitJoined(input[0], rest);
      TrimAllAppend(SplitBars(input[0]), SplitBars(rest));
    } else {
      assert input[1..] == [];
    }
  }

  // ---- Upper and lower case

  // The same letter, or a letter in upper and in lower case.
  predicate SameLetter(a: char, b: char) {
    || a == b
    || ('A' <= a <= 'Z' && b as int == a as int + 32)
    || ('A' <= b <= 'Z' && a as int == b as int + 32)
  }

  predicate SameButForCase(a: string, b: string) {
    |a| == |b| && forall k | 0 <= k < |a| :: SameLetter(a[k], b[k])
  }

  predicate AllSameButForCase(a: seq<string>, b: seq<string>) {
    |a| == |b| && forall k | 0 <= k < |a| :: SameButForCase(a[k], b[k])
  }

  lemma LowerIff(a: char, b: char)
    ensures LowerCase(a) == LowerCase(b) <==> SameLetter(a, b)
  {
  }

  lemma EqIff(a: string, b: string)
    ensures EqIgnoreCase(a, b) <==> SameButForCase(a, b)
  {
    hide LowerCase, SameLetter;
    if |a| == |b| {
      forall k | 0 <= k < |a| ensures LowerCase(a[k]) == LowerCase(b[k]) <==> SameLetter(a[k], b[k]) {
        LowerIff(a[k], b[k]);
      }
    }
  }

  // A word names the flag whose name it is up to case, and no other.
  lemma FlagIsByName(word: string, k: nat)
    requires k < COUNT
    ensures FlagOf(word) == Some(k) <==> SameButForCase(NameOf(k), word)
  {
    hide LowerCase, NameOf, SameLetter;
    EqIff(NameOf(k), word);
    var r := FlagOf(word);
    if SameButForCase(NameOf(k), word) {
      BothNamed(NameOf(r.value), NameOf(k), word);
      NamesAreDistinct(r.value, k);
    }
  }

  lemma BothNamed(a: string, b: string, word: string)
    requires EqIgnoreCase(a, word) && EqIgnoreCase(b, word)
    ensures EqIgnoreCase(a, b)
  {
    hide LowerCase;
  }

  lemma FlagIgnoresCase(a: string, b: string)
    requires SameButForCase(a, b)
    ensures FlagOf(a) == FlagOf(b)
  {
    hide LowerCase, NameOf;
    EqIff(a, b);
    FlagFromIgnoresCase(a, b, 0);
  }

  lemma {:induction false} FlagFromIgnoresCase(a: string, b: string, k: nat)
    requires EqIgnoreCase(a, b) && k <= COUNT
    ensures FlagFrom(a, k) == FlagFrom(b, k)
    decreases COUNT - k
  {
    hide LowerCase, NameOf;
    if k < COUNT {
      FlagFromIgnoresCase(a, b, k + 1);
      SameEq(NameOf(k), a, b);
    }
  }

  lemma SameEq(name: string, a: string, b: string)
    requires EqIgnoreCase(a, b)
    ensures EqIgnoreCase(name, a) <==> EqIgnoreCase(name, b)
  {
    hide LowerCase;
  }

  lemma {:induction false} TrimIgnoresCase(a: string, b: string)
    requires SameButForCase(a, b)
    ensures SameButForCase(Trim(a), Trim(b))
  {
    TrimStartIgnoresCase(a, b);
    TrimEndIgnoresCase(TrimStart(a), TrimStart(b));
  }

  lemma {:induction false} TrimStartIgnoresCase(a: string, b: string)
    requires SameButForCase(a, b)
    ensures SameButForCase(TrimStart(a), TrimStart(b))
  {
    if a != "" {
      assert IsWhitespace(a[0]) <==> IsWhitespace(b[0]) by { NoCaseOfSpace(a[0], b[0]); }
      if IsWhitespace(a[0]) {
        TrimStartIgnoresCase(a[1..], b[1..]);
      }
    }
  }

  lemma {:induction false} TrimEndIgnoresCase(a: string, b: string)
    requires SameButForCase(a, b)
    ensures SameButForCase(TrimEnd(a), TrimEnd(b))
  {
    if a != "" {
      NoCaseOfSpace(a[|a| - 1], b[|b| - 1]);
      if IsWhitespace(a[|a| - 1]) {
        TrimEndIgnoresCase(a[..|a| - 1], b[..|b| - 1]);
      }
    }
  }

  lemma NoCaseOfSpace(a: char, b: char)
    requires SameLetter(a, b)
    ensures (IsWhitespace(a) <==> IsWhitespace(b)) && (a == '|' <==> b == '|')
  {
  }

  lemma {:induction false} SplitIgnoresCase(a: string, b: string)
    requires SameButForCase(a, b)
    ensures AllSameButForCase(SplitBars(a), SplitBars(b))
  {
    hide SameLetter;
    if a != "" {
      NoCaseOfSpace(a[0], b[0]);
      SplitIgnoresCase(a[1..], b[1..]);
    }
  }

  lemma {:induction false} TrimAllIgnoresCase(a: seq<string>, b: seq<string>)
    requires AllSameButForCase(a, b)
    ensures AllSameButForCase(TrimAll(a), TrimAll(b))
  {
    hide Trim, SameLetter;
    if a != [] {
      TrimIgnoresCase(a[0], b[0]);
      TrimAllIgnoresCase(a[1..], b[1..]);
    }
  }

  lemma {:induction false} WordsIgnoreCase(a: seq<string>, b: seq<string>)
    requires AllSameButForCase(a, b)
    ensures AllSameButForCase(Words(a), Words(b))
  {
    hide Trim, SameLetter, SplitBars, TrimAll, SameButForCase;
    if a != [] {
      SplitIgnoresCase(a[0], b[0]);
      TrimAllIgnoresCase(SplitBars(a[0]), SplitBars(b[0]));
      WordsIgnoreCase(a[1..], b[1..]);
    }
  }

  // Parsing does not depend on the case of letters: the same flags, or the same
  // unknown word.
  lemma CaseDoesNotMatter(a: seq<string>, b: seq<string>)
    requires AllSameButForCase(a, b)
    ensures var x, y := ParseWords(Words(a), {}), ParseWords(Words(b), {});
      if x.Ok? then x == y else y.Unknown? && SameButForCase(x.word, y.word)
  {
    hide Words;
    WordsIgnoreCase(a, b);
    ParseIgnoresCase(Words(a), Words(b), {});
  }

  lemma {:induction false} ParseIgnoresCase(a: seq<string>, b: seq<string>, flags: Bits)
    requires AllSameButForCase(a, b)
    ensures var x, y := ParseWords(a, flags), ParseWords(b, flags);
      if x.Ok? then x == y else y.Unknown? && SameButForCase(x.word, y.word)
  {
    hide FlagOf, SameButForCase;
    if a != [] {
      FlagIgnoresCase(a[0], b[0]);
      if FlagOf(a[0]).Some? {
        ParseIgnoresCase(a[1..], b[1..], flags + {FlagOf(a[0]).value});
      }
    }
  }

  lemma FlagNamesSplit(p: Bits, k: nat)
    requires k <= COUNT
    ensures k == COUNT ==> FlagNames(p, k) == []
    ensures k < COUNT && k in p ==> FlagNames(p, k) == [NameOf(k)] + FlagNames(p, k + 1)
    ensures k < COUNT && k !in p ==> FlagNames(p, k) == FlagNames(p, k + 1)
  {
    hide NameOf;
    if k < COUNT && k !in p {
      assert [] + FlagNames(p, k + 1) == FlagNames(p, k + 1);
    }
  }

  // The names of a set stand in bit order.
  lemma {:induction false} NamesInBitOrder(p: Bits, k: nat, i: nat, j: nat) returns (a: nat, b: nat)
    requires k <= COUNT && i < j < |FlagNames(p, k)|
    ensures k <= a < b < COUNT && a in p && b in p
    ensures FlagNames(p, k)[i] == NameOf(a) && FlagNames(p, k)[j] == NameOf(b)
    decreases COUNT - k
  {
    hide NameOf, FlagNames;
    FlagNamesSplit(p, k);
    if k !in p {
      a, b := NamesInBitOrder(p, k + 1, i, j);
    } else if i > 0 {
      a, b := NamesInBitOrder(p, k + 1, i - 1, j - 1);
    } else {
      a := k;
      b := NameAt(p, k + 1, j - 1);
    }
  }

  lemma {:induction false} NameAt(p: Bits, k: nat, j: nat) returns (b: nat)
    requires k <= COUNT && j < |FlagNames(p, k)|
    ensures k <= b < COUNT && b in p && FlagNames(p, k)[j] == NameOf(b)
    decreases COUNT - k
  {
    hide NameOf, FlagNames;
    FlagNamesSplit(p, k);
    if k !in p {
      b := NameAt(p, k + 1, j);
    } else if j > 0 {
      b := NameAt(p, k + 1, j - 1);
    } else {
      b := k;
    }
  }

  // ---- Round trip

  lemma NamesArePlain(k: nat)
    requires k < COUNT
    ensures IsName(NameOf(k))
  {
  }

  // Length and two letters tell the names apart in any case.
  lemma NamesAreDistinct(i: nat, j: nat)
    requires i < COUNT && j < COUNT && EqIgnoreCase(NameOf(i), NameOf(j))
    ensures i == j
  {
    assert LowerCase(NameOf(i)[0]) == LowerCase(NameOf(j)[0]);
    assert |NameOf(i)| == 12 ==> LowerCase(NameOf(i)[7]) == LowerCase(NameOf(j)[7]);
  }

  lemma OwnName(k: nat)
    requires k < COUNT
    ensures FlagOf(NameOf(k)) == Some(k)
  {
    hide LowerCase, NameOf;
    assert EqIgnoreCase(NameOf(k), NameOf(k));
    var r := FlagOf(NameOf(k));
    NamesAreDistinct(r.value, k);
  }

  predicate IsName(n: string) {
    n != "" && '|' !in n && !IsWhitespace(n[0]) && !IsWhitespace(n[|n| - 1])
  }

  predicate IsPad(pad: string) {
    pad == "" || pad == " "
  }

  lemma TrimPadded(pad: string, n: string, after: string)
    requires IsName(n) && IsPad(pad) && IsPad(after)
    ensures Trim(pad + n + after) == n
  {
    var s := pad + n + after;
    var t := n + after;
    assert TrimStart(s) == t by {
      if pad == "" {
        assert s == t && t[0] == n[0];
      } else {
        assert s[0] == ' ' && s[1..] == t && t[0] == n[0];
      }
    }
    if after == "" {
      assert t == n;
    } else {
      assert t[|t| - 1] == ' ' && t[..|t| - 1] == n;
      assert TrimEnd(t) == TrimEnd(n);
    }
  }

  lemma {:induction false} SplitName(n: string)
    requires '|' !in n
    ensures SplitBars(n) == [n]
  {
    if n != "" {
      assert n[0] in n;
      SplitName(n[1..]);
      assert [n[0]] + n[1..] == n;
    }
  }

  // Reading joined names back, after a separator or at the start.
  lemma {:induction false} ReadNames(pad: string, names: seq<string>)
    requires IsPad(pad) && forall n | n in names :: IsName(n)
    ensures TrimAll(SplitBars(pad + Join(names, " | "))) == names
    decreases |names|
  {
    hide SplitBars, Trim;
    if names == [] {
      assert pad + "" == pad;
      SplitName(pad);
      BlankIsNothing(pad);
    } else {
      var n, rest := names[0], names[1..];
      assert n in names && forall x | x in rest :: x in names;
      if rest == [] {
        SplitName(pad + n);
        TrimPadded(pad, n, "");
        assert pad + n + "" == pad + n;
        OneWord(pad + n, []);
      } else {
        var joined := Join(rest, " | ");
        ReadNames(" ", rest);
        assert pad + (n + " | " + joined) == pad + n + " " + "|" + (" " + joined);
        SplitJoined(pad + n + " ", " " + joined);
        SplitName(pad + n + " ");
        TrimPadded(pad, n, " ");
        OneWord(pad + n + " ", SplitBars(" " + joined));
      }
      assert names == [n] + rest;
    }
  }

  lemma BlankIsNothing(pad: string)
    requires IsPad(pad)
    ensures TrimAll([pad]) == []
  {
    if pad != "" {
      assert pad[1..] == "" && TrimStart(pad) == "";
    }
  }

  lemma OneWord(token: string, rest: seq<string>)
    ensures TrimAll([token] + rest) == (if Trim(token) == "" then [] else [Trim(token)]) + TrimAll(rest)
    ensures [token] + [] == [token] && TrimAll([]) == []
  {
    hide Trim;
    assert ([token] + rest)[1..] == rest;
  }

  // `n` names a flag of `p` from bit `k` on.
  predicate NamesFlag(p: Bits, k: nat, n: string)
    requires k <= COUNT
  {
    exists j | k <= j < COUNT && j in p :: n == NameOf(j)
  }

  lemma NamesFlagStep(p: Bits, k: nat, n: string)
    requires k < COUNT
    ensures NamesFlag(p, k, n) <==> (k in p && n == NameOf(k)) || NamesFlag(p, k + 1, n)
  {
    hide NameOf;
  }

  lemma {:induction false} NamesOfFlags(p: Bits, k: nat, n: string)
    requires k <= COUNT
    ensures n in FlagNames(p, k) <==> NamesFlag(p, k, n)
    decreases COUNT - k
  {
    hide NameOf, NamesFlag, FlagNames;
    FlagNamesStep(p, k, n);
    if k < COUNT {
      NamesFlagStep(p, k, n);
      NamesOfFlags(p, k + 1, n);
    } else {
      NoNamesLeft(p, n);
    }
  }

  lemma FlagNamesStep(p: Bits, k: nat, n: string)
    requires k <= COUNT
    ensures n in FlagNames(p, k) <==> k < COUNT && ((k in p && n == NameOf(k)) || n in FlagNames(p, k + 1))
  {
    hide NameOf;
  }

  lemma NoNamesLeft(p: Bits, n: string)
    ensures !NamesFlag(p, COUNT, n)
  {
  }

  // Parsing what was formatted gives back the flags that have a name.
  lemma FormatParses(p: Bits)
    ensures ParseWords(Words([Join(FlagNames(p, 0), " | ")]), {}) == Ok(Known(p))
  {
    hide FlagOf, SplitBars, Trim, FlagNames, NameOf, IsName, TrimAll;
    var names := FlagNames(p, 0);
    forall n | n in names ensures IsName(n) && FlagOf(n).Some? && FlagOf(n).value in Known(p) {
      NamesOfFlags(p, 0, n);
      var k :| 0 <= k < COUNT && k in p && n == NameOf(k);
      NamesArePlain(k);
      OwnName(k);
    }
    forall k | k in Known(p) ensures k in FlagSet(names) {
      NamesOfFlags(p, 0, NameOf(k));
      OwnName(k);
    }
    WordsOfFormat(p);
    ParseIsFlagSet(names, {});
    assert {} + FlagSet(names) == Known(p);
  }

  lemma WordsOfFormat(p: Bits)
    requires forall n | n in FlagNames(p, 0) :: IsName(n)
    ensures Words([Join(FlagNames(p, 0), " | ")]) == FlagNames(p, 0)
  {
    hide SplitBars, Trim, FlagNames, IsName;
    ReadNames("", FlagNames(p, 0));
    assert "" + Join(FlagNames(p, 0), " | ") == Join(FlagNames(p, 0), " | ");
    var text := Join(FlagNames(p, 0), " | ");
    assert [text][1..] == [] && Words([text]) == TrimAll(SplitBars(text)) + [];
  }

  // Pipe-separated names, which parse back to the named flags.
  method FormatPermissions(p: Bits) returns (text: string)
    ensures text == Join(FlagNames(p, 0), " | ")
    ensures ParseWords(Words([text]), {}) == Ok(Known(p))
  {
    FormatParses(p);
    hide NameOf, Join, Words, ParseWords, Known;
    var parts: seq<string> := [];
    for k := 0 to COUNT
      invariant parts + FlagNames(p, k) == FlagNames(p, 0)
    {
      if k in p {
        Assoc(parts, [NameOf(k)], FlagNames(p, k + 1));
        parts := parts + [NameOf(k)];
      } else {
        assert [] + FlagNames(p, k + 1) == FlagNames(p, k + 1);
      }
    }
    assert parts + [] == parts;
    text := Join(parts, " | ");
  }
}
