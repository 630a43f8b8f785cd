// The four brace-aware scanners of the template pre-pass.
//
// All of them cut the text into the same tokens and differ only in where they
// stop, so one recursive definition, `Find`, specifies them.
module Scanner {
  import opened Text

  // A complete `{{{...}}}`, a `{{{` that is never closed, `{{`, `}}`, or one character.
  datatype Token = Triple(width: nat) | Unclosed | Open | Close | Single

  // `AtClose` stops at the `}}` that closes nothing seen so far;
  // `AtChar(c)` stops at the first `c` outside every brace pair.
  datatype Stop = AtClose | AtChar(c: char)

  // `s` begins with `c` twice, or three times.
  predicate Twice(s: string, c: char) {
    2 <= |s| && s[0] == c && s[1] == c
  }

  predicate Thrice(s: string, c: char) {
    3 <= |s| && s[0] == c && s[1] == c && s[2] == c
  }

  // Offset of the first `}}}`.
  function FindTriple(s: string): (r: Option<nat>)
    ensures r.Some? ==> r.value + 3 <= |s|
  {
    if s == "" then None
    else if Thrice(s, '}') then Some(0)
    else Shift(1, FindTriple(s[1..]))
  }

  function Shift(n: nat, r: Option<nat>): Option<nat> {
    if r.Some? then Some(n + r.value) else None
  }

  function Lex(s: string): (t: Token)
    requires s != ""
    ensures t.Triple? ==> 6 <= t.width <= |s|
    ensures t.Open? || t.Close? ==> 2 <= |s|
  {
    if Thrice(s, '{') then
      var close := FindTriple(s[3..]);
      if close.Some? then Triple(3 + close.value + 3) else Unclosed
    else if Twice(s, '{') then Open
    else if Twice(s, '}') then Close
    else Single
  }

  // Offset at which scanning `s`, already inside `depth` pairs, stops.
  function Find(s: string, depth: int, stop: Stop): (r: Option<nat>)
    ensures r.Some? && stop.AtClose? ==> r.value + 2 <= |s| && s[r.value] == '}' && s[r.value + 1] == '}'
    ensures r.Some? && stop.AtChar? ==> r.value < |s| && s[r.value] == stop.c
    decreases |s|
  {
    if s == "" then None
    else
      match Lex(s)
      case Triple(w) => Shift(w, Find(s[w..], depth, stop))
      case Unclosed => None
      case Open => Shift(2, Find(s[2..], depth + 1, stop))
      case Close =>
        if stop.AtClose? && depth == 0 then Some(0)
        else Shift(2, Find(s[2..], depth - 1, stop))
      case Single =>
        if stop.AtChar? && depth == 0 && s[0] == stop.c then Some(0)
        else Shift(1, Find(s[1..], depth, stop))
  }

  // The segments between top-level `|`.
  function Split(s: string): (parts: seq<string>)
    ensures parts != []
    decreases |s|
  {
    var bar := Find(s, 0, AtChar('|'));
    if bar.None? then [s] else [s[..bar.value]] + Split(s[bar.value + 1..])
  }

  // Splitting loses nothing: joining the segments with `|` gives the text back.
  lemma {:induction false} JoinSplit(s: string)
    ensures Join(Split(s), "|") == s
    decreases |s|
  {
    var bar := Find(s, 0, AtChar('|'));
    if bar.Some? {
      var rest := s[bar.value + 1..];
      JoinSplit(rest);
      assert Split(s) == [s[..bar.value]] + Split(rest);
      assert Split(s)[1..] == Split(rest);
      assert s == s[..bar.value] + "|" + rest;
    }
  }
}
