// Strings as the renderer sees them: sequences of Unicode scalar values.
module Text {

  datatype Option<+T> = None | Some(value: T)

  // The Unicode `White_Space` property, which is what `str::trim` strips.
  predicate IsWhitespace(c: char) {
    '\U{9}' <= c <= '\U{d}' || c == ' ' || c == '\U{85}' || c == '\U{a0}' || c == '\U{1680}'
    || '\U{2000}' <= c <= '\U{200a}' || c == '\U{2028}' || c == '\U{2029}' || c == '\U{202f}'
    || c == '\U{205f}' || c == '\U{3000}'
  }

  function TrimStart(s: string): string {
    if s != "" && IsWhitespace(s[0]) then TrimStart(s[1..]) else s
  }

  function TrimEnd(s: string): string {
    if s != "" && IsWhitespace(s[|s| - 1]) then TrimEnd(s[..|s| - 1]) else s
  }

  function Trim(s: string): string {
    TrimEnd(TrimStart(s))
  }

  // The part of `s` before the first character of `stops`, or all of it.
  function UpTo(s: string, stops: set<char>): (r: string)
    ensures r <= s
  {
    if s == "" || s[0] in stops then "" else [s[0]] + UpTo(s[1..], stops)
  }

  function DropLeading(s: string, c: char): string {
    if s != "" && s[0] == c then DropLeading(s[1..], c) else s
  }

  // ASCII only.
  function LowerCase(c: char): char {
    if 'A' <= c <= 'Z' then (c as int - 'A' as int + 'a' as int) as char else c
  }

  // `usize::to_string`.
  function Decimal(n: nat): string {
    if n < 10 then [Digit(n)] else Decimal(n / 10) + [Digit(n % 10)]
  }

  function Digit(n: nat): char
    requires n < 10
  {
    "0123456789"[n]
  }

  function Join(parts: seq<string>, separator: string): string {
    if parts == [] then ""
    else if |parts| == 1 then parts[0]
    else parts[0] + separator + Join(parts[1..], separator)
  }

  lemma {:induction false} TrimIsSlice(s: string, c: char)
    ensures c in TrimStart(s) ==> c in s
    ensures c in TrimEnd(s) ==> c in s
    ensures c in Trim(s) ==> c in s
    decreases |s|
  {
    TrimStartIsSlice(s, c);
    TrimEndIsSlice(s, c);
    TrimEndIsSlice(TrimStart(s), c);
  }

  lemma {:induction false} TrimStartIsSlice(s: string, c: char)
    ensures |TrimStart(s)| <= |s|
    ensures c in TrimStart(s) ==> c in s
  {
    if s != "" && IsWhitespace(s[0]) {
      TrimStartIsSlice(s[1..], c);
    }
  }

  lemma {:induction false} TrimEndIsSlice(s: string, c: char)
    ensures |TrimEnd(s)| <= |s|
    ensures c in TrimEnd(s) ==> c in s
  {
    if s != "" && IsWhitespace(s[|s| - 1]) {
      TrimEndIsSlice(s[..|s| - 1], c);
    }
  }

  // The 25 characters of the property, of which six are ASCII.
  lemma WhitespaceIs(c: char)
    ensures IsWhitespace(c) <==>
            c as int in {0x9, 0xa, 0xb, 0xc, 0xd, 0x20, 0x85, 0xa0, 0x1680, 0x2000, 0x2001, 0x2002, 0x2003, 0x2004, 0x2005,
                         0x2006, 0x2007, 0x2008, 0x2009, 0x200a, 0x2028, 0x2029, 0x202f, 0x205f, 0x3000}
  {
  }

  // Trimming takes off white space only, and leaves none at either end.
  lemma TrimIsTheCore(s: string) returns (i: nat, j: nat)
    ensures i <= j <= |s| && Trim(s) == s[i..j]
    ensures forall k | 0 <= k < i || j <= k < |s| :: IsWhitespace(s[k])
    ensures i < j ==> !IsWhitespace(s[i]) && !IsWhitespace(s[j - 1])
  {
    i := TrimStartDrops(s);
    var t := TrimStart(s);
    var n := TrimEndDrops(t);
    j := i + n;
    assert t == s[i..] && forall k | n <= k < |t| :: t[k] == s[i + k];
    forall k | j <= k < |s| ensures IsWhitespace(s[k]) {
      assert s[k] == t[k - i];
    }
    if n > 0 {
      assert t[0] == s[i] && t[n - 1] == s[j - 1];
      TrimStartStops(s);
    }
  }

  lemma {:induction false} TrimStartDrops(s: string) returns (i: nat)
    ensures i <= |s| && TrimStart(s) == s[i..] && forall k | 0 <= k < i :: IsWhitespace(s[k])
  {
    i := 0;
    if s != "" && IsWhitespace(s[0]) {
      var n := TrimStartDrops(s[1..]);
      i := n + 1;
      assert forall k | 1 <= k < i :: s[k] == s[1..][k - 1];
    }
  }

  lemma {:induction false} TrimEndDrops(s: string) returns (n: nat)
    ensures n <= |s| && TrimEnd(s) == s[..n] && (n > 0 ==> !IsWhitespace(s[n - 1]))
    ensures forall k | n <= k < |s| :: IsWhitespace(s[k])
  {
    n := |s|;
    if s != "" && IsWhitespace(s[|s| - 1]) {
      n := TrimEndDrops(s[..|s| - 1]);
    }
  }

  // The part up to the first stop.
  lemma {:induction false} UpToStops(head: string, rest: string, stops: set<char>)
    requires forall c | c in head :: c !in stops
    requires rest == "" || rest[0] in stops
    ensures UpTo(head + rest, stops) == head
  {
    if head == "" {
      assert head + rest == rest;
    } else {
      assert (head + rest)[1..] == head[1..] + rest && head[0] in head;
      UpToStops(head[1..], rest, stops);
    }
  }

  // Trimming leaves no white space at either end, so trimming again changes nothing.
  lemma TrimTwice(s: string)
    ensures Trim(Trim(s)) == Trim(s)
  {
    TrimStartStops(s);
    TrimEndStops(TrimStart(s));
  }

  lemma {:induction false} TrimStartStops(s: string)
    ensures var t := TrimStart(s); t != "" ==> !IsWhitespace(t[0])
  {
    if s != "" && IsWhitespace(s[0]) {
      TrimStartStops(s[1..]);
    }
  }

  lemma TrimIsEmptyIff(s: string)
    ensures Trim(s) == "" <==> TrimStart(s) == ""
  {
    TrimStartStops(s);
    var t := TrimStart(s);
    if t != "" {
      FirstStays(t);
    }
  }

  lemma {:induction false} FirstStays(t: string)
    requires t != "" && !IsWhitespace(t[0])
    ensures TrimEnd(t) != ""
  {
    if |t| > 1 && IsWhitespace(t[|t| - 1]) {
      FirstStays(t[..|t| - 1]);
    }
  }

  lemma {:induction false} TrimEndStops(s: string)
    ensures var t := TrimEnd(s); t <= s && (t != "" ==> !IsWhitespace(t[|t| - 1]))
    ensures TrimEnd(TrimEnd(s)) == TrimEnd(s)
  {
    if s != "" && IsWhitespace(s[|s| - 1]) {
      TrimEndStops(s[..|s| - 1]);
    }
  }

  lemma {:induction false} DecimalIsDigits(n: nat, c: char)
    ensures Decimal(n) != ""
    ensures c in Decimal(n) ==> '0' <= c <= '9'
  {
    if n >= 10 {
      DecimalIsDigits(n / 10, c);
    }
  }

  // A numeral, read from its most significant digit.
  function ReadDecimal(s: string): int {
    if s == "" then 0 else 10 * ReadDecimal(s[..|s| - 1]) + (s[|s| - 1] as int - '0' as int)
  }

  // A number is written in decimal digits, most significant first, without leading zeros.
  lemma {:induction false} DecimalReadsBack(n: nat)
    ensures ReadDecimal(Decimal(n)) == n
    ensures forall c | c in Decimal(n) :: '0' <= c <= '9'
    ensures Decimal(n) != "" && (n > 0 ==> Decimal(n)[0] != '0')
  {
    var s := Decimal(n);
    DigitIs(n % 10);
    if n < 10 {
      assert s[..0] == "" && ReadDecimal("") == 0;
    } else {
      DecimalReadsBack(n / 10);
      assert s[..|s| - 1] == Decimal(n / 10);
    }
  }

  lemma DigitIs(n: nat)
    requires n < 10
    ensures Digit(n) as int == '0' as int + n
  {
  }

  lemma {:induction false} DecimalInjective(m: nat, n: nat)
    requires Decimal(m) == Decimal(n)
    ensures m == n
  {
    DecimalIsDigits(m / 10, '0');
    DecimalIsDigits(n / 10, '0');
    assert Decimal(m)[|Decimal(m)| - 1] == Digit(m % 10);
    assert Decimal(n)[|Decimal(n)| - 1] == Digit(n % 10);
    if m >= 10 && n >= 10 {
      assert Decimal(m)[..|Decimal(m)| - 1] == Decimal(m / 10);
      assert Decimal(n)[..|Decimal(n)| - 1] == Decimal(n / 10);
      DecimalInjective(m / 10, n / 10);
    }
  }

  lemma Assoc<T>(a: seq<T>, b: seq<T>, c: seq<T>)
    ensures a + b + c == a + (b + c)
  {
  }

  // Taking `open + inner + close + rest` apart again.
  lemma Enclosed(open: string, inner: string, close: string, rest: string)
    ensures var s := open + inner + close + rest;
      && s[|open|..] == inner + (close + rest)
      && s[|open|..|open| + |inner|] == inner
      && s[|open| + |inner| + |close|..] == rest
  {
  }
}
