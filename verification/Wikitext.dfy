// Well-formed template source: the trees that the `{{Name|arg|key=value}}`
// surface syntax is meant to denote, and the text each of them is written as.
module Wikitext {
  import opened Text
  import opened Scanner

  // A document is a list of nodes: plain text, a `{{{name|default}}}`
  // reference or a `{{name|...}}` call, each followed by the rest.
  datatype Doc =
    | End
    | Plain(text: string, rest: Doc)
    | Ref(name: string, default: Option<Doc>, rest: Doc)
    | Call(name: string, args: Args, rest: Doc)

  datatype Args =
    | NoArgs
    | Positional(value: Doc, rest: Args)
    | Named(key: string, value: Doc, rest: Args)

  function Print(t: Doc): string {
    match t
    case End => ""
    case Plain(text, rest) => text + Print(rest)
    case Ref(name, default, rest) => "{{{" + PrintRef(name, default) + "}}}" + Print(rest)
    case Call(name, args, rest) => "{{" + (name + PrintArgs(args)) + "}}" + Print(rest)
  }

  function PrintRef(name: string, default: Option<Doc>): string
    decreases default
  {
    match default
    case None => name
    case Some(d) => name + "|" + Print(d)
  }

  function PrintArgs(args: Args): string {
    match args
    case NoArgs => ""
    case Positional(value, rest) => "|" + Print(value) + PrintArgs(rest)
    case Named(key, value, rest) => "|" + (key + "=" + Print(value)) + PrintArgs(rest)
  }

  // The argument texts a call is written with.
  function ArgTexts(args: Args): seq<string> {
    match args
    case NoArgs => []
    case Positional(value, rest) => [Print(value)] + ArgTexts(rest)
    case Named(key, value, rest) => [key + "=" + Print(value)] + ArgTexts(rest)
  }

  predicate BraceFree(s: string) {
    '{' !in s && '}' !in s
  }

  // `c` does not occur in the text nodes at the top level of `t`.
  predicate TopFree(t: Doc, c: char) {
    match t
    case End => true
    case Plain(text, rest) => c !in text && TopFree(rest, c)
    case Ref(_, _, rest) => TopFree(rest, c)
    case Call(_, _, rest) => TopFree(rest, c)
  }

  // No lone braces, no empty call name, nothing in a name or an argument that
  // would end it early. The first `}}}` after `{{{` must be the reference's own,
  // because the renderer does not look for nested ones.
  predicate WellFormed(t: Doc) {
    match t
    case End => true
    case Plain(text, rest) => BraceFree(text) && WellFormed(rest)
    case Ref(name, default, rest) =>
      && BraceFree(name) && '|' !in name
      && (default.Some? ==> WellFormed(default.value))
      && FindTriple(PrintRef(name, default) + "}}}") == Some(|PrintRef(name, default)|)
      && WellFormed(rest)
    case Call(name, args, rest) =>
      && BraceFree(name) && '|' !in name && Trim(name) != ""
      && WellFormedArgs(args)
      && WellFormed(rest)
  }

  predicate WellFormedArgs(args: Args) {
    match args
    case NoArgs => true
    case Positional(value, rest) =>
      && WellFormed(value) && TopFree(value, '|') && TopFree(value, '=')
      && WellFormedArgs(rest)
    case Named(key, value, rest) =>
      && BraceFree(key) && '|' !in key && '=' !in key
      && WellFormed(value) && TopFree(value, '|')
      && WellFormedArgs(rest)
  }
}
