// How names are read: the address of a template, the short name of an id, the
// name of a parser function.
module Names {
  import opened Text
  import opened Expander

  lemma {:induction false} FirstIndex(head: string, rest: string, c: char)
    requires c !in head && (rest == "" || rest[0] == c)
    ensures IndexOf(head + rest, c) == if rest == "" then None else Some(|head|)
  {
    if head == "" {
      assert head + rest == rest;
    } else {
      assert (head + rest)[1..] == head[1..] + rest && head[0] in head;
      FirstIndex(head[1..], rest, c);
    }
  }

  // An address is split at its first colon; without one it is the name of a
  // template in the default namespace.
  lemma AddressReads(ns: string, name: string)
    requires ':' !in ns
    ensures ParseAddress(ns + ":" + name) == Key(Trim(ns), Trim(name))
    ensures ParseAddress(ns) == Key("Template", Trim(ns))
  {
    hide Trim;
    FirstIndex(ns, ":" + name, ':');
    FirstIndex(ns, "", ':');
    assert ns + "" == ns && ns + ":" + name == ns + (":" + name);
    var raw := ns + ":" + name;
    assert raw[..|ns|] == ns && raw[|ns| + 1..] == name;
  }

  lemma {:induction false} LastIndex(head: string, rest: string, c: char)
    requires c !in rest && (head == "" || head[|head| - 1] == c)
    ensures LastIndexOf(head + rest, c) == if head == "" then None else Some(|head| - 1)
    decreases |rest|
  {
    var s := head + rest;
    if rest == "" {
      assert s == head;
    } else {
      assert s[|s| - 1] == rest[|rest| - 1] && rest[|rest| - 1] in rest;
      assert s[..|s| - 1] == head + rest[..|rest| - 1];
      LastIndex(head, rest[..|rest| - 1], c);
    }
  }

  // A short name is what stands behind the last colon of an id.
  lemma ShortNameReads(prefix: string, name: string)
    requires ':' !in name
    ensures ShortName(prefix + ":" + name) == name && ShortName(name) == name
  {
    LastIndex(prefix + ":", name, ':');
    LastIndex("", name, ':');
    assert "" + name == name;
    var id := prefix + ":" + name;
    assert id[|prefix| + 1..] == name;
  }

  lemma {:induction false} ShortNamesAt(ids: seq<string>, k: nat)
    requires k < |ids|
    ensures |ShortNames(ids)| == |ids| && ShortNames(ids)[k] == ShortName(ids[k])
  {
    hide ShortName;
    if k > 0 {
      ShortNamesAt(ids[1..], k - 1);
    } else if |ids| > 1 {
      ShortNamesAt(ids[1..], 0);
    }
  }

  lemma {:induction false} HashesDropped(hashes: string, rest: string)
    requires (forall c | c in hashes :: c == '#') && (rest == "" || rest[0] != '#')
    ensures DropLeading(hashes + rest, '#') == rest
  {
    if hashes == "" {
      assert hashes + rest == rest;
    } else {
      assert (hashes + rest)[1..] == hashes[1..] + rest && hashes[0] in hashes;
      assert forall c | c in hashes[1..] :: c in hashes;
      HashesDropped(hashes[1..], rest);
    }
  }

  // The name of a parser function stands between the hashes and the first colon or bar.
  lemma FunctionNameReads(hashes: string, name: string, rest: string)
    requires forall c | c in hashes :: c == '#'
    requires ':' !in name && '|' !in name && (name == "" || name[0] != '#')
    requires rest == "" || rest[0] == ':' || rest[0] == '|'
    ensures FunctionName(hashes + (name + rest)) == Trim(name)
  {
    hide Trim;
    assert name + rest != "" ==> (name + rest)[0] == if name == "" then rest[0] else name[0];
    HashesDropped(hashes, name + rest);
    forall c | c in name ensures c !in {':', '|'} {
    }
    UpToStops(name, rest, {':', '|'});
  }
}
