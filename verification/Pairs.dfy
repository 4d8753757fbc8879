/** Name/value lists printed with separators and read back: the shape shared by query strings and
    cookie headers. */
module Pairs {
  import opened Json
  import opened Text

  /** `text.split_once('=')`. */
  function SplitOnce(text: string, sep: char): Option<(string, string)> {
    if text == "" then None
    else if text[0] == sep then Some(("", text[1..]))
    else
      match SplitOnce(text[1..], sep)
      case None => None
      case Some((name, value)) => Some(([text[0]] + name, value))
  }

  lemma {:induction false} SplitOnceShown(name: string, value: string, sep: char)
    requires sep !in name
    ensures SplitOnce(name + [sep] + value, sep) == Some((name, value))
  {
    var text := name + [sep] + value;
    if name != "" {
      SplitOnceShown(name[1..], value, sep);
      assert text[1..] == name[1..] + [sep] + value;
      assert [name[0]] + name[1..] == name;
    }
  }

  lemma {:induction false} SplitOnceFound(text: string, sep: char)
    ensures SplitOnce(text, sep) == None ==> sep !in text
    ensures SplitOnce(text, sep).Some? ==>
      var (name, value) := SplitOnce(text, sep).value;
      sep !in name && text == name + [sep] + value
  {
    if text != "" && text[0] != sep {
      SplitOnceFound(text[1..], sep);
    }
  }

  /** The map a list of parts denotes: parts that do not parse are skipped, later ones win. */
  function Collect(parts: seq<string>, parse: string -> Option<(string, string)>): map<string, string> {
    if parts == [] then map[]
    else
      var before := Collect(parts[..|parts| - 1], parse);
      match parse(parts[|parts| - 1])
      case None => before
      case Some((name, value)) => before[name := value]
  }

  /** One part per key, in the given order. */
  function Shown(keys: seq<string>, m: map<string, string>, show: (string, string) -> string): seq<string>
    requires forall i | 0 <= i < |keys| :: keys[i] in m
  {
    seq(|keys|, i requires 0 <= i < |keys| => show(keys[i], m[keys[i]]))
  }

  lemma ShownAppend(keys: seq<string>, k: string, m: map<string, string>, show: (string, string) -> string)
    requires k in m && forall i | 0 <= i < |keys| :: keys[i] in m
    ensures Shown(keys + [k], m, show) == Shown(keys, m, show) + [show(k, m[k])]
  {
  }

  predicate Reads(
      parse: string -> Option<(string, string)>, show: (string, string) -> string, name: string, value: string)
  {
    parse(show(name, value)) == Some((name, value))
  }

  lemma {:induction false} CollectShown(
      keys: seq<string>, m: map<string, string>,
      show: (string, string) -> string, parse: string -> Option<(string, string)>)
    requires forall i | 0 <= i < |keys| :: keys[i] in m
    requires forall i | 0 <= i < |keys| :: Reads(parse, show, keys[i], m[keys[i]])
    ensures Collect(Shown(keys, m, show), parse) == map k | k in m && k in keys :: m[k]
  {
    var parts := Shown(keys, m, show);
    if keys != [] {
      var n := |keys| - 1;
      assert parts[..n] == Shown(keys[..n], m, show);
      CollectShown(keys[..n], m, show, parse);
      assert Reads(parse, show, keys[n], m[keys[n]]);
      assert keys == keys[..n] + [keys[n]];
    }
  }

  /** Printed with a separator none of the parts holds, and read back. */
  lemma JoinedRoundTrip(
      keys: seq<string>, m: map<string, string>, sep: char,
      show: (string, string) -> string, parse: string -> Option<(string, string)>)
    requires (forall k :: k in keys <==> k in m) && parse("") == None
    requires forall k | k in m :: Reads(parse, show, k, m[k]) && sep !in show(k, m[k])
    ensures Collect(Split(Join(Shown(keys, m, show), sep), sep), parse) == m
  {
    var parts := Shown(keys, m, show);
    CollectShown(keys, m, show, parse);
    if parts == [] {
      assert forall k | k in m :: k in keys;
      assert [""][..0] == [];
    } else {
      SplitJoin(parts, sep);
    }
  }

  /** Only what each part parses to matters. */
  lemma {:induction false} CollectSame(a: seq<string>, b: seq<string>, parse: string -> Option<(string, string)>)
    requires |a| == |b| && forall i | 0 <= i < |a| :: parse(a[i]) == parse(b[i])
    ensures Collect(a, parse) == Collect(b, parse)
  {
    if a != [] {
      CollectSame(a[..|a| - 1], b[..|b| - 1], parse);
    }
  }

  /** Printed with a separator and a space, for a parser that ignores a leading space. */
  lemma ListedRoundTrip(
      keys: seq<string>, m: map<string, string>, sep: char,
      show: (string, string) -> string, parse: string -> Option<(string, string)>)
    requires (forall k :: k in keys <==> k in m) && parse("") == None && sep != ' '
    requires forall k | k in m :: Reads(parse, show, k, m[k]) && sep !in show(k, m[k])
    requires forall part: string :: parse([' '] + part) == parse(part)
    ensures Collect(Split(Listed(Shown(keys, m, show), sep), sep), parse) == m
  {
    var parts := Shown(keys, m, show);
    CollectShown(keys, m, show, parse);
    if parts == [] {
      assert forall k | k in m :: k in keys;
      assert [""][..0] == [];
    } else {
      SplitListed(parts, sep);
      var read := Split(Listed(parts, sep), sep);
      forall i | 0 <= i < |read| ensures parse(read[i]) == parse(parts[i]) {
        assert i > 0 ==> read[i] == [' '] + parts[i];
      }
      CollectSame(read, parts, parse);
    }
  }
}
