/** The bridge's cookie jar: what responses store, and the header it prints. */
module Cookies {
  import opened Json
  import opened Text
  import opened Pairs

  predicate Expired(header: string, space: char -> bool) {
    exists i | 0 <= i < |Split(header, ';')| :: Lowered(Trim(Split(header, ';')[i], space)) == "max-age=0"
  }

  /** The jar after one Set-Cookie header; a header without `=` is ignored. */
  function Remembered(jar: map<string, string>, header: string, space: char -> bool): map<string, string> {
    match SplitOnce(Split(header, ';')[0], '=')
    case None => jar
    case Some((name, value)) =>
      if Expired(header, space) || value == "" then jar - {Trim(name, space)}
      else jar[Trim(name, space) := Trim(value, space)]
  }

  function RememberedAll(jar: map<string, string>, headers: seq<string>, space: char -> bool): map<string, string> {
    if headers == [] then jar
    else Remembered(RememberedAll(jar, headers[..|headers| - 1], space), headers[|headers| - 1], space)
  }

  // ---------------------------------------------------------------------------------------
  // What the jar can hold

  predicate Storable(name: string, value: string, space: char -> bool) {
    && ';' !in name && '=' !in name && Trimmed(name, space)
    && ';' !in value && Trimmed(value, space)
  }

  ghost predicate JarOk(jar: map<string, string>, space: char -> bool) {
    forall k | k in jar :: Storable(k, jar[k], space)
  }

  lemma RememberedOk(jar: map<string, string>, header: string, space: char -> bool)
    requires JarOk(jar, space)
    ensures JarOk(Remembered(jar, header, space), space)
  {
    var pair := Split(header, ';')[0];
    JoinSplit(header, ';');
    SplitOnceFound(pair, '=');
    if SplitOnce(pair, '=').Some? {
      var (name, value) := SplitOnce(pair, '=').value;
      TrimTrims(name, space);
      TrimTrims(value, space);
    }
  }

  /** Whatever responses arrive, every stored name is free of `;` and `=`, every stored value of `;`,
      and both are trimmed. */
  lemma {:induction false} RememberedAllOk(jar: map<string, string>, headers: seq<string>, space: char -> bool)
    requires JarOk(jar, space)
    ensures JarOk(RememberedAll(jar, headers, space), space)
  {
    if headers != [] {
      RememberedAllOk(jar, headers[..|headers| - 1], space);
      RememberedOk(RememberedAll(jar, headers[..|headers| - 1], space), headers[|headers| - 1], space);
    }
  }

  // ---------------------------------------------------------------------------------------
  // Which cookies the jar holds

  /** The header starts with this name, an equals sign and this value, up to the first semicolon or its end. */
  ghost predicate Opens(header: string, name: string, value: string) {
    && '=' !in name && ';' !in name && ';' !in value
    && (header == name + "=" + value || exists rest :: header == name + "=" + value + ";" + rest)
  }

  /** One of its parts, without the white space around it, is `max-age=0` in any case. */
  ghost predicate Drops(header: string, space: char -> bool) {
    exists part :: part in Split(header, ';') && LowerOf("max-age=0", Trim(part, space))
  }

  ghost predicate Concerns(header: string, name: string, space: char -> bool) {
    exists n, value :: Opens(header, n, value) && Trim(n, space) == name
  }

  ghost predicate Stores(header: string, name: string, stored: string, space: char -> bool) {
    && !Drops(header, space)
    && exists n, value ::
         Opens(header, n, value) && Trim(n, space) == name && value != "" && Trim(value, space) == stored
  }

  lemma FirstPart(header: string)
    ensures var first := Split(header, ';')[0];
      ';' !in first && (header == first || exists rest :: header == first + ";" + rest)
  {
    JoinSplit(header, ';');
    var parts := Split(header, ';');
    if |parts| > 1 { assert header == parts[0] + ";" + Join(parts[1..], ';'); }
  }

  lemma OpensFirst(header: string, name: string, value: string)
    ensures Opens(header, name, value) <==>
      '=' !in name && Split(header, ';')[0] == name + "=" + value
  {
    FirstPart(header);
    var pair := name + "=" + value;
    if Opens(header, name, value) {
      assert ';' !in pair;
      SplitPrefix(pair, [], ';');
      if header != pair {
        var rest :| header == pair + ";" + rest;
        SplitPrefix(pair, rest, ';');
        assert pair + ";" + rest == pair + [';'] + rest;
      }
    }
  }

  lemma OpensIff(header: string, name: string, value: string)
    ensures Opens(header, name, value) <==> SplitOnce(Split(header, ';')[0], '=') == Some((name, value))
  {
    OpensFirst(header, name, value);
    SplitOnceFound(Split(header, ';')[0], '=');
    if Opens(header, name, value) { SplitOnceShown(name, value, '='); }
  }

  lemma DropsIff(header: string, space: char -> bool)
    ensures Expired(header, space) <==> Drops(header, space)
  {
    forall s: string ensures Lowered(s) == "max-age=0" <==> LowerOf("max-age=0", s) { LoweredIff(s, "max-age=0"); }
    if Expired(header, space) {
      var i :| 0 <= i < |Split(header, ';')| && Lowered(Trim(Split(header, ';')[i], space)) == "max-age=0";
      assert Split(header, ';')[i] in Split(header, ';');
    }
  }

  /** One header stores one cookie, removes one, or changes nothing. */
  lemma RememberedExact(jar: map<string, string>, header: string, name: string, stored: string, space: char -> bool)
    ensures var after := Remembered(jar, header, space);
      (name in after && after[name] == stored) <==>
        if Concerns(header, name, space) then Stores(header, name, stored, space)
        else name in jar && jar[name] == stored
  {
    DropsIff(header, space);
    forall n, value
      ensures Opens(header, n, value) <==> SplitOnce(Split(header, ';')[0], '=') == Some((n, value))
    {
      OpensIff(header, n, value);
    }
  }

  /** Header i stores the cookie, and no later one is about its name. */
  ghost predicate LastWord(headers: seq<string>, i: nat, name: string, stored: string, space: char -> bool) {
    && i < |headers| && Stores(headers[i], name, stored, space)
    && forall k | i < k < |headers| :: !Concerns(headers[k], name, space)
  }

  lemma LastWordBefore(headers: seq<string>, i: nat, name: string, stored: string, space: char -> bool)
    requires headers != []
    ensures var n := |headers| - 1;
      LastWord(headers, i, name, stored, space) <==>
        if i == n then Stores(headers[n], name, stored, space)
        else LastWord(headers[..n], i, name, stored, space) && !Concerns(headers[n], name, space)
  {
    var before := headers[..|headers| - 1];
    assert forall k | 0 <= k < |before| :: before[k] == headers[k];
  }

  ghost predicate Recorded(headers: seq<string>, name: string, stored: string, space: char -> bool) {
    exists i: nat :: LastWord(headers, i, name, stored, space)
  }

  lemma RecordedStep(headers: seq<string>, name: string, stored: string, space: char -> bool)
    requires headers != []
    ensures var last := headers[|headers| - 1];
      Recorded(headers, name, stored, space) <==>
        if Concerns(last, name, space) then Stores(last, name, stored, space)
        else Recorded(headers[..|headers| - 1], name, stored, space)
  {
    var n: nat := |headers| - 1;
    LastWordBefore(headers, n, name, stored, space);
    forall i: nat | i < n
      ensures LastWord(headers, i, name, stored, space) <==>
        LastWord(headers[..n], i, name, stored, space) && !Concerns(headers[n], name, space)
    {
      LastWordBefore(headers, i, name, stored, space);
    }
  }

  /** For any headers: the jar holds a cookie if and only if the last header about its name stored it. */
  lemma {:induction false} JarExact(headers: seq<string>, name: string, stored: string, space: char -> bool)
    ensures var jar := RememberedAll(map[], headers, space);
      (name in jar && jar[name] == stored) <==> Recorded(headers, name, stored, space)
  {
    if headers != [] {
      var before := headers[..|headers| - 1];
      JarExact(before, name, stored, space);
      RememberedExact(RememberedAll(map[], before, space), headers[|headers| - 1], name, stored, space);
      RecordedStep(headers, name, stored, space);
    }
  }

  // ---------------------------------------------------------------------------------------
  // The header and its reader

  function ShowCookie(name: string, value: string): string {
    name + ['='] + value
  }

  ghost function Header(jar: map<string, string>): string {
    Listed(Shown(Sorted(jar.Keys), jar, ShowCookie), ';')
  }

  /** One cookie of a Cookie header, as section 5.4 of RFC 6265 lays it out. */
  function ReadCookie(part: string, space: char -> bool): Option<(string, string)> {
    SplitOnce(Trim(part, space), '=')
  }

  function Reader(space: char -> bool): string -> Option<(string, string)> {
    (part: string) => ReadCookie(part, space)
  }

  function ReadHeader(header: string, space: char -> bool): map<string, string> {
    Collect(Split(header, ';'), Reader(space))
  }

  lemma CookieRead(name: string, value: string, space: char -> bool)
    requires Storable(name, value, space) && !space('=')
    ensures Reads(Reader(space), ShowCookie, name, value) && ';' !in ShowCookie(name, value)
  {
    var shown := ShowCookie(name, value);
    assert shown[0] == if name == "" then '=' else name[0];
    assert shown[|shown| - 1] == if value == "" then '=' else value[|value| - 1];
    assert Trim(shown, space) == shown;
    SplitOnceShown(name, value, '=');
  }

  lemma SpaceSkipped(part: string, space: char -> bool)
    requires space(' ')
    ensures Reader(space)([' '] + part) == Reader(space)(part)
  {
    assert ([' '] + part)[1..] == part;
  }

  /** After any sequence of responses, reading the header gives back exactly the jar. */
  lemma HeaderRoundTrip(headers: seq<string>, space: char -> bool)
    requires space(' ') && !space('=')
    ensures ReadHeader(Header(RememberedAll(map[], headers, space)), space) == RememberedAll(map[], headers, space)
  {
    var jar := RememberedAll(map[], headers, space);
    RememberedAllOk(map[], headers, space);
    forall k | k in jar ensures Reads(Reader(space), ShowCookie, k, jar[k]) && ';' !in ShowCookie(k, jar[k]) {
      CookieRead(k, jar[k], space);
    }
    forall part: string ensures Reader(space)([' '] + part) == Reader(space)(part) { SpaceSkipped(part, space); }
    assert Trim("", space) == "";
    ListedRoundTrip(Sorted(jar.Keys), jar, ';', ShowCookie, Reader(space));
  }

  // ---------------------------------------------------------------------------------------
  // The jar as the client keeps it

  class CookieJar {
    const space: char -> bool
    var cookies: map<string, string>

    constructor (space: char -> bool)
      ensures cookies == map[] && this.space == space
    {
      this.space := space;
      cookies := map[];
    }

    /** `remember_cookies`. */
    method Remember(headers: seq<string>)
      requires JarOk(cookies, space)
      modifies this`cookies
      ensures cookies == RememberedAll(old(cookies), headers, space) && JarOk(cookies, space)
    {
      for i := 0 to |headers|
        invariant cookies == RememberedAll(old(cookies), headers[..i], space) && JarOk(cookies, space)
      {
        assert headers[..i + 1][..i] == headers[..i];
        RememberedOk(cookies, headers[i], space);
        var pair := SplitOnce(Split(headers[i], ';')[0], '=');
        if pair.None? { continue; }
        var name := Trim(pair.value.0, space);
        if Expired(headers[i], space) || pair.value.1 == "" {
          cookies := cookies - {name};
        } else {
          cookies := cookies[name := Trim(pair.value.1, space)];
        }
      }
      assert headers[..|headers|] == headers;
    }

    /** `cookie_header`. */
    method CookieHeader() returns (out: string)
      ensures out == Header(cookies)
    {
      out := "";
      ghost var keys: seq<string> := [];
      var todo := cookies.Keys;
      PrintedStart(cookies);
      while todo != {}
        invariant Printed(keys, todo, out, cookies)
        decreases todo
      {
        var name := Least(todo);
        PrintedStep(keys, todo, name, out, cookies);
        if out != "" { out := out + "; "; }
        out := out + (name + ['='] + cookies[name]);
        keys := keys + [name];
        todo := todo - {name};
      }
      assert keys + Sorted(todo) == keys;
    }
  }

  /** The header so far holds the first keys, in order, and the others are still to come. */
  ghost predicate Printed(keys: seq<string>, todo: set<string>, out: string, jar: map<string, string>) {
    && todo <= jar.Keys && (forall k | k in keys :: k in jar)
    && keys + Sorted(todo) == Sorted(jar.Keys)
    && out == Listed(Shown(keys, jar, ShowCookie), ';') && (out == "" <==> keys == [])
  }

  lemma PrintedStart(jar: map<string, string>)
    ensures Printed([], jar.Keys, "", jar)
  {
    assert [] + Sorted(jar.Keys) == Sorted(jar.Keys);
  }

  lemma PrintedStep(keys: seq<string>, todo: set<string>, name: string, out: string, jar: map<string, string>)
    requires Printed(keys, todo, out, jar) && todo != {} && IsLeast(name, todo)
    ensures Printed(keys + [name], todo - {name},
                    (if out == "" then "" else out + "; ") + (name + ['='] + jar[name]), jar)
  {
    HeaderStep(keys, name, jar);
    SortedNext(todo, name);
    Shift(keys, name, Sorted(todo - {name}));
  }

  /** One more cookie at the end of the header. */
  lemma HeaderStep(keys: seq<string>, name: string, jar: map<string, string>)
    requires name in jar && forall k | k in keys :: k in jar
    ensures Listed(Shown(keys + [name], jar, ShowCookie), ';') ==
      (if keys == [] then "" else Listed(Shown(keys, jar, ShowCookie), ';') + "; ") + (name + ['='] + jar[name])
  {
    var parts := Shown(keys, jar, ShowCookie);
    ShownAppend(keys, name, jar, ShowCookie);
    if keys == [] {
      assert parts + [ShowCookie(name, jar[name])] == [ShowCookie(name, jar[name])];
    } else {
      ListedAppend(parts, ShowCookie(name, jar[name]), ';');
    }
  }
}
