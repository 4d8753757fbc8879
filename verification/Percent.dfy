/** Percent-encoding of identifiers and query strings, and the decoders of section 2.1 of RFC 3986 and
    of application/x-www-form-urlencoded that undo it. */
module Percent {
  import opened Json
  import opened Text
  import opened Pairs

  /** A byte string: one character per byte. */
  predicate IsBytes(s: string) {
    forall i | 0 <= i < |s| :: s[i] as int < 256
  }

  predicate Alphanumeric(c: char) {
    'A' <= c <= 'Z' || 'a' <= c <= 'z' || '0' <= c <= '9'
  }

  predicate QueryKeeps(c: char) {
    Alphanumeric(c) || c in "-_.~"
  }

  predicate PathKeeps(c: char) {
    Alphanumeric(c) || c in "-_.~$&+,;=:@"
  }

  const DIGITS := "0123456789ABCDEF"

  function Digit(n: nat): char
    requires n < 16
  {
    DIGITS[n]
  }

  /** A hexadecimal digit of either case. */
  function DigitValue(c: char): Option<nat> {
    if '0' <= c <= '9' then Some(c as int - '0' as int)
    else if 'A' <= c <= 'F' then Some(c as int - 'A' as int + 10)
    else if 'a' <= c <= 'f' then Some(c as int - 'a' as int + 10)
    else None
  }

  function Unit(c: char, keeps: char -> bool, plus: bool): string
    requires c as int < 256
  {
    if keeps(c) then [c]
    else if plus && c == ' ' then "+"
    else ['%', Digit(c as int / 16), Digit(c as int % 16)]
  }

  function Escape(s: string, keeps: char -> bool, plus: bool): string
    requires IsBytes(s)
  {
    if s == "" then "" else Unit(s[0], keeps, plus) + Escape(s[1..], keeps, plus)
  }

  /** Undoes percent-encoding, and '+' for a space in a query; None for a broken escape. */
  function Unescape(t: string, plus: bool): Option<string> {
    if t == "" then Some("")
    else if t[0] == '%' then
      if |t| < 3 || DigitValue(t[1]) == None || DigitValue(t[2]) == None then None
      else
        match Unescape(t[3..], plus)
        case None => None
        case Some(rest) => Some([(DigitValue(t[1]).value * 16 + DigitValue(t[2]).value) as char] + rest)
    else
      match Unescape(t[1..], plus)
      case None => None
      case Some(rest) => Some([if plus && t[0] == '+' then ' ' else t[0]] + rest)
  }

  // ---------------------------------------------------------------------------------------
  // The encoders

  /** `query_escape`. */
  method QueryEscape(value: string) returns (out: string)
    requires IsBytes(value)
    ensures out == Escape(value, QueryKeeps, true)
  {
    out := EscapeLoop(value, QueryKeeps, true);
  }

  /** `path_escape`. */
  method PathEscape(segment: string) returns (out: string)
    requires IsBytes(segment)
    ensures out == Escape(segment, PathKeeps, false)
  {
    out := EscapeLoop(segment, PathKeeps, false);
  }

  method EscapeLoop(value: string, keeps: char -> bool, plus: bool) returns (out: string)
    requires IsBytes(value)
    ensures out == Escape(value, keeps, plus)
  {
    out := "";
    for i := 0 to |value|
      invariant out == Escape(value[..i], keeps, plus)
    {
      var c := value[i];
      EscapeAppend(value[..i], c, keeps, plus);
      assert value[..i + 1] == value[..i] + [c];
      if keeps(c) {
        out := out + [c];
      } else if plus && c == ' ' {
        out := out + "+";
      } else {
        out := out + ['%', Digit(c as int / 16), Digit(c as int % 16)];
      }
    }
    assert value[..|value|] == value;
  }

  lemma {:induction false} EscapeAppend(s: string, c: char, keeps: char -> bool, plus: bool)
    requires IsBytes(s) && c as int < 256
    ensures Escape(s + [c], keeps, plus) == Escape(s, keeps, plus) + Unit(c, keeps, plus)
  {
    if s == "" {
      assert (s + [c])[1..] == "";
    } else {
      EscapeAppend(s[1..], c, keeps, plus);
      assert (s + [c])[1..] == s[1..] + [c];
    }
  }

  // ---------------------------------------------------------------------------------------
  // Decoding undoes encoding

  lemma DigitRead(n: nat)
    requires n < 16
    ensures DigitValue(Digit(n)) == Some(n)
  {
    if n < 10 {
      assert Digit(n) == ('0' as int + n) as char;
    } else {
      assert Digit(n) == ('A' as int + n - 10) as char;
    }
  }

  ghost predicate Decodable(keeps: char -> bool, plus: bool) {
    !keeps('%') && (plus ==> !keeps('+'))
  }

  /** Reading one encoded byte. */
  lemma UnitRead(c: char, keeps: char -> bool, plus: bool, rest: string)
    requires c as int < 256 && Decodable(keeps, plus) && Unescape(rest, plus).Some?
    ensures Unescape(Unit(c, keeps, plus) + rest, plus) == Some([c] + Unescape(rest, plus).value)
  {
    var t := Unit(c, keeps, plus) + rest;
    if keeps(c) || (plus && c == ' ') {
      assert t[1..] == rest;
    } else {
      DigitRead(c as int / 16);
      DigitRead(c as int % 16);
      assert t[3..] == rest;
      assert t[1] == Digit(c as int / 16) && t[2] == Digit(c as int % 16);
      assert (c as int / 16) * 16 + c as int % 16 == c as int;
    }
  }

  lemma {:induction false} UnescapeEscape(s: string, keeps: char -> bool, plus: bool)
    requires IsBytes(s) && Decodable(keeps, plus)
    ensures Unescape(Escape(s, keeps, plus), plus) == Some(s)
  {
    if s != "" {
      UnescapeEscape(s[1..], keeps, plus);
      UnitRead(s[0], keeps, plus, Escape(s[1..], keeps, plus));
      assert [s[0]] + s[1..] == s;
    }
  }

  /** Every character an encoder emits is one it keeps, '+', '%' or a digit. */
  lemma {:induction false} EscapeAvoids(s: string, keeps: char -> bool, plus: bool, c: char)
    requires IsBytes(s) && !keeps(c) && c != '%' && c !in DIGITS && (plus ==> c != '+')
    ensures c !in Escape(s, keeps, plus)
  {
    if s != "" {
      EscapeAvoids(s[1..], keeps, plus, c);
    }
  }

  /** An escaped identifier is exactly one part between slashes. */
  lemma PathSegment(id: string)
    requires IsBytes(id)
    ensures Split(Escape(id, PathKeeps, false), '/') == [Escape(id, PathKeeps, false)]
  {
    EscapeAvoids(id, PathKeeps, false, '/');
    SplitPrefix(Escape(id, PathKeeps, false), "", '/');
  }

  /** It never starts a query or a fragment. */
  lemma PathSegmentEnds(id: string, c: char)
    requires IsBytes(id) && (c == '?' || c == '#' || c == '/')
    ensures c !in Escape(id, PathKeeps, false)
  {
    EscapeAvoids(id, PathKeeps, false, c);
  }

  /** And it decodes to itself. */
  lemma PathRoundTrip(id: string)
    requires IsBytes(id)
    ensures Unescape(Escape(id, PathKeeps, false), false) == Some(id)
  {
    UnescapeEscape(id, PathKeeps, false);
  }

  /** Letters and digits, and these. */
  ghost predicate Among(c: char, others: string) {
    65 <= c as int <= 90 || 97 <= c as int <= 122 || 48 <= c as int <= 57 || c in others
  }

  ghost predicate AllAmong(s: string, others: string) {
    forall i | 0 <= i < |s| :: Among(s[i], others)
  }

  lemma DigitsAmong(n: nat)
    requires n < 16
    ensures Among(Digit(n), "")
  {
  }

  /** Whatever an encoder keeps, its output has only that, percent signs, hexadecimal digits and a plus for spaces. */
  lemma {:induction false} EscapeAmong(s: string, keeps: char -> bool, plus: bool, kept: string, all: string)
    requires IsBytes(s) && (forall c: char | keeps(c) :: Among(c, kept)) && (forall c: char | c in kept :: c in all)
    requires '%' in all && (plus ==> '+' in all)
    ensures AllAmong(Escape(s, keeps, plus), all)
  {
    if s != "" {
      EscapeAmong(s[1..], keeps, plus, kept, all);
      DigitsAmong(s[0] as int / 16);
      DigitsAmong(s[0] as int % 16);
    }
  }

  lemma {:induction false} EscapeLonger(s: string, keeps: char -> bool, plus: bool)
    requires IsBytes(s)
    ensures |Escape(s, keeps, plus)| >= |s|
  {
    if s != "" { EscapeLonger(s[1..], keeps, plus); }
  }

  /** And it leaves a text alone if and only if it keeps all of it. */
  lemma {:induction false} EscapeUnchanged(s: string, keeps: char -> bool, plus: bool, kept: string)
    requires IsBytes(s) && (forall c: char :: keeps(c) <==> Among(c, kept))
    ensures Escape(s, keeps, plus) == s <==> AllAmong(s, kept)
  {
    if s != "" {
      var (unit, rest) := (Unit(s[0], keeps, plus), Escape(s[1..], keeps, plus));
      EscapeUnchanged(s[1..], keeps, plus, kept);
      assert s == [s[0]] + s[1..];
      if keeps(s[0]) {
        assert (unit + rest)[1..] == rest;
      } else {
        EscapeLonger(s[1..], keeps, plus);
        assert (unit + rest)[0] == unit[0];
      }
    }
  }

  /** An escaped identifier has only letters, digits, these twelve and percent signs, and is the identifier itself if
      and only if that has no other characters. */
  lemma PathAlphabet(id: string)
    requires IsBytes(id)
    ensures AllAmong(Escape(id, PathKeeps, false), "-_.~$&+,;=:@%")
    ensures Escape(id, PathKeeps, false) == id <==> AllAmong(id, "-_.~$&+,;=:@")
  {
    EscapeAmong(id, PathKeeps, false, "-_.~$&+,;=:@", "-_.~$&+,;=:@%");
    EscapeUnchanged(id, PathKeeps, false, "-_.~$&+,;=:@");
  }

  /** The same for a name or value of a query, with four characters kept and a plus for every space. */
  lemma QueryAlphabet(value: string)
    requires IsBytes(value)
    ensures AllAmong(Escape(value, QueryKeeps, true), "-_.~%+")
    ensures Escape(value, QueryKeeps, true) == value <==> AllAmong(value, "-_.~")
  {
    EscapeAmong(value, QueryKeeps, true, "-_.~", "-_.~%+");
    EscapeUnchanged(value, QueryKeeps, true, "-_.~");
  }

  lemma {:induction false} UnescapePlain(t: string)
    requires '%' !in t
    ensures Unescape(t, false) == Some(t)
  {
    if t != "" {
      UnescapePlain(t[1..]);
      assert [t[0]] + t[1..] == t;
    }
  }

  /** Dot segments are not escaped: the identifiers "." and ".." are the only ones printed as such. */
  lemma DotSegmentsPass(id: string)
    requires IsBytes(id)
    ensures Escape(id, PathKeeps, false) == "." <==> id == "."
    ensures Escape(id, PathKeeps, false) == ".." <==> id == ".."
  {
    UnescapeEscape(id, PathKeeps, false);
    UnescapePlain(".");
    UnescapePlain("..");
    if id == "." {
      assert id[1..] == "";
    } else if id == ".." {
      assert id[1..] == "." && id[1..][1..] == "";
    }
  }

  // ---------------------------------------------------------------------------------------
  // Query strings

  predicate ByteMap(m: map<string, string>) {
    forall k | k in m :: IsBytes(k) && IsBytes(m[k])
  }

  function ShowPair(name: string, value: string): string {
    if IsBytes(name) && IsBytes(value) then
      Escape(name, QueryKeeps, true) + ['='] + Escape(value, QueryKeeps, true)
    else ""
  }

  /** `Query::encode`: sorted keys, one value each. */
  ghost function Encode(q: map<string, string>): string {
    Join(Shown(Sorted(q.Keys), q, ShowPair), '&')
  }

  /** The loop over the sorted map. */
  method QueryEncode(q: map<string, string>) returns (out: string)
    requires ByteMap(q)
    ensures out == Encode(q)
  {
    var parts: seq<string> := [];
    ghost var keys: seq<string> := [];
    var todo := q.Keys;
    EncodedStart(q);
    while todo != {}
      invariant EncodedSoFar(q, keys, todo, parts)
      decreases todo
    {
      var key := Least(todo);
      EncodedNext(q, keys, todo, parts, key);
      var name := QueryEscape(key);
      var value := QueryEscape(q[key]);
      parts := parts + [name + ['='] + value];
      keys, todo := keys + [key], todo - {key};
    }
    EncodedDone(q, keys, parts);
    return Join(parts, '&');
  }

  ghost predicate EncodedSoFar(q: map<string, string>, keys: seq<string>, todo: set<string>, parts: seq<string>) {
    && todo <= q.Keys && (forall i | 0 <= i < |keys| :: keys[i] in q)
    && keys + Sorted(todo) == Sorted(q.Keys) && parts == Shown(keys, q, ShowPair)
  }

  lemma EncodedStart(q: map<string, string>)
    ensures EncodedSoFar(q, [], q.Keys, [])
  {
    assert [] + Sorted(q.Keys) == Sorted(q.Keys);
  }

  lemma EncodedNext(q: map<string, string>, keys: seq<string>, todo: set<string>, parts: seq<string>, k: string)
    requires EncodedSoFar(q, keys, todo, parts) && todo != {} && IsLeast(k, todo)
    ensures EncodedSoFar(q, keys + [k], todo - {k}, parts + [ShowPair(k, q[k])])
  {
    SortedNext(todo, k);
    Shift(keys, k, Sorted(todo - {k}));
    ShownAppend(keys, k, q, ShowPair);
  }

  lemma EncodedDone(q: map<string, string>, keys: seq<string>, parts: seq<string>)
    requires EncodedSoFar(q, keys, {}, parts)
    ensures Join(parts, '&') == Encode(q)
  {
    assert keys + [] == keys;
  }

  /** One field of a form: an empty part or a broken escape is skipped. */
  function ParsePair(part: string): Option<(string, string)> {
    match SplitOnce(part, '=')
    case None => None
    case Some((name, value)) =>
      if Unescape(name, true).None? || Unescape(value, true).None? then None
      else Some((Unescape(name, true).value, Unescape(value, true).value))
  }

  function ParseQuery(text: string): map<string, string> {
    Collect(Split(text, '&'), ParsePair)
  }

  lemma PairRead(name: string, value: string)
    requires IsBytes(name) && IsBytes(value)
    ensures Reads(ParsePair, ShowPair, name, value) && '&' !in ShowPair(name, value)
  {
    EscapeAvoids(name, QueryKeeps, true, '=');
    EscapeAvoids(name, QueryKeeps, true, '&');
    EscapeAvoids(value, QueryKeeps, true, '&');
    UnescapeEscape(name, QueryKeeps, true);
    UnescapeEscape(value, QueryKeeps, true);
    SplitOnceShown(Escape(name, QueryKeeps, true), Escape(value, QueryKeeps, true), '=');
  }

  /** Decoding an encoded query gives back exactly the original map, whatever bytes it holds. */
  lemma QueryRoundTrip(q: map<string, string>)
    requires ByteMap(q)
    ensures ParseQuery(Encode(q)) == q
  {
    forall k | k in q ensures Reads(ParsePair, ShowPair, k, q[k]) && '&' !in ShowPair(k, q[k]) {
      PairRead(k, q[k]);
    }
    JoinedRoundTrip(Sorted(q.Keys), q, '&', ShowPair, ParsePair);
  }
}
