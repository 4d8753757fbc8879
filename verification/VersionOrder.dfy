/** Which texts are release versions, and which of two goes first: parsing and comparing stated on
    the written text and on the numbers in it (section 11 of Semantic Versioning 2.0.0). */
module VersionOrder {
  import opened Json
  import opened Text
  import opened Versions

  // ---------------------------------------------------------------------------------------
  // What a version is read from

  ghost predicate Number(s: string) {
    s != "" && forall c | c in s :: '0' <= c <= '9'
  }

  /** Letters and digits, dots and hyphens. */
  ghost predicate Suffixed(s: string) {
    s != "" && forall c | c in s :: '0' <= c <= '9' || 'A' <= c <= 'Z' || 'a' <= c <= 'z' || c == '.' || c == '-'
  }

  /** What may stand behind the three numbers, and the prerelease it gives. */
  ghost predicate Tail(tail: string, prerelease: seq<string>) {
    || (tail == "" && prerelease == [])
    || (tail != "" && tail[0] == '-' && Suffixed(tail[1..]) && prerelease == Split(tail[1..], '.'))
    || (tail != "" && tail[0] == '+' && Suffixed(tail[1..]) && prerelease == [])
  }

  /** The text is an optional `v`, three numbers with dots between them, and a tail. */
  ghost predicate Reads(text: string, v: string, tail: string, version: Version) {
    && (v == "" || v == "v") && |version.core| == 3 && (forall i | 0 <= i < 3 :: Number(version.core[i]))
    && text == v + (Join(version.core, '.') + tail) && Tail(tail, version.prerelease)
  }

  ghost predicate Plain(s: string) {
    forall i | 0 <= i < |s| :: s[i] != '-' && s[i] != '+'
  }

  lemma {:induction false} CoreEnds(core: string, tail: string)
    requires Plain(core) && (tail == "" || tail[0] == '-' || tail[0] == '+')
    ensures CoreLength(core + tail) == |core|
    decreases core
  {
    if core == "" {
      assert core + tail == tail;
    } else {
      assert (core + tail)[1..] == core[1..] + tail;
      CoreEnds(core[1..], tail);
    }
  }

  lemma {:induction false} CoreStops(s: string)
    ensures CoreLength(s) == |s| || s[CoreLength(s)] == '-' || s[CoreLength(s)] == '+'
  {
    if s != "" && s[0] != '-' && s[0] != '+' { CoreStops(s[1..]); }
  }

  lemma NumbersPlain(core: seq<string>)
    requires |core| == 3 && forall i | 0 <= i < 3 :: Number(core[i])
    ensures Plain(Join(core, '.')) && Join(core, '.') != "" && Join(core, '.')[0] != 'v'
    ensures Split(Join(core, '.'), '.') == core
  {
    var (a, b, c) := (core[0], core[1], core[2]);
    assert '.' !in a && '.' !in b && '.' !in c;
    SplitJoin(core, '.');
    JoinThree(a, b, c);
    assert core == [a, b, c];
    var all := a + ['.'] + (b + ['.'] + c);
    assert a[0] in a && all[0] == a[0];
    forall i | 0 <= i < |all| ensures all[i] != '-' && all[i] != '+' {
      assert all[i] in a || all[i] in b || all[i] in c || all[i] == '.';
    }
  }

  lemma JoinThree(a: string, b: string, c: string)
    ensures Join([a, b, c], '.') == a + ['.'] + (b + ['.'] + c)
  {
    assert [a, b, c][1..] == [b, c] && [b, c][1..] == [c];
    assert Join([c], '.') == c;
    assert Join([b, c], '.') == b + ['.'] + c;
  }

  /** The text without its `v`. */
  function Body(text: string): string {
    if text != "" && text[0] == 'v' then text[1..] else text
  }

  lemma SuffixChars(s: string)
    ensures Suffixed(s) <==> s != "" && !(exists c | c in s :: !IsSuffixChar(c))
  {
  }

  /** The numbers and the tail of a text decide what it parses to. */
  lemma ParseTail(text: string, core: string, tail: string)
    requires Body(text) == core + tail && CoreLength(core + tail) == |core|
    requires tail == "" || tail[0] == '-' || tail[0] == '+'
    ensures var parts := Split(core, '.');
      var good := |parts| == 3 && Numeric(parts[0]) && Numeric(parts[1]) && Numeric(parts[2]);
      && (Parse(text).Some? <==> good && (tail == "" || Suffixed(tail[1..])))
      && (Parse(text).Some? ==> Parse(text).value.core == parts)
      && (Parse(text).Some? ==> Tail(tail, Parse(text).value.prerelease))
  {
    var body := core + tail;
    assert body[..|core|] == core;
    if tail != "" {
      assert body[|core| + 1..] == tail[1..] && body[|core|] == tail[0];
      SuffixChars(tail[1..]);
    }
  }

  lemma BodyOf(v: string, body: string)
    requires v == "v" || (v == "" && body != "" && body[0] != 'v')
    ensures Body(v + body) == body
  {
    assert v == "" ==> v + body == body;
  }

  /** A text that reads as a version parses to it. */
  lemma ReadParses(text: string, v: string, tail: string, version: Version)
    requires Reads(text, v, tail, version)
    ensures Parse(text) == Some(version)
  {
    var core := Join(version.core, '.');
    NumbersPlain(version.core);
    CoreEnds(core, tail);
    BodyOf(v, core + tail);
    ParseTail(text, core, tail);
  }

  /** Every text is an optional `v`, what stands before the first hyphen or plus, and the rest. */
  lemma Cut(text: string) returns (v: string, core: string, tail: string)
    ensures (v == "" || v == "v") && text == v + (core + tail) && Body(text) == core + tail
    ensures CoreLength(core + tail) == |core| && (tail == "" || tail[0] == '-' || tail[0] == '+')
  {
    var body := Body(text);
    v := if text != "" && text[0] == 'v' then "v" else "";
    core, tail := body[..CoreLength(body)], body[CoreLength(body)..];
    CoreStops(body);
    assert body == core + tail && text == v + body;
  }

  /** A text that parses reads as the version it parses to. */
  lemma ParsedReads(text: string) returns (v: string, tail: string)
    requires Parse(text).Some?
    ensures Reads(text, v, tail, Parse(text).value)
  {
    var core;
    v, core, tail := Cut(text);
    ParseTail(text, core, tail);
    JoinSplit(core, '.');
  }

  /** For every text: it parses to this version exactly when it is written as this version. */
  lemma ParsesIff(text: string, version: Version)
    ensures Parse(text) == Some(version) <==> exists v, tail :: Reads(text, v, tail, version)
  {
    if Parse(text) == Some(version) {
      var v, tail := ParsedReads(text);
    }
    forall v, tail | Reads(text, v, tail, version) ensures Parse(text) == Some(version) {
      ReadParses(text, v, tail, version);
    }
  }

  // ---------------------------------------------------------------------------------------
  // Which identifier goes first

  ghost predicate SameStart(l: string, r: string, k: nat)
    requires k <= |l| && k <= |r|
  {
    forall m | 0 <= m < k :: l[m] == r[m]
  }

  /** The first character at which the texts differ decides; a text goes before its extensions. */
  ghost predicate TextBelow(l: string, r: string) {
    exists k: nat | k <= |l| && k < |r| :: SameStart(l, r, k) && (k == |l| || l[k] < r[k])
  }

  lemma TextBelowStep(l: string, r: string)
    requires l != "" && r != "" && l[0] == r[0]
    ensures TextBelow(l, r) <==> TextBelow(l[1..], r[1..])
  {
    var (x, y) := (l[1..], r[1..]);
    if TextBelow(x, y) {
      var k: nat :| k <= |x| && k < |y| && SameStart(x, y, k) && (k == |x| || x[k] < y[k]);
      assert forall m | 1 <= m < k + 1 :: l[m] == x[m - 1] && r[m] == y[m - 1];
      assert SameStart(l, r, k + 1);
    }
    if TextBelow(l, r) {
      var k: nat :| k <= |l| && k < |r| && SameStart(l, r, k) && (k == |l| || l[k] < r[k]);
      assert SameStart(x, y, k - 1);
    }
  }

  lemma {:induction false} TextBelowIff(l: string, r: string)
    ensures TextBelow(l, r) <==> l != r && Leq(l, r)
    decreases l
  {
    if l == "" || r == "" || l[0] != r[0] {
      if r != "" { assert SameStart(l, r, 0); }
    } else {
      TextBelowStep(l, r);
      TextBelowIff(l[1..], r[1..]);
      assert l == [l[0]] + l[1..] && r == [r[0]] + r[1..];
    }
  }

  /** Numbers by value and before other identifiers, which go by their text. */
  ghost predicate IdentifierBelow(l: string, r: string) {
    if Number(l) && Number(r) then Value(l) < Value(r)
    else if Number(l) || Number(r) then Number(l)
    else TextBelow(l, r)
  }

  ghost predicate SameIdentifier(l: string, r: string) {
    l == r || (Number(l) && Number(r) && Value(l) == Value(r))
  }

  lemma IdentifierIff(l: string, r: string)
    ensures CompareIdentifier(l, r) == Less <==> IdentifierBelow(l, r)
    ensures CompareIdentifier(l, r) == Equal <==> SameIdentifier(l, r)
  {
    assert Number(l) == Numeric(l) && Number(r) == Numeric(r);
    TextBelowIff(l, r);
    if Number(l) && Number(r) { CompareNumericIsNumeric(l, r); }
  }

  ghost predicate SameUpTo(a: seq<string>, b: seq<string>, i: nat)
    requires i <= |a| && i <= |b|
  {
    forall k | 0 <= k < i :: SameIdentifier(a[k], b[k])
  }

  /** The first identifier that differs decides; a list goes before its extensions. */
  ghost predicate ListBelow(a: seq<string>, b: seq<string>) {
    exists i: nat | i <= |a| && i < |b| :: SameUpTo(a, b, i) && (i == |a| || IdentifierBelow(a[i], b[i]))
  }

  lemma ListBelowStep(a: seq<string>, b: seq<string>)
    requires a != [] && b != [] && SameIdentifier(a[0], b[0])
    ensures ListBelow(a, b) <==> ListBelow(a[1..], b[1..])
  {
    IdentifierIff(a[0], b[0]);
    if ListBelow(a[1..], b[1..]) {
      var i: nat :| i <= |a[1..]| && i < |b[1..]| && SameUpTo(a[1..], b[1..], i)
        && (i == |a[1..]| || IdentifierBelow(a[1..][i], b[1..][i]));
      assert forall k | 1 <= k < i + 1 :: a[k] == a[1..][k - 1] && b[k] == b[1..][k - 1];
      assert SameUpTo(a, b, i + 1);
    }
    if ListBelow(a, b) {
      var i: nat :| i <= |a| && i < |b| && SameUpTo(a, b, i) && (i == |a| || IdentifierBelow(a[i], b[i]));
      assert SameUpTo(a[1..], b[1..], i - 1);
    }
  }

  lemma {:induction false} ListIff(a: seq<string>, b: seq<string>)
    ensures CompareIdentifiers(a, b) == Less <==> ListBelow(a, b)
    decreases a
  {
    if a == [] {
      if b != [] { assert SameUpTo(a, b, 0); }
    } else if b != [] {
      IdentifierIff(a[0], b[0]);
      if SameIdentifier(a[0], b[0]) {
        ListBelowStep(a, b);
        ListIff(a[1..], b[1..]);
      } else if IdentifierBelow(a[0], b[0]) {
        assert SameUpTo(a, b, 0);
      }
    }
  }

  // ---------------------------------------------------------------------------------------
  // Which version goes first

  ghost predicate Numbers(core: seq<string>) {
    forall i | 0 <= i < |core| :: Number(core[i])
  }

  ghost function Values(core: seq<string>): seq<nat>
    requires Numbers(core)
  {
    seq(|core|, i requires 0 <= i < |core| => Value(core[i]))
  }

  /** The first number that differs is smaller. */
  ghost predicate FirstBelow(x: seq<nat>, y: seq<nat>) {
    exists i: nat | i < |x| && i < |y| :: x[..i] == y[..i] && x[i] < y[i]
  }

  lemma FirstBelowStep(x: seq<nat>, y: seq<nat>)
    requires x != [] && y != []
    ensures FirstBelow(x, y) <==> if x[0] == y[0] then FirstBelow(x[1..], y[1..]) else x[0] < y[0]
  {
    if x[0] == y[0] {
      if FirstBelow(x[1..], y[1..]) {
        var i: nat :| i < |x[1..]| && i < |y[1..]| && x[1..][..i] == y[1..][..i] && x[1..][i] < y[1..][i];
        assert x[..i + 1] == [x[0]] + x[1..][..i] && y[..i + 1] == [y[0]] + y[1..][..i];
      }
      if FirstBelow(x, y) {
        var i: nat :| i < |x| && i < |y| && x[..i] == y[..i] && x[i] < y[i];
        assert x[1..][..i - 1] == x[..i][1..] && y[1..][..i - 1] == y[..i][1..];
      }
    } else if x[0] < y[0] {
      assert x[..0] == y[..0];
    }
  }

  ghost predicate CoreBelow(a: seq<string>, b: seq<string>)
    requires Numbers(a) && Numbers(b)
  {
    FirstBelow(Values(a), Values(b))
  }

  ghost predicate SameCore(a: seq<string>, b: seq<string>)
    requires Numbers(a) && Numbers(b)
  {
    Values(a) == Values(b)
  }

  lemma {:induction false} CoreIff(a: seq<string>, b: seq<string>)
    requires |a| == |b| && Numbers(a) && Numbers(b)
    ensures CompareCore(a, b) == Less <==> CoreBelow(a, b)
    ensures CompareCore(a, b) == Equal <==> SameCore(a, b)
    decreases a
  {
    if a != [] {
      var (x, y) := (Values(a), Values(b));
      CompareNumericIsNumeric(a[0], b[0]);
      FirstBelowStep(x, y);
      assert x[1..] == Values(a[1..]) && y[1..] == Values(b[1..]);
      assert x == [x[0]] + x[1..] && y == [y[0]] + y[1..];
      CoreIff(a[1..], b[1..]);
    }
  }

  /** By the three numbers first; then a prerelease goes before its release; then by identifiers. */
  ghost predicate Before(a: Version, b: Version)
    requires |a.core| == |b.core| && Numbers(a.core) && Numbers(b.core)
  {
    || CoreBelow(a.core, b.core)
    || (&& SameCore(a.core, b.core) && a.prerelease != []
        && (b.prerelease == [] || ListBelow(a.prerelease, b.prerelease)))
  }

  /** For every two texts that are versions, the first compares as less exactly when it goes before. */
  lemma PrecedenceIff(a: string, b: string)
    requires Parse(a).Some? && Parse(b).Some?
    ensures var (x, y) := (Parse(a).value, Parse(b).value);
      && |x.core| == |y.core| == 3 && Numbers(x.core) && Numbers(y.core)
      && (Compare(a, b) == Some(Less) <==> Before(x, y))
      && (Compare(a, b) == Some(Greater) <==> Before(y, x))
  {
    var (x, y) := (Parse(a).value, Parse(b).value);
    CoreIff(x.core, y.core);
    CoreIff(y.core, x.core);
    ListIff(x.prerelease, y.prerelease);
    ListIff(y.prerelease, x.prerelease);
    CompareFlip(a, b);
  }
}
