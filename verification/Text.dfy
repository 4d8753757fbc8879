/** Splitting, joining and ordering of sequences, shared by every component
    that prints fields with a separator or iterates over keys in sorted order. */
module Text {

  /** `sep.join(parts)` for a one-element separator. */
  function Join<T>(parts: seq<seq<T>>, sep: T): seq<T> {
    if parts == [] then []
    else if |parts| == 1 then parts[0]
    else parts[0] + [sep] + Join(parts[1..], sep)
  }

  /** `s.split(sep)`: always at least one part. */
  function Split<T(==)>(s: seq<T>, sep: T): (parts: seq<seq<T>>)
    ensures |parts| > 0
  {
    if s == [] then [[]]
    else
      var rest := Split(s[1..], sep);
      if s[0] == sep then [[]] + rest else [[s[0]] + rest[0]] + rest[1..]
  }

  lemma {:induction false} SplitPrefix<T>(part: seq<T>, rest: seq<T>, sep: T)
    requires sep !in part
    ensures Split(part, sep) == [part]
    ensures Split(part + [sep] + rest, sep) == [part] + Split(rest, sep)
  {
    if part == [] {
      assert part + [sep] + rest == [sep] + rest;
      assert ([sep] + rest)[1..] == rest;
    } else {
      SplitPrefix(part[1..], rest, sep);
      assert (part + [sep] + rest)[1..] == part[1..] + [sep] + rest;
      assert [part[0]] + part[1..] == part;
    }
  }

  /** Joining separator-free parts loses nothing. */
  lemma {:induction false} SplitJoin<T>(parts: seq<seq<T>>, sep: T)
    requires parts != []
    requires forall i :: 0 <= i < |parts| ==> sep !in parts[i]
    ensures Split(Join(parts, sep), sep) == parts
  {
    if |parts| == 1 {
      SplitPrefix(parts[0], [], sep);
    } else {
      SplitJoin(parts[1..], sep);
      SplitPrefix(parts[0], Join(parts[1..], sep), sep);
    }
  }

  lemma {:induction false} JoinAppend<T>(parts: seq<seq<T>>, part: seq<T>, sep: T)
    requires parts != []
    ensures Join(parts + [part], sep) == Join(parts, sep) + [sep] + part
  {
    var more := parts + [part];
    if |parts| == 1 {
      assert more[1..] == [part];
    } else {
      JoinAppend(parts[1..], part, sep);
      assert more[1..] == parts[1..] + [part];
    }
  }

  /** Splitting is undone by joining, and no part holds a separator. */
  lemma {:induction false} JoinSplit<T>(s: seq<T>, sep: T)
    ensures Join(Split(s, sep), sep) == s
    ensures forall i :: 0 <= i < |Split(s, sep)| ==> sep !in Split(s, sep)[i]
  {
    if s != [] {
      JoinSplit(s[1..], sep);
      var rest := Split(s[1..], sep);
      if s[0] == sep {
        assert ([[]] + rest)[1..] == rest;
      } else if |rest| > 1 {
        var parts := [[s[0]] + rest[0]] + rest[1..];
        assert parts[1..] == rest[1..];
      }
    }
  }

  /** The parts joined by a separator and a space. */
  function Listed(parts: seq<string>, sep: char): string {
    if parts == [] then ""
    else if |parts| == 1 then parts[0]
    else parts[0] + [sep] + ([' '] + Listed(parts[1..], sep))
  }

  /** Splitting a list at its separator gives the parts back, all but the first with a leading space. */
  lemma {:induction false} SplitListed(parts: seq<string>, sep: char)
    requires parts != [] && sep != ' '
    requires forall i :: 0 <= i < |parts| ==> sep !in parts[i]
    ensures |Split(Listed(parts, sep), sep)| == |parts|
    ensures Split(Listed(parts, sep), sep)[0] == parts[0]
    ensures forall i :: 1 <= i < |parts| ==> Split(Listed(parts, sep), sep)[i] == [' '] + parts[i]
  {
    SplitPrefix(parts[0], [], sep);
    if |parts| > 1 {
      var rest := Listed(parts[1..], sep);
      SplitPrefix(parts[0], [' '] + rest, sep);
      SplitListed(parts[1..], sep);
      assert ([' '] + rest)[1..] == rest;
    }
  }

  lemma {:induction false} ListedAppend(parts: seq<string>, part: string, sep: char)
    requires parts != []
    ensures Listed(parts + [part], sep) == Listed(parts, sep) + [sep, ' '] + part
  {
    var more := parts + [part];
    if |parts| == 1 {
      assert more[1..] == [part];
    } else {
      ListedAppend(parts[1..], part, sep);
      assert more[1..] == parts[1..] + [part];
    }
  }

  /** Lexicographic order by code point: Python's `<=` on strings and Rust's on bytes. */
  predicate Leq(a: string, b: string) {
    a == [] || (b != [] && (a[0] < b[0] || (a[0] == b[0] && Leq(a[1..], b[1..]))))
  }

  lemma {:induction false} LeqAntisymmetric(a: string, b: string)
    requires Leq(a, b) && Leq(b, a)
    ensures a == b
  {
    if a != [] {
      LeqAntisymmetric(a[1..], b[1..]);
    }
  }

  lemma {:induction false} LeqTotal(a: string, b: string)
    ensures Leq(a, b) || Leq(b, a)
  {
    if a != [] && b != [] {
      LeqTotal(a[1..], b[1..]);
    }
  }

  lemma {:induction false} LeqTransitive(a: string, b: string, c: string)
    requires Leq(a, b) && Leq(b, c)
    ensures Leq(a, c)
  {
    if a != [] && a[0] == b[0] == c[0] {
      LeqTransitive(a[1..], b[1..], c[1..]);
    }
  }

  ghost predicate IsLeast(k: string, keys: set<string>) {
    k in keys && forall other | other in keys :: Leq(k, other)
  }

  lemma {:induction false} LeastExists(keys: set<string>)
    requires keys != {}
    ensures exists k :: IsLeast(k, keys)
  {
    var k :| k in keys;
    var rest := keys - {k};
    LeqTotal(k, k);
    if rest == {} {
      assert keys == {k};
      assert IsLeast(k, keys);
    } else {
      LeastExists(rest);
      var r :| IsLeast(r, rest);
      LeqTotal(k, r);
      var least := if Leq(k, r) then k else r;
      forall other | other in keys ensures Leq(least, other) {
        if other != k && least == k {
          LeqTransitive(k, r, other);
        }
      }
      assert IsLeast(least, keys);
    }
  }

  /** The keys in ascending order: `sorted(keys)` and the iteration order of a BTreeMap. */
  ghost function Sorted(keys: set<string>): (s: seq<string>)
    ensures forall k :: k in s <==> k in keys
    ensures |s| == |keys|
    ensures forall i, j :: 0 <= i < j < |s| ==> s[i] != s[j] && Leq(s[i], s[j])
  {
    if keys == {} then []
    else
      LeastExists(keys);
      var k :| IsLeast(k, keys);
      [k] + Sorted(keys - {k})
  }

  /** A list of exactly these keys, each once. */
  ghost predicate Lists(s: seq<string>, keys: set<string>) {
    (forall k :: k in s <==> k in keys) && forall i, j :: 0 <= i < j < |s| ==> s[i] != s[j]
  }

  lemma SortedLists(keys: set<string>)
    ensures Lists(Sorted(keys), keys)
  {
  }

  /** The first key in ascending order. */
  method Least(keys: set<string>) returns (k: string)
    requires keys != {}
    ensures IsLeast(k, keys)
  {
    k :| k in keys;
    LeqTotal(k, k);
    var todo := keys - {k};
    while todo != {}
      invariant todo <= keys && k in keys
      invariant forall other | other in keys - todo :: Leq(k, other)
      decreases todo
    {
      var next :| next in todo;
      LeqTotal(k, next);
      LeqTotal(next, next);
      if !Leq(k, next) {
        forall other | other in keys - todo ensures Leq(next, other) { LeqTransitive(next, k, other); }
        k := next;
      }
      todo := todo - {next};
    }
  }

  lemma SortedNext(keys: set<string>, k: string)
    requires keys != {} && IsLeast(k, keys)
    ensures Sorted(keys) == [k] + Sorted(keys - {k})
  {
    var first := Sorted(keys)[0];
    assert first in keys && Leq(k, first);
    var i :| 0 <= i < |Sorted(keys)| && Sorted(keys)[i] == k;
    if i > 0 { LeqAntisymmetric(first, k); }
  }

  lemma Shift<T>(front: seq<T>, x: T, back: seq<T>)
    ensures front + ([x] + back) == front + [x] + back
  {
  }

  /** `s.trim()`, for whichever characters count as white space. */
  function Trim<T>(s: seq<T>, space: T -> bool): seq<T> {
    if s == [] then s
    else if space(s[0]) then Trim(s[1..], space)
    else if space(s[|s| - 1]) then Trim(s[..|s| - 1], space)
    else s
  }

  predicate Trimmed<T>(s: seq<T>, space: T -> bool) {
    s != [] ==> !space(s[0]) && !space(s[|s| - 1])
  }

  /** Trimming leaves nothing to trim and adds no character. */
  lemma {:induction false} TrimTrims<T>(s: seq<T>, space: T -> bool)
    ensures Trimmed(Trim(s, space), space)
    ensures forall c | c in Trim(s, space) :: c in s
  {
    if s != [] && space(s[0]) {
      TrimTrims(s[1..], space);
    } else if s != [] && space(s[|s| - 1]) {
      TrimTrims(s[..|s| - 1], space);
    }
  }

  /** What was trimmed away is white space on both sides. */
  lemma {:induction false} TrimSurrounded<T>(s: seq<T>, space: T -> bool) returns (front: seq<T>, back: seq<T>)
    ensures s == front + Trim(s, space) + back
    ensures (forall c | c in front :: space(c)) && forall c | c in back :: space(c)
  {
    front, back := [], [];
    if s != [] && space(s[0]) {
      front, back := TrimSurrounded(s[1..], space);
      front := [s[0]] + front;
    } else if s != [] && space(s[|s| - 1]) {
      front, back := TrimSurrounded(s[..|s| - 1], space);
      back := back + [s[|s| - 1]];
    }
  }

  // ---------------------------------------------------------------------------------------
  // Letter case

  function LowerChar(c: char): char {
    if 'A' <= c <= 'Z' then (c as int + 32) as char else c
  }

  /** `to_ascii_lowercase`. */
  function Lowered(s: string): string {
    seq(|s|, i requires 0 <= i < |s| => LowerChar(s[i]))
  }

  /** The same letter: a small one is 32 above its capital. */
  ghost predicate SameLetter(a: char, b: char) {
    || a == b || ('A' <= a <= 'Z' && b as int == a as int + 32) || ('A' <= b <= 'Z' && a as int == b as int + 32)
  }

  /** The same letters, none of them a capital. */
  ghost predicate LowerOf(low: string, s: string) {
    && |low| == |s| && (forall k | 0 <= k < |s| :: SameLetter(low[k], s[k]))
    && forall k | 0 <= k < |low| :: low[k] < 'A' || 'Z' < low[k]
  }

  lemma LoweredIff(s: string, low: string)
    ensures Lowered(s) == low <==> LowerOf(low, s)
  {
    if LowerOf(low, s) {
      forall k | 0 <= k < |s| ensures Lowered(s)[k] == low[k] { assert SameLetter(low[k], s[k]); }
    }
  }
}
