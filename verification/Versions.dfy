/** Release versions: parsing, SemVer precedence, and that precedence is a total preorder. */
module Versions {
  import opened Json
  import opened Text

  datatype Version = Version(core: seq<string>, prerelease: seq<string>)

  predicate IsDigit(c: char) { '0' <= c <= '9' }

  predicate AllDigits(s: string) { forall c | c in s :: IsDigit(c) }

  /** A non-empty run of digits. */
  predicate Numeric(s: string) { s != "" && AllDigits(s) }

  predicate IsSuffixChar(c: char) {
    'A' <= c <= 'Z' || 'a' <= c <= 'z' || IsDigit(c) || c == '.' || c == '-'
  }

  /** The length of the part before the first `-` or `+`. */
  function CoreLength(s: string): (n: nat)
    ensures n <= |s|
  {
    if s == "" || s[0] == '-' || s[0] == '+' then 0 else 1 + CoreLength(s[1..])
  }

  /** `parse_release_version`: an optional `v`, three runs of digits, an optional prerelease or
      build suffix; build metadata is dropped. */
  function Parse(value: string): Option<Version> {
    var body := if value != "" && value[0] == 'v' then value[1..] else value;
    var n := CoreLength(body);
    var core := Split(body[..n], '.');
    if |core| != 3 || !Numeric(core[0]) || !Numeric(core[1]) || !Numeric(core[2]) then None
    else if n == |body| then Some(Version(core, []))
    else
      var suffix := body[n + 1..];
      if suffix == "" || exists c | c in suffix :: !IsSuffixChar(c) then None
      else Some(Version(core, if body[n] == '-' then Split(suffix, '.') else []))
  }

  // ---------------------------------------------------------------------------------------
  // Comparing runs of digits

  datatype Order = Less | Equal | Greater

  function CompareInt(a: int, b: int): Order {
    if a < b then Less else if a > b then Greater else Equal
  }

  function CompareText(a: string, b: string): Order {
    if a == b then Equal else if Leq(a, b) then Less else Greater
  }

  function TrimZeros(s: string): string {
    if s != "" && s[0] == '0' then TrimZeros(s[1..]) else s
  }

  function OrZero(s: string): string { if s == "" then "0" else s }

  /** `compare_numeric_strings`: shorter is smaller once leading zeros are gone, then by text. */
  function CompareNumeric(a: string, b: string): Order {
    var (x, y) := (OrZero(TrimZeros(a)), OrZero(TrimZeros(b)));
    if |x| != |y| then CompareInt(|x|, |y|) else CompareText(x, y)
  }

  function Digit(c: char): (d: nat)
    ensures IsDigit(c) ==> d <= 9 && d == c as int - '0' as int
  {
    if IsDigit(c) then c as int - '0' as int else 0
  }

  function Value(s: string): nat
    requires AllDigits(s)
  {
    if s == "" then 0 else Digit(s[0]) * Pow10(|s| - 1) + Value(s[1..])
  }

  function Pow10(n: nat): (p: nat)
    ensures p >= 1
  {
    if n == 0 then 1 else 10 * Pow10(n - 1)
  }

  lemma DigitsAppend(s: string, c: char)
    requires AllDigits(s) && IsDigit(c)
    ensures AllDigits(s + [c])
    ensures s != "" ==> (s + [c])[1..] == s[1..] + [c] && AllDigits(s[1..]) && IsDigit(s[0])
  {
  }

  lemma TenTimes(d: nat, p: nat, v: nat, last: nat)
    ensures d * (10 * p) + (10 * v + last) == 10 * (d * p + v) + last
  {
    assert d * (10 * p) == 10 * (d * p);
  }

  /** The number that a run of digits denotes, read from the left. */
  lemma {:induction false} ValueReads(s: string, c: char)
    requires AllDigits(s) && '0' <= c <= '9'
    ensures AllDigits(s + [c]) && Value(s + [c]) == 10 * Value(s) + (c as int - '0' as int)
    decreases s
  {
    DigitsAppend(s, c);
    if s == "" {
      assert s + [c] == [c] && [c][1..] == "" && Pow10(0) == 1;
    } else {
      var t := s + [c];
      ValueReads(s[1..], c);
      assert Value(t) == Digit(t[0]) * Pow10(|t| - 1) + Value(t[1..]);
      TenTimes(Digit(s[0]), Pow10(|s| - 1), Value(s[1..]), Digit(c));
    }
  }

  lemma {:induction false} Pow10Monotone(m: nat, n: nat)
    requires m <= n
    ensures Pow10(m) <= Pow10(n)
  {
    if m < n { Pow10Monotone(m, n - 1); }
  }

  lemma {:induction false} ValueBelow(s: string)
    requires AllDigits(s)
    ensures Value(s) < Pow10(|s|)
  {
    if s != "" {
      assert IsDigit(s[0]);
      ValueBelow(s[1..]);
      DigitStep(Digit(s[0]), Pow10(|s| - 1), Value(s[1..]));
    }
  }

  lemma DigitStep(d: int, p: nat, rest: nat)
    requires 0 <= d <= 9 && rest < p
    ensures d * p + rest < 10 * p && (d > 0 ==> d * p + rest >= p)
  {
    assert d * p <= 9 * p;
    if d > 0 { assert d * p >= 1 * p; }
  }

  lemma {:induction false} TrimZerosValue(s: string)
    requires AllDigits(s)
    ensures AllDigits(TrimZeros(s)) && Value(TrimZeros(s)) == Value(s)
    ensures TrimZeros(s) == "" || TrimZeros(s)[0] != '0'
  {
    if s != "" && s[0] == '0' { TrimZerosValue(s[1..]); }
  }

  /** Text order on equally long runs of digits is numeric order. */
  lemma {:induction false} SameLengthValue(a: string, b: string)
    requires AllDigits(a) && AllDigits(b) && |a| == |b|
    ensures CompareText(a, b) == CompareInt(Value(a), Value(b))
  {
    if a != "" {
      var (x, y) := (Digit(a[0]), Digit(b[0]));
      var (p, u, v) := (Pow10(|a| - 1), Value(a[1..]), Value(b[1..]));
      assert IsDigit(a[0]) && IsDigit(b[0]);
      SameLengthValue(a[1..], b[1..]);
      ValueBelow(a[1..]);
      ValueBelow(b[1..]);
      if x < y { HigherDigit(x, y, p, u, v); }
      if y < x { HigherDigit(y, x, p, v, u); }
      assert a == [a[0]] + a[1..] && b == [b[0]] + b[1..];
    }
  }

  lemma HigherDigit(x: int, y: int, p: nat, u: nat, v: nat)
    requires 0 <= x < y && u < p
    ensures x * p + u < y * p + v
  {
    assert (x + 1) * p <= y * p;
    assert (x + 1) * p == x * p + p;
  }

  lemma NonZeroLength(s: string)
    requires Numeric(s) && s[0] != '0'
    ensures Pow10(|s| - 1) <= Value(s) < Pow10(|s|)
  {
    assert IsDigit(s[0]);
    ValueBelow(s);
    ValueBelow(s[1..]);
    DigitStep(Digit(s[0]), Pow10(|s| - 1), Value(s[1..]));
  }

  lemma ShorterIsSmaller(x: string, y: string)
    requires Numeric(x) && Numeric(y) && y[0] != '0' && |x| < |y|
    ensures Value(x) < Value(y)
  {
    ValueBelow(x);
    NonZeroLength(y);
    Pow10Monotone(|x|, |y| - 1);
  }

  /** The comparison of digit strings of any length is the comparison of the numbers they denote. */
  lemma CompareNumericIsNumeric(a: string, b: string)
    requires AllDigits(a) && AllDigits(b)
    ensures CompareNumeric(a, b) == CompareInt(Value(a), Value(b))
  {
    TrimZerosValue(a);
    TrimZerosValue(b);
    var (x, y) := (OrZero(TrimZeros(a)), OrZero(TrimZeros(b)));
    assert Value("0") == 0 * Pow10(0) + Value("");
    assert Value(x) == Value(a) && Value(y) == Value(b);
    if |x| == |y| {
      SameLengthValue(x, y);
    } else if |x| < |y| {
      ShorterIsSmaller(x, y);
    } else {
      ShorterIsSmaller(y, x);
    }
  }

  // ---------------------------------------------------------------------------------------
  // Precedence

  function CompareIdentifier(l: string, r: string): Order {
    if Numeric(l) && Numeric(r) then CompareNumeric(l, r)
    else if Numeric(l) then Less
    else if Numeric(r) then Greater
    else CompareText(l, r)
  }

  /** The first difference decides; a longer list of equal identifiers is greater. */
  function CompareIdentifiers(a: seq<string>, b: seq<string>): Order {
    if a == [] || b == [] then CompareInt(|a|, |b|)
    else
      var first := CompareIdentifier(a[0], b[0]);
      if first != Equal then first else CompareIdentifiers(a[1..], b[1..])
  }

  function CompareCore(a: seq<string>, b: seq<string>): Order
    requires |a| == |b|
  {
    if a == [] then Equal
    else
      var first := CompareNumeric(a[0], b[0]);
      if first != Equal then first else CompareCore(a[1..], b[1..])
  }

  function CompareParsed(a: Version, b: Version): Order
    requires |a.core| == |b.core|
  {
    var core := CompareCore(a.core, b.core);
    if core != Equal then core
    else if a.prerelease == [] && b.prerelease == [] then Equal
    else if a.prerelease == [] then Greater
    else if b.prerelease == [] then Less
    else CompareIdentifiers(a.prerelease, b.prerelease)
  }

  /** `compare_release_versions`; None when either version does not parse. */
  function Compare(left: string, right: string): Option<Order> {
    match (Parse(left), Parse(right))
    case (Some(a), Some(b)) => Some(CompareParsed(a, b))
    case _ => None
  }

  function Flip(o: Order): Order {
    match o case Less => Greater case Equal => Equal case Greater => Less
  }

  /** At most: both parse and the first does not exceed the second. */
  predicate AtMost(a: string, b: string) {
    Compare(a, b).Some? && Compare(a, b).value != Greater
  }

  lemma CompareTextFlip(a: string, b: string)
    ensures CompareText(b, a) == Flip(CompareText(a, b))
  {
    LeqTotal(a, b);
    if Leq(a, b) && Leq(b, a) { LeqAntisymmetric(a, b); }
  }

  lemma CompareNumericFlip(a: string, b: string)
    ensures CompareNumeric(b, a) == Flip(CompareNumeric(a, b))
  {
    CompareTextFlip(OrZero(TrimZeros(a)), OrZero(TrimZeros(b)));
  }

  lemma CompareIdentifierFlip(a: string, b: string)
    ensures CompareIdentifier(b, a) == Flip(CompareIdentifier(a, b))
  {
    CompareTextFlip(a, b);
    CompareNumericFlip(a, b);
  }

  lemma {:induction false} CompareIdentifiersFlip(a: seq<string>, b: seq<string>)
    ensures CompareIdentifiers(b, a) == Flip(CompareIdentifiers(a, b))
  {
    if a != [] && b != [] {
      CompareIdentifierFlip(a[0], b[0]);
      CompareIdentifiersFlip(a[1..], b[1..]);
    }
  }

  lemma {:induction false} CompareCoreFlip(a: seq<string>, b: seq<string>)
    requires |a| == |b|
    ensures CompareCore(b, a) == Flip(CompareCore(a, b))
  {
    if a != [] {
      CompareNumericFlip(a[0], b[0]);
      CompareCoreFlip(a[1..], b[1..]);
    }
  }

  /** Swapping the versions flips the outcome: precedence is total and its ties are symmetric. */
  lemma CompareFlip(a: string, b: string)
    ensures Compare(b, a) == if Compare(a, b).None? then None else Some(Flip(Compare(a, b).value))
  {
    match (Parse(a), Parse(b))
    case (Some(x), Some(y)) =>
      CompareCoreFlip(x.core, y.core);
      CompareIdentifiersFlip(x.prerelease, y.prerelease);
    case _ =>
  }

  /** `c` follows from `a` then `b`: the table of composing two comparisons. */
  ghost predicate Composes(ab: Order, bc: Order, ac: Order) {
    && (ab == Equal ==> ac == bc) && (bc == Equal ==> ac == ab)
    && (ab == bc ==> ac == ab)
  }

  lemma CompareTextComposes(a: string, b: string, c: string)
    ensures Composes(CompareText(a, b), CompareText(b, c), CompareText(a, c))
  {
    CompareTextFlip(a, b);
    CompareTextFlip(b, c);
    CompareTextFlip(a, c);
    if Leq(a, b) && Leq(b, c) {
      LeqTransitive(a, b, c);
      if a == c { LeqAntisymmetric(a, b); }
    }
    if Leq(c, b) && Leq(b, a) {
      LeqTransitive(c, b, a);
      if a == c { LeqAntisymmetric(a, b); }
    }
  }

  lemma CompareNumericComposes(a: string, b: string, c: string)
    ensures Composes(CompareNumeric(a, b), CompareNumeric(b, c), CompareNumeric(a, c))
  {
    CompareTextComposes(OrZero(TrimZeros(a)), OrZero(TrimZeros(b)), OrZero(TrimZeros(c)));
  }

  lemma CompareIdentifierComposes(a: string, b: string, c: string)
    ensures Composes(CompareIdentifier(a, b), CompareIdentifier(b, c), CompareIdentifier(a, c))
  {
    CompareTextComposes(a, b, c);
    CompareNumericComposes(a, b, c);
  }

  lemma {:induction false} CompareIdentifiersComposes(a: seq<string>, b: seq<string>, c: seq<string>)
    ensures Composes(CompareIdentifiers(a, b), CompareIdentifiers(b, c), CompareIdentifiers(a, c))
  {
    if a != [] && b != [] && c != [] {
      CompareIdentifierComposes(a[0], b[0], c[0]);
      CompareIdentifiersComposes(a[1..], b[1..], c[1..]);
    }
  }

  lemma {:induction false} CompareCoreComposes(a: seq<string>, b: seq<string>, c: seq<string>)
    requires |a| == |b| == |c|
    ensures Composes(CompareCore(a, b), CompareCore(b, c), CompareCore(a, c))
  {
    if a != [] {
      CompareNumericComposes(a[0], b[0], c[0]);
      CompareCoreComposes(a[1..], b[1..], c[1..]);
    }
  }

  lemma CompareComposes(a: string, b: string, c: string)
    requires Compare(a, b).Some? && Compare(b, c).Some?
    ensures Compare(a, c).Some?
    ensures Composes(Compare(a, b).value, Compare(b, c).value, Compare(a, c).value)
  {
    var (x, y, z) := (Parse(a).value, Parse(b).value, Parse(c).value);
    CompareCoreComposes(x.core, y.core, z.core);
    CompareIdentifiersComposes(x.prerelease, y.prerelease, z.prerelease);
  }

  /** Precedence is a total preorder on everything that parses. */
  lemma PrecedenceIsTotalPreorder(a: string, b: string, c: string)
    requires Parse(a).Some? && Parse(b).Some? && Parse(c).Some?
    ensures AtMost(a, a)
    ensures AtMost(a, b) || AtMost(b, a)
    ensures AtMost(a, b) && AtMost(b, c) ==> AtMost(a, c)
    ensures AtMost(a, b) && AtMost(b, a) <==> Compare(a, b) == Some(Equal)
  {
    CompareFlip(a, a);
    CompareFlip(a, b);
    CompareFlip(b, c);
    CompareFlip(a, c);
    CompareComposes(a, b, c);
    assert Compare(a, a).value == Flip(Compare(a, a).value);
  }
}
