/** Names, questions and answers stated on the bytes of the messages (sections 4.1.1 to 4.1.4 of
    RFC 1035), and that the decoder and the encoder agree with them on every message. */
module DnsWire {
  import opened Json
  import opened Text
  import opened DnsName
  import opened DnsMessage

  // ---------------------------------------------------------------------------------------
  // What the bytes at an offset mean

  /** Top bits 11: the low fourteen bits are an offset. A length up to 63: a label. Zero: the end.
      Everything else, and whatever leaves the message, is malformed. */
  lemma MoveIff(data: seq<Byte>, at: nat, text: seq<Byte>, t: nat)
    ensures MoveAt(data, at) == Root <==> Holds(data, at, [0])
    ensures MoveAt(data, at) == Label(text) <==> 1 <= |text| <= 63 && Holds(data, at, [|text|] + text)
    ensures MoveAt(data, at) == Pointer(t) <==> t < 16384 && Holds(data, at, [192 + t / 256, t % 256])
  {
    RootIff(data, at);
    LabelIff(data, at, text);
    PointerIff(data, at, t);
  }

  lemma RootIff(data: seq<Byte>, at: nat)
    ensures MoveAt(data, at) == Root <==> Holds(data, at, [0])
  {
    if at < |data| { assert data[at..at + 1] == [data[at]]; }
  }

  lemma LabelIff(data: seq<Byte>, at: nat, text: seq<Byte>)
    ensures MoveAt(data, at) == Label(text) <==> 1 <= |text| <= 63 && Holds(data, at, [|text|] + text)
  {
    if 1 <= |text| <= 63 && Holds(data, at, [|text|] + text) { LabelInContext(data, at, text); }
    if MoveAt(data, at) == Label(text) {
      assert data[at..at + 1 + |text|] == [data[at]] + data[at + 1..at + 1 + |text|];
    }
  }

  lemma PointerIff(data: seq<Byte>, at: nat, t: nat)
    ensures MoveAt(data, at) == Pointer(t) <==> t < 16384 && Holds(data, at, [192 + t / 256, t % 256])
  {
    if at + 2 <= |data| { assert data[at..at + 2] == [data[at], data[at + 1]]; }
  }

  // ---------------------------------------------------------------------------------------
  // Letter case

  /** The same letter: `A` is 65, `Z` is 90, and a small letter is 32 above its capital. */
  ghost predicate SameLetter(a: Byte, b: Byte) {
    a == b || (65 <= a <= 90 && b == a + 32) || (65 <= b <= 90 && a == b + 32)
  }

  ghost predicate SameLetters(a: seq<Byte>, b: seq<Byte>) {
    |a| == |b| && forall i | 0 <= i < |a| :: SameLetter(a[i], b[i])
  }

  ghost predicate NoCapitals(a: seq<Byte>) {
    forall i | 0 <= i < |a| :: a[i] < 65 || 90 < a[i]
  }

  /** Lower case is the one spelling without capitals of the same letters. */
  lemma LowerIff(raw: seq<Byte>, text: seq<Byte>)
    ensures LowerAll(raw) == text <==> SameLetters(raw, text) && NoCapitals(text)
  {
    if SameLetters(raw, text) && NoCapitals(text) {
      forall i | 0 <= i < |raw| ensures LowerAll(raw)[i] == text[i] { assert SameLetter(raw[i], text[i]); }
    }
  }

  /** Two names are one name to the decoder exactly when they differ at most in letter case. */
  lemma SameNameIff(a: seq<Byte>, b: seq<Byte>)
    ensures LowerAll(a) == LowerAll(b) <==> SameLetters(a, b)
  {
    if LowerAll(a) == LowerAll(b) {
      forall i | 0 <= i < |a| ensures SameLetter(a[i], b[i]) {
        assert LowerAll(a)[i] == Lower(a[i]) && LowerAll(b)[i] == Lower(b[i]);
      }
    }
    if SameLetters(a, b) {
      forall i | 0 <= i < |a| ensures LowerAll(a)[i] == LowerAll(b)[i] { assert SameLetter(a[i], b[i]); }
    }
  }

  /** A chain of moves spells these bytes, all below 128, and this is their lower case. */
  ghost predicate Spells(data: seq<Byte>, at: nat, labels: seq<seq<Byte>>, text: seq<Byte>, end: nat) {
    && Decodes(data, at, Name(labels, end)) && (forall b | b in Join(labels, 46) :: b < 128)
    && SameLetters(Join(labels, 46), text) && NoCapitals(text)
  }

  /** For every message and offset: the decoder returns a text and an end exactly when a finite
      chain of moves spells them. */
  lemma NameIff(data: seq<Byte>, at: nat, text: seq<Byte>, end: nat)
    ensures Decoded(data, at) == Some((text, end)) <==> exists labels :: Spells(data, at, labels, text, end)
  {
    VisitedSetExact(data, at, text, end);
    if Decoded(data, at) == Some((text, end)) {
      var labels :| Decodes(data, at, Name(labels, end)) && IsAscii(Join(labels, 46)) && text == Dotted(labels);
      LowerIff(Join(labels, 46), text);
      assert Spells(data, at, labels, text, end);
    }
    forall labels | Spells(data, at, labels, text, end) ensures Decoded(data, at) == Some((text, end)) {
      LowerIff(Join(labels, 46), text);
    }
  }

  // ---------------------------------------------------------------------------------------
  // The answer, byte by byte

  /** A response to this query: its id, the response bit, no truncation, no error, one question. */
  ghost predicate Header(data: seq<Byte>, query: seq<Byte>) {
    && |data| >= 12 && |query| >= 2 && data[0] == query[0] && data[1] == query[1]
    && data[2] >= 128 && (data[2] / 2) % 2 == 0 && data[3] % 16 == 0 && data[4] == 0 && data[5] == 1
  }

  /** The name asked for, type A, class IN; the records start behind them. */
  ghost predicate Asked(data: seq<Byte>, query: seq<Byte>, name: seq<Byte>, start: nat) {
    && start >= 4 && start <= |data| && Decoded(data, 12) == Some((name, start - 4))
    && Decoded(query, 12).Some? && Decoded(query, 12).value.0 == name && Holds(data, start - 4, [0, 1, 0, 1])
  }

  /** The offset of the ten bytes behind the owner, and of what stands behind the data they announce. */
  ghost predicate Entry(data: seq<Byte>, at: nat, k: nat, end: nat) {
    && Decoded(data, at).Some? && k == Decoded(data, at).value.1
    && k + 10 <= |data| && end == k + 10 + (data[k + 8] as int) * 256 + data[k + 9] && end <= |data|
  }

  /** Owned by the name, type A, class IN, four bytes of data. */
  ghost predicate Wanted(data: seq<Byte>, at: nat, k: nat, name: seq<Byte>) {
    && Decoded(data, at).Some? && Decoded(data, at).value.0 == name
    && Holds(data, k, [0, 1, 0, 1]) && Holds(data, k + 8, [0, 4])
  }

  /** The list starts with the data of this record if it is wanted; the rest of the list. */
  ghost predicate Gives(
      data: seq<Byte>, at: nat, k: nat, name: seq<Byte>, found: seq<seq<Byte>>, rest: seq<seq<Byte>>)
  {
    if Wanted(data, at, k, name) then k + 14 <= |data| && found == [data[k + 10..k + 14]] + rest else found == rest
  }

  /** From this offset stand `n` records, and these are the data of the A records of the name. */
  ghost predicate Section(data: seq<Byte>, at: nat, n: nat, name: seq<Byte>, found: seq<seq<Byte>>)
    decreases n
  {
    if n == 0 then found == []
    else exists k: nat, end: nat, rest ::
      Entry(data, at, k, end) && Gives(data, at, k, name, found, rest) && Section(data, end, n - 1, name, rest)
  }

  lemma TwoBytes(data: seq<Byte>, at: nat, a: Byte, b: Byte)
    requires at + 2 <= |data|
    ensures Holds(data, at, [a, b]) <==> data[at] == a && data[at + 1] == b
    ensures Holds(data, at, [a, b]) <==> U16(data, at) == (a as int) * 256 + b
  {
    assert data[at..at + 2] == [data[at], data[at + 1]];
  }

  lemma FourBytes(data: seq<Byte>, at: nat)
    requires at + 4 <= |data|
    ensures Holds(data, at, [0, 1, 0, 1]) <==> U16(data, at) == 1 && U16(data, at + 2) == 1
  {
    assert data[at..at + 4] == [data[at], data[at + 1], data[at + 2], data[at + 3]];
  }

  lemma FlagsIff(high: Byte, low: Byte)
    ensures UsableFlags((high as int) * 256 + low) <==> high >= 128 && (high / 2) % 2 == 0 && low % 16 == 0
  {
    var flags := (high as int) * 256 + low;
    assert flags / 512 == high / 2;
    assert flags % 16 == low % 16;
  }

  lemma EchoedIff(data: seq<Byte>, query: seq<Byte>, name: seq<Byte>, start: nat)
    ensures QuestionEchoed(data, query) == Some((name, start)) <==>
      Header(data, query) && Asked(data, query, name, start)
  {
    if |data| >= 12 && |query| >= 2 {
      FlagsIff(data[2], data[3]);
    }
  }

  /** The record at an offset is what its bytes say. */
  lemma EntryIff(data: seq<Byte>, at: nat, k: nat, end: nat, name: seq<Byte>)
    ensures Entry(data, at, k, end) <==>
      RecordAt(data, at).Some? && k == Decoded(data, at).value.1 && end == RecordAt(data, at).value.end
    ensures Entry(data, at, k, end) ==> (IsAddress(RecordAt(data, at).value, name) <==> Wanted(data, at, k, name))
    ensures Entry(data, at, k, end) && Wanted(data, at, k, name) ==>
      k + 14 <= |data| && RecordAt(data, at).value.bytes == data[k + 10..k + 14]
  {
    if Entry(data, at, k, end) {
      FourBytes(data, k);
      TwoBytes(data, k + 8, 0, 4);
    }
  }

  /** Records one after the other, however a single one is read, and the addresses among them. */
  ghost predicate Among(read: nat -> Option<Record>, at: nat, n: nat, name: seq<Byte>, found: seq<seq<Byte>>)
    decreases n
  {
    if n == 0 then found == []
    else
      && read(at).Some?
      && var first := read(at).value;
         if IsAddress(first, name)
         then found != [] && found[0] == first.bytes && Among(read, first.end, n - 1, name, found[1..])
         else Among(read, first.end, n - 1, name, found)
  }

  lemma {:induction false} AmongIff(
      read: nat -> Option<Record>, at: nat, n: nat, name: seq<Byte>, found: seq<seq<Byte>>)
    ensures Among(read, at, n, name, found) <==>
      Walked(read, at, n).Some? && Addresses(Walked(read, at, n).value, name) == found
    decreases n
  {
    if n > 0 && read(at).Some? {
      var first := read(at).value;
      var matches := IsAddress(first, name);
      AmongIff(read, first.end, n - 1, name, if matches && found != [] then found[1..] else found);
      var rest := Walked(read, first.end, n - 1);
      if rest.Some? { AddressesFirst(first, rest.value, name); }
    }
  }

  lemma {:induction false} SectionIff(data: seq<Byte>, at: nat, n: nat, name: seq<Byte>, found: seq<seq<Byte>>)
    ensures Section(data, at, n, name, found) <==> Among(Reader(data), at, n, name, found)
    decreases n
  {
    if n > 0 {
      forall k: nat, end: nat, rest | Entry(data, at, k, end) && Gives(data, at, k, name, found, rest)
        ensures Section(data, end, n - 1, name, rest) <==> Among(Reader(data), at, n, name, found)
      {
        EntryIff(data, at, k, end, name);
        SectionIff(data, end, n - 1, name, rest);
      }
      if Among(Reader(data), at, n, name, found) { AmongGives(data, at, n, name, found); }
    }
  }

  lemma AmongGives(data: seq<Byte>, at: nat, n: nat, name: seq<Byte>, found: seq<seq<Byte>>)
    requires n > 0 && Among(Reader(data), at, n, name, found)
    ensures exists k: nat, end: nat, rest :: Entry(data, at, k, end) && Gives(data, at, k, name, found, rest)
  {
    var (k, end) := (Decoded(data, at).value.1, RecordAt(data, at).value.end);
    EntryIff(data, at, k, end, name);
    var rest := if Wanted(data, at, k, name) then found[1..] else found;
    assert Gives(data, at, k, name, found, rest);
  }

  /** The header, the question and the records of the response carry these addresses. */
  ghost predicate Carries(data: seq<Byte>, query: seq<Byte>, name: seq<Byte>, start: nat, found: seq<seq<Byte>>) {
    && Header(data, query) && Asked(data, query, name, start)
    && Section(data, start, (data[6] as int) * 256 + data[7], name, found)
  }

  lemma FoundAmong(data: seq<Byte>, query: seq<Byte>, name: seq<Byte>, start: nat, found: seq<seq<Byte>>)
    requires |data| >= 12 && QuestionEchoed(data, query) == Some((name, start))
    ensures Found(data, query) == Some(found) <==> Among(Reader(data), start, U16(data, 6), name, found)
  {
    AmongIff(Reader(data), start, U16(data, 6), name, found);
  }

  lemma FoundSection(data: seq<Byte>, query: seq<Byte>, name: seq<Byte>, start: nat, found: seq<seq<Byte>>)
    requires |data| >= 12 && QuestionEchoed(data, query) == Some((name, start))
    ensures Found(data, query) == Some(found) <==>
      Section(data, start, (data[6] as int) * 256 + data[7], name, found)
  {
    var n: nat := (data[6] as int) * 256 + data[7];
    assert n == U16(data, 6);
    FoundAmong(data, query, name, start, found);
    SectionIff(data, start, n, name, found);
  }

  lemma CarriesFound(data: seq<Byte>, query: seq<Byte>, name: seq<Byte>, start: nat, found: seq<seq<Byte>>)
    requires Carries(data, query, name, start, found)
    ensures Found(data, query) == Some(found)
  {
    EchoedIff(data, query, name, start);
    FoundSection(data, query, name, start, found);
  }

  lemma FoundCarries(data: seq<Byte>, query: seq<Byte>, found: seq<seq<Byte>>)
    requires Found(data, query) == Some(found)
    ensures exists name, start: nat :: Carries(data, query, name, start, found)
  {
    var (name, start) := QuestionEchoed(data, query).value;
    EchoedIff(data, query, name, start);
    FoundSection(data, query, name, start, found);
    assert Carries(data, query, name, start, found);
  }

  /** For every response, query and list of addresses: the addresses are found exactly when the
      bytes of the response carry them. */
  lemma FoundIff(data: seq<Byte>, query: seq<Byte>, found: seq<seq<Byte>>)
    ensures Found(data, query) == Some(found) <==> exists name, start: nat :: Carries(data, query, name, start, found)
  {
    if Found(data, query) == Some(found) { FoundCarries(data, query, found); }
    forall name, start: nat | Carries(data, query, name, start, found) ensures Found(data, query) == Some(found) {
      CarriesFound(data, query, name, start, found);
    }
  }

  /** An answer with the expected addresses: some and all public, or the one with this text. */
  lemma SatisfiedIff(expected: Expected, found: seq<seq<Byte>>, isGlobal: seq<Byte> -> bool)
    requires forall a | a in found :: |a| == 4
    ensures Satisfied(expected, found, isGlobal) <==>
      match expected
      case Public => |found| > 0 && forall i | 0 <= i < |found| :: isGlobal(found[i])
      case Exactly(text) => |found| == 1 && found[0] in found && AddressText(found[0]) == text
    ensures |Texts(found)| == |found| && forall i | 0 <= i < |found| ::
      found[i] in found && Texts(found)[i] == AddressText(found[i])
  {
    if |found| == 1 { assert found[0] in found && Texts(found) == [AddressText(found[0])]; }
  }

  /** The text of an address is its four bytes in decimal without leading zeros, with dots between them. */
  lemma AddressTextReads(a: seq<Byte>)
    requires |a| == 4
    ensures var parts := Split(AddressText(a), '.');
      |parts| == 4 && forall i | 0 <= i < 4 ::
        DecimalValue(parts[i]) == a[i] && 1 <= |parts[i]| <= 3 && (|parts[i]| > 1 ==> parts[i][0] != '0')
  {
    var parts := [Decimal(a[0]), Decimal(a[1]), Decimal(a[2]), Decimal(a[3])];
    forall i | 0 <= i < 4
      ensures '.' !in parts[i] && DecimalValue(parts[i]) == a[i] && 1 <= |parts[i]| <= 3
        && (|parts[i]| > 1 ==> parts[i][0] != '0')
    {
      DecimalShape(a[i]);
      NoLeadingZero(a[i]);
    }
    SplitJoin(parts, '.');
  }

  lemma {:induction false} NoLeadingZero(n: nat)
    ensures |Decimal(n)| > 0 && (n > 0 ==> Decimal(n)[0] != '0')
  {
    if n >= 10 { NoLeadingZero(n / 10); }
  }

  // ---------------------------------------------------------------------------------------
  // The question, byte by byte

  ghost predicate DomainLabel(word: string) {
    1 <= |word| <= 63 && forall i | 0 <= i < |word| :: (word[i] as int) < 128 && word[i] != '.'
  }

  ghost predicate Domain(labels: seq<string>) {
    labels != [] && forall i | 0 <= i < |labels| :: DomainLabel(labels[i])
  }

  function Dots(k: nat): string { seq(k, _ => '.') }

  /** Each label behind its length. */
  ghost function Wire(labels: seq<string>): seq<Byte>
    requires forall i | 0 <= i < |labels| :: DomainLabel(labels[i])
  {
    if labels == [] then [] else [|labels[0]|] + Codes(labels[0]) + Wire(labels[1..])
  }

  ghost function Codes(word: string): (b: seq<Byte>)
    requires DomainLabel(word)
  {
    seq(|word|, i requires 0 <= i < |word| => word[i] as int)
  }

  ghost function CodesOf(labels: seq<string>): (b: seq<seq<Byte>>)
    requires forall i | 0 <= i < |labels| :: DomainLabel(labels[i])
  {
    seq(|labels|, i requires 0 <= i < |labels| => Codes(labels[i]))
  }

  lemma {:induction false} StripsDots(s: string, k: nat)
    requires s == "" || s[|s| - 1] != '.'
    ensures StripDots(s + Dots(k)) == s
    decreases k
  {
    if k == 0 {
      assert s + Dots(0) == s;
    } else {
      assert (s + Dots(k))[..|s| + k - 1] == s + Dots(k - 1);
      StripsDots(s, k - 1);
    }
  }

  lemma {:induction false} StrippedDots(name: string) returns (k: nat)
    ensures name == StripDots(name) + Dots(k)
    decreases name
  {
    if name != "" && name[|name| - 1] == '.' {
      var shorter := name[..|name| - 1];
      k := StrippedDots(shorter);
      assert name == shorter + ['.'] && Dots(k) + ['.'] == Dots(k + 1);
      assert StripDots(shorter) + Dots(k) + ['.'] == StripDots(shorter) + (Dots(k) + ['.']);
      k := k + 1;
    } else {
      k := 0;
    }
  }

  /** Joining and then encoding is encoding and then joining. */
  lemma {:induction false} JoinCodes(labels: seq<string>)
    requires Domain(labels)
    ensures var text := Join(labels, '.');
      && IsAsciiText(text) && Encoded(text) == Join(CodesOf(labels), 46)
      && text != "" && text[|text| - 1] != '.'
    decreases labels
  {
    var first := labels[0];
    assert DomainLabel(first);
    if |labels| > 1 {
      var rest := labels[1..];
      JoinCodes(rest);
      assert CodesOf(labels)[1..] == CodesOf(rest);
      assert Join(labels, '.') == first + ['.'] + Join(rest, '.');
      assert Join(CodesOf(labels), 46) == Codes(first) + [46] + Join(CodesOf(rest), 46);
    }
  }

  lemma {:induction false} WireLabels(labels: seq<string>)
    requires forall i | 0 <= i < |labels| :: DomainLabel(labels[i])
    ensures ValidLabels(CodesOf(labels)) && EncodeLabels(CodesOf(labels)) == Wire(labels)
    decreases labels
  {
    if labels != [] {
      WireLabels(labels[1..]);
      assert CodesOf(labels)[1..] == CodesOf(labels[1..]);
    }
  }

  lemma SplitCodes(labels: seq<string>)
    requires Domain(labels)
    ensures IsAsciiText(Join(labels, '.')) && Split(Encoded(Join(labels, '.')), 46) == CodesOf(labels)
  {
    JoinCodes(labels);
    forall i | 0 <= i < |labels| ensures 46 !in CodesOf(labels)[i] { assert DomainLabel(labels[i]); }
    SplitJoin(CodesOf(labels), 46);
  }

  /** The query for a domain written with any number of trailing dots: the id, the flag that asks for
      recursion, one question, the labels, type A, class IN. */
  lemma QuestionWritten(labels: seq<string>, k: nat, ident: int)
    requires Domain(labels) && 0 <= ident < 65536
    ensures Question(Join(labels, '.') + Dots(k), ident) ==
      Some([ident / 256, ident % 256, 1, 0, 0, 1, 0, 0, 0, 0, 0, 0] + (Wire(labels) + [0, 0, 1, 0, 1]))
  {
    JoinCodes(labels);
    StripsDots(Join(labels, '.'), k);
    SplitCodes(labels);
    WireLabels(labels);
    assert QuestionHeader(ident) == [ident / 256, ident % 256, 1, 0, 0, 1, 0, 0, 0, 0, 0, 0];
  }

  ghost predicate SameLengths(a: seq<string>, b: seq<seq<Byte>>) {
    |a| == |b| && forall i | 0 <= i < |a| :: |a[i]| == |b[i]|
  }

  lemma {:induction false} SplitEncoded(text: string)
    requires IsAsciiText(text)
    ensures SameLengths(Split(text, '.'), Split(Encoded(text), 46))
    decreases text
  {
    if text != "" {
      assert text[0] in text && forall c | c in text[1..] :: c in text;
      SplitEncoded(text[1..]);
      assert Encoded(text)[1..] == Encoded(text[1..]);
      SameLengthsStep(text[0], Split(text[1..], '.'), Split(Encoded(text[1..]), 46));
    }
  }

  lemma SameLengthsStep(c: char, a: seq<string>, b: seq<seq<Byte>>)
    requires (c as int) < 128 && a != [] && SameLengths(a, b)
    ensures SameLengths([[]] + a, [[]] + b)
    ensures SameLengths([[c] + a[0]] + a[1..], [[c as int] + b[0]] + b[1..])
  {
  }

  lemma {:induction false} SplitWithin(text: string, i: nat, c: char)
    requires i < |Split(text, '.')| && c in Split(text, '.')[i]
    ensures c in text
    decreases text
  {
    if text != "" {
      var rest := Split(text[1..], '.');
      if text[0] == '.' {
        SplitWithin(text[1..], i - 1, c);
      } else if i > 0 || c in rest[0] {
        SplitWithin(text[1..], i, c);
      }
    }
  }

  lemma SplitIsDomain(text: string)
    requires IsAsciiText(text) && ValidLabels(Split(Encoded(text), 46))
    ensures Domain(Split(text, '.'))
  {
    var words := Split(text, '.');
    JoinSplit(text, '.');
    SplitEncoded(text);
    forall i | 0 <= i < |words| ensures DomainLabel(words[i]) {
      forall j | 0 <= j < |words[i]| ensures (words[i][j] as int) < 128 { SplitWithin(text, i, words[i][j]); }
      assert '.' !in words[i];
    }
  }

  /** For every name and id: there is a query exactly when the id fits and the name is a domain,
      written with any number of trailing dots. */
  lemma QuestionIff(name: string, ident: int)
    ensures Question(name, ident).Some? <==>
      0 <= ident < 65536 && exists labels, k: nat :: Domain(labels) && name == Join(labels, '.') + Dots(k)
  {
    if Question(name, ident).Some? {
      var text := StripDots(name);
      var k := StrippedDots(name);
      SplitIsDomain(text);
      JoinSplit(text, '.');
      assert Domain(Split(text, '.')) && name == Join(Split(text, '.'), '.') + Dots(k);
    }
    if 0 <= ident < 65536 {
      forall labels, k: nat | Domain(labels) && name == Join(labels, '.') + Dots(k)
        ensures Question(name, ident).Some?
      {
        QuestionWritten(labels, k, ident);
      }
    }
  }
}
