/** Questions and answers on the wire (sections 4.1.1 to 4.1.3 of RFC 1035). */
module DnsMessage {
  import opened Json
  import opened Text
  import opened DnsName

  const HEADER := 12

  function U16Bytes(n: int): seq<Byte>
    requires 0 <= n < 65536
  {
    [n / 256, n % 256]
  }

  function U16(data: seq<Byte>, at: nat): (n: int)
    requires at + 2 <= |data|
    ensures 0 <= n < 65536
  {
    (data[at] as int) * 256 + data[at + 1]
  }

  // ---------------------------------------------------------------------------------------
  // The question

  predicate IsAsciiText(s: string) {
    forall c | c in s :: (c as int) < 128
  }

  function StripDots(s: string): string {
    if s != "" && s[|s| - 1] == '.' then StripDots(s[..|s| - 1]) else s
  }

  lemma {:induction false} StripDotsIsPrefix(s: string)
    ensures StripDots(s) <= s
  {
    if s != "" && s[|s| - 1] == '.' { StripDotsIsPrefix(s[..|s| - 1]); }
  }

  function ByteOf(c: char): Byte
    requires (c as int) < 128
  {
    c as int
  }

  function Encoded(s: string): (b: seq<Byte>)
    requires IsAsciiText(s)
    ensures |b| == |s| && forall i | 0 <= i < |s| :: b[i] == s[i] as int
  {
    seq(|s|, i requires 0 <= i < |s| => assert s[i] in s; ByteOf(s[i]))
  }

  /** The name as the encoder sees it: ASCII, without trailing dots. */
  function NameBytes(name: string): Option<seq<Byte>> {
    var text := StripDots(name);
    if IsAsciiText(text) then Some(Encoded(text)) else None
  }

  lemma NameBytesAscii(name: string)
    requires NameBytes(name).Some?
    ensures IsAscii(NameBytes(name).value)
  {
    var text := StripDots(name);
    forall b | b in Encoded(text) ensures b < 128 {
      var i :| 0 <= i < |text| && Encoded(text)[i] == b;
      assert text[i] in text;
    }
  }

  function QuestionHeader(ident: int): seq<Byte>
    requires 0 <= ident < 65536
  {
    U16Bytes(ident) + [1, 0, 0, 1, 0, 0, 0, 0, 0, 0]
  }

  /** `question`: None when the name is not ASCII, has an empty or long label, or the id does not fit. */
  function Question(name: string, ident: int): Option<seq<Byte>> {
    match NameBytes(name)
    case None => None
    case Some(text) =>
      var labels := Split(text, 46);
      if ValidLabels(labels) && 0 <= ident < 65536
      then Some(QuestionHeader(ident) + (EncodeLabels(labels) + [0, 0, 1, 0, 1]))
      else None
  }

  lemma HoldsInConcat(p: seq<Byte>, m: seq<Byte>, s: seq<Byte>)
    ensures Holds(p + (m + s), |p|, m) && Holds(p + (m + s), |p| + |m|, s)
  {
    var data := p + (m + s);
    assert data[|p|..|p| + |m|] == m && data[|p| + |m|..|p| + |m| + |s|] == s;
  }

  /** A name of plain labels closed by a root label. */
  lemma PlainName(data: seq<Byte>, at: nat, labels: seq<seq<Byte>>)
    requires ValidLabels(labels) && Holds(data, at, EncodeLabels(labels))
    requires at + |EncodeLabels(labels)| < |data| && data[at + |EncodeLabels(labels)|] == 0
    ensures Decodes(data, at, Name(labels, at + |EncodeLabels(labels)| + 1))
  {
    var k := at + |EncodeLabels(labels)|;
    assert Follow(data, k, 1) == Some(Name([], k + 1));
    LabelsRead(data, at, labels, Name([], k + 1));
    assert labels + [] == labels;
  }

  lemma DecodesGivesDecoded(data: seq<Byte>, at: nat, name: Name)
    requires Decodes(data, at, name) && IsAscii(Join(name.labels, 46))
    ensures Decoded(data, at) == Some((Dotted(name.labels), name.end))
  {
    FuelOfData(data, at, name);
  }

  /** Decoding inverts `question` up to ASCII case and trailing dots, whatever follows the name. */
  lemma QuestionRoundTrip(name: string, ident: int)
    requires Question(name, ident).Some?
    ensures var q := Question(name, ident).value;
      && |q| > HEADER + 4 && U16(q, 0) == ident
      && Decoded(q, HEADER) == Some((LowerAll(NameBytes(name).value), |q| - 4))
  {
    var q := Question(name, ident).value;
    var text := NameBytes(name).value;
    var labels := Split(text, 46);
    JoinSplit(text, 46);
    NameBytesAscii(name);
    HoldsInConcat(QuestionHeader(ident), EncodeLabels(labels), [0, 0, 1, 0, 1]);
    var k := HEADER + |EncodeLabels(labels)|;
    assert q[k..k + 5] == [0, 0, 1, 0, 1] && q[k] == q[k..k + 5][0];
    assert q[0] == ident / 256 && q[1] == ident % 256;
    PlainName(q, HEADER, labels);
    DecodesGivesDecoded(q, HEADER, Name(labels, k + 1));
  }

  // ---------------------------------------------------------------------------------------
  // The answer section

  datatype Record = Record(owner: seq<Byte>, kind: int, cls: int, start: nat, bytes: seq<Byte>, end: nat)

  /** The record at an offset; `end` is the offset behind its data. */
  ghost function RecordAt(data: seq<Byte>, offset: nat): Option<Record> {
    match Decoded(data, offset)
    case None => None
    case Some(name) =>
      var at := name.1;
      if at + 10 > |data| then None
      else
        var end := at + 10 + U16(data, at + 8);
        if end > |data| then None
        else Some(Record(name.0, U16(data, at), U16(data, at + 2), offset, data[at + 10..end], end))
  }

  /** A number of records one after the other, however a single one is read. */
  ghost function Walked(read: nat -> Option<Record>, offset: nat, n: nat): Option<seq<Record>>
    decreases n
  {
    if n == 0 then Some([])
    else
      var first := read(offset);
      if first.None? then None
      else
        var rest := Walked(read, first.value.end, n - 1);
        if rest.None? then None else Some([first.value] + rest.value)
  }

  ghost function Reader(data: seq<Byte>): nat -> Option<Record> {
    (offset: nat) => RecordAt(data, offset)
  }

  ghost function Records(data: seq<Byte>, offset: nat, n: nat): Option<seq<Record>> {
    Walked(Reader(data), offset, n)
  }

  predicate IsAddress(r: Record, name: seq<Byte>) {
    r.owner == name && r.kind == 1 && r.cls == 1 && |r.bytes| == 4
  }

  /** The A addresses owned by the name that was asked for, in order. */
  function Addresses(records: seq<Record>, name: seq<Byte>): seq<seq<Byte>> {
    if records == [] then []
    else
      var (before, last) := (records[..|records| - 1], records[|records| - 1]);
      if IsAddress(last, name) then Addresses(before, name) + [last.bytes] else Addresses(before, name)
  }

  /** A record of at least eleven bytes inside the message, with its data at its end. */
  ghost predicate Inside(data: seq<Byte>, r: Record) {
    r.start + 11 + |r.bytes| <= r.end <= |data| && r.bytes == data[r.end - |r.bytes|..r.end]
  }

  /** Contiguous records from an offset on. */
  ghost predicate Spans(records: seq<Record>, offset: nat) {
    && (records != [] ==> records[0].start == offset)
    && (forall i | 0 < i < |records| :: records[i].start == records[i - 1].end)
  }

  lemma RecordInside(data: seq<Byte>, offset: nat)
    requires RecordAt(data, offset).Some?
    ensures Inside(data, RecordAt(data, offset).value) && RecordAt(data, offset).value.start == offset
  {
    EndInside(data, offset, |data|);
  }

  lemma {:induction false} WalkedSpans(read: nat -> Option<Record>, inside: Record -> bool, offset: nat, n: nat)
    requires Walked(read, offset, n).Some?
    requires forall o: nat | read(o).Some? :: inside(read(o).value) && read(o).value.start == o
    ensures |Walked(read, offset, n).value| == n && Spans(Walked(read, offset, n).value, offset)
    ensures forall r | r in Walked(read, offset, n).value :: inside(r)
    decreases n
  {
    if n > 0 {
      var first := read(offset).value;
      WalkedSpans(read, inside, first.end, n - 1);
      var rest := Walked(read, first.end, n - 1).value;
      SpansCons(first, rest);
    }
  }

  lemma SpansCons(first: Record, rest: seq<Record>)
    requires Spans(rest, first.end)
    ensures Spans([first] + rest, first.start)
  {
    var all := [first] + rest;
    forall i | 0 < i < |all| ensures all[i].start == all[i - 1].end {
      if i > 1 { assert rest[i - 1].start == rest[i - 2].end; }
    }
  }

  /** Contiguous records of at least eleven bytes take their room. */
  lemma {:induction false} SpansRoom(data: seq<Byte>, records: seq<Record>, offset: nat)
    requires records != [] && Spans(records, offset) && forall r | r in records :: Inside(data, r)
    ensures offset + 11 * |records| <= |data|
    decreases |records|
  {
    var first := records[0];
    assert first in records;
    if |records| > 1 {
      assert records[1..][0].start == first.end;
      assert forall i | 0 < i < |records[1..]| :: records[1..][i].start == records[1..][i - 1].end;
      SpansRoom(data, records[1..], first.end);
    }
  }

  /** Records are contiguous, disjoint spans of at least eleven bytes inside the message. */
  lemma RecordsSpan(data: seq<Byte>, offset: nat, n: nat)
    requires Records(data, offset, n).Some?
    ensures var records := Records(data, offset, n).value;
      && |records| == n && Spans(records, offset) && (forall r | r in records :: Inside(data, r))
      && (n > 0 ==> offset + 11 * n <= |data|)
  {
    forall o: nat | Reader(data)(o).Some?
      ensures Inside(data, Reader(data)(o).value) && Reader(data)(o).value.start == o
    {
      RecordInside(data, o);
    }
    WalkedSpans(Reader(data), (r: Record) => Inside(data, r), offset, n);
    if n > 0 { SpansRoom(data, Records(data, offset, n).value, offset); }
  }

  // ---------------------------------------------------------------------------------------
  // Accepting an answer

  /** Public: at least one address and all of them public. Exactly: one address with this text. */
  datatype Expected = Public | Exactly(text: string)

  function Decimal(n: nat): string
    decreases n
  {
    if n < 10 then [('0' as int + n) as char] else Decimal(n / 10) + [('0' as int + n % 10) as char]
  }

  /** The dotted text of an IPv4 address. */
  function AddressText(a: seq<Byte>): string
    requires |a| == 4
  {
    Join([Decimal(a[0]), Decimal(a[1]), Decimal(a[2]), Decimal(a[3])], '.')
  }

  function Texts(addresses: seq<seq<Byte>>): seq<string>
    requires forall a | a in addresses :: |a| == 4
  {
    seq(|addresses|, i requires 0 <= i < |addresses| => assert addresses[i] in addresses; AddressText(addresses[i]))
  }

  predicate Satisfied(expected: Expected, addresses: seq<seq<Byte>>, isGlobal: seq<Byte> -> bool)
    requires forall a | a in addresses :: |a| == 4
  {
    match expected
    case Public => addresses != [] && forall a | a in addresses :: isGlobal(a)
    case Exactly(text) => Texts(addresses) == [text]
  }

  /** Response bit set, not truncated, no error code, one question: the flags word of a usable answer. */
  predicate UsableFlags(flags: int) {
    0x8000 <= flags < 0x10000 && (flags / 0x200) % 2 == 0 && flags % 16 == 0
  }

  /** The response header and question that answer this query; the offset of the first record. */
  ghost function QuestionEchoed(data: seq<Byte>, query: seq<Byte>): Option<(seq<Byte>, nat)> {
    if |data| < HEADER || |query| < 2 || U16(data, 0) != U16(query, 0)
       || !UsableFlags(U16(data, 2)) || U16(data, 4) != 1
    then None
    else
      match (Decoded(data, HEADER), Decoded(query, HEADER))
      case (Some(name), Some(asked)) =>
        if name.0 == asked.0 && Holds(data, name.1, [0, 1, 0, 1]) then Some((name.0, name.1 + 4)) else None
      case _ => None
  }

  lemma {:induction false} AddressesAreFour(records: seq<Record>, name: seq<Byte>)
    ensures forall a | a in Addresses(records, name) :: |a| == 4
  {
    if records != [] { AddressesAreFour(records[..|records| - 1], name); }
  }

  /** The addresses found, whether or not they are the expected ones. */
  ghost function Found(data: seq<Byte>, query: seq<Byte>): (r: Option<seq<seq<Byte>>>)
    ensures r.Some? ==> forall a | a in r.value :: |a| == 4
  {
    match QuestionEchoed(data, query)
    case None => None
    case Some(q) =>
      match Records(data, q.1, U16(data, 6))
      case None => None
      case Some(records) =>
        AddressesAreFour(records, q.0);
        Some(Addresses(records, q.0))
  }

  method ReadHead(data: seq<Byte>, query: seq<Byte>) returns (r: Option<(seq<Byte>, nat)>)
    ensures r == QuestionEchoed(data, query)
  {
    if |data| < HEADER || |query| < 2 { return None; }
    if U16(data, 0) != U16(query, 0) || !UsableFlags(U16(data, 2)) || U16(data, 4) != 1 { return None; }
    var name := ReadName(data, HEADER);
    if name.None? { return None; }
    var asked := ReadName(query, HEADER);
    if asked.None? || name.value.0 != asked.value.0 || !Holds(data, name.value.1, [0, 1, 0, 1]) { return None; }
    return Some((name.value.0, name.value.1 + 4));
  }

  method ReadRecord(data: seq<Byte>, offset: nat) returns (r: Option<Record>)
    ensures r == RecordAt(data, offset)
  {
    var name := ReadName(data, offset);
    if name.None? || name.value.1 + 10 > |data| { return None; }
    var at := name.value.1;
    var end := at + 10 + U16(data, at + 8);
    if end > |data| { return None; }
    return Some(Record(name.value.0, U16(data, at), U16(data, at + 2), offset, data[at + 10..end], end));
  }

  lemma AddressesAppend(records: seq<Record>, last: Record, name: seq<Byte>)
    ensures Addresses(records + [last], name) ==
      if IsAddress(last, name) then Addresses(records, name) + [last.bytes] else Addresses(records, name)
  {
    assert (records + [last])[..|records|] == records;
  }

  lemma {:induction false} AddressesFirst(first: Record, rest: seq<Record>, name: seq<Byte>)
    ensures Addresses([first] + rest, name) ==
      (if IsAddress(first, name) then [first.bytes] else []) + Addresses(rest, name)
    decreases rest
  {
    if rest == [] {
      AddressesAppend([], first, name);
      assert [] + [first] == [first] + [];
    } else {
      var (before, last) := (rest[..|rest| - 1], rest[|rest| - 1]);
      AddressesFirst(first, before, name);
      AddressesAppend([first] + before, last, name);
      assert [first] + rest == [first] + before + [last];
    }
  }

  /** `done` records have been read, and this many are to come from `offset`. */
  ghost predicate WalkedSoFar(
      read: nat -> Option<Record>, start: nat, an: nat, done: seq<Record>, offset: nat, left: nat)
  {
    var rest := Walked(read, offset, left);
    Walked(read, start, an) == if rest.None? then None else Some(done + rest.value)
  }

  lemma WalkedStart(read: nat -> Option<Record>, start: nat, an: nat)
    ensures WalkedSoFar(read, start, an, [], start, an)
  {
    var rest := Walked(read, start, an);
    if rest.Some? { assert [] + rest.value == rest.value; }
  }

  lemma WalkedStep(read: nat -> Option<Record>, start: nat, an: nat, done: seq<Record>, offset: nat, left: nat)
    requires WalkedSoFar(read, start, an, done, offset, left) && left > 0
    ensures read(offset).None? ==> Walked(read, start, an).None?
    ensures read(offset).Some? ==>
      WalkedSoFar(read, start, an, done + [read(offset).value], read(offset).value.end, left - 1)
  {
    if read(offset).Some? {
      var first := read(offset).value;
      var rest := Walked(read, first.end, left - 1);
      if rest.Some? { assert done + ([first] + rest.value) == done + [first] + rest.value; }
    }
  }

  lemma WalkedDone(read: nat -> Option<Record>, start: nat, an: nat, done: seq<Record>, offset: nat)
    requires WalkedSoFar(read, start, an, done, offset, 0)
    ensures Walked(read, start, an) == Some(done)
  {
    assert done + [] == done;
  }

  /** `read` reads the records of this message. */
  ghost predicate Agrees(data: seq<Byte>, read: nat -> Option<Record>) {
    forall o: nat {:trigger RecordAt(data, o)} :: RecordAt(data, o) == read(o)
  }

  /** One turn of the loop: the next record, and the addresses with it. */
  method ReadNext(
      data: seq<Byte>, ghost read: nat -> Option<Record>, offset: nat, ghost done: seq<Record>,
      name: seq<Byte>, addresses: seq<seq<Byte>>)
      returns (record: Option<Record>, more: seq<seq<Byte>>)
    requires Agrees(data, read) && addresses == Addresses(done, name)
    ensures record == read(offset)
    ensures record.Some? ==> more == Addresses(done + [record.value], name)
  {
    more := addresses;
    record := ReadRecord(data, offset);
    if record.None? { return; }
    AddressesAppend(done, record.value, name);
    if IsAddress(record.value, name) { more := more + [record.value.bytes]; }
  }

  /** The loop over the answer section, whatever a single record is read as. */
  method Gather(data: seq<Byte>, ghost read: nat -> Option<Record>, start: nat, an: nat, name: seq<Byte>)
      returns (r: Option<seq<seq<Byte>>>)
    requires Agrees(data, read)
    ensures var records := Walked(read, start, an);
      r == if records.None? then None else Some(Addresses(records.value, name))
  {
    var offset, addresses := start, [];
    ghost var done: seq<Record>, left: nat := [], an;
    WalkedStart(read, start, an);
    for i := 0 to an
      invariant left == an - i && WalkedSoFar(read, start, an, done, offset, left)
      invariant addresses == Addresses(done, name)
    {
      WalkedStep(read, start, an, done, offset, left);
      var record, more := ReadNext(data, read, offset, done, name, addresses);
      if record.None? { return None; }
      done, left, addresses, offset := done + [record.value], left - 1, more, record.value.end;
    }
    WalkedDone(read, start, an, done, offset);
    return Some(addresses);
  }

  method ReadAddresses(data: seq<Byte>, start: nat, an: nat, name: seq<Byte>) returns (r: Option<seq<seq<Byte>>>)
    ensures var records := Records(data, start, an);
      r == if records.None? then None else Some(Addresses(records.value, name))
  {
    r := Gather(data, Reader(data), start, an, name);
  }

  /** `answer`: the texts of the addresses found, if they are what was expected. */
  method Answer(data: seq<Byte>, query: seq<Byte>, expected: Expected, isGlobal: seq<Byte> -> bool)
    returns (r: Option<seq<string>>)
    ensures r.Some? <==> Found(data, query).Some? && Satisfied(expected, Found(data, query).value, isGlobal)
    ensures r.Some? ==> r.value == Texts(Found(data, query).value)
  {
    var head := ReadHead(data, query);
    if head.None? { return None; }
    var addresses := ReadAddresses(data, head.value.1, U16(data, 6), head.value.0);
    if addresses.None? { return None; }
    assert Found(data, query) == addresses;
    if !Satisfied(expected, addresses.value, isGlobal) { return None; }
    return Some(Texts(addresses.value));
  }

  /** The number of answers bounds the size of an accepted message from below. */
  lemma AnswerCountBound(data: seq<Byte>, query: seq<Byte>)
    requires Found(data, query).Some?
    ensures |data| >= HEADER + 5 + 11 * U16(data, 6)
  {
    var q := QuestionEchoed(data, query).value;
    EndInside(data, HEADER, |data|);
    RecordsSpan(data, q.1, U16(data, 6));
  }

  // ---------------------------------------------------------------------------------------
  // A response built from a question and A records that point back at its name

  /** Owner: a pointer to offset 12; type A, class IN, a time to live, four bytes of data. */
  function AddressRecord(ttl: seq<Byte>, address: seq<Byte>): seq<Byte>
    requires |ttl| == 4 && |address| == 4
  {
    [0xc0, 0x0c, 0, 1, 0, 1] + ttl + [0, 4] + address
  }

  function AddressRecords(ttl: seq<Byte>, addresses: seq<seq<Byte>>): seq<Byte>
    requires |ttl| == 4 && forall a | a in addresses :: |a| == 4
  {
    if addresses == [] then []
    else assert addresses[0] in addresses; AddressRecord(ttl, addresses[0]) + AddressRecords(ttl, addresses[1..])
  }

  function Response(question: seq<Byte>, flags: int, ttl: seq<Byte>, addresses: seq<seq<Byte>>): seq<Byte>
    requires |question| >= HEADER && 0 <= flags < 65536 && |addresses| < 65536
    requires |ttl| == 4 && forall a | a in addresses :: |a| == 4
  {
    question[..2] + U16Bytes(flags) + [0, 1] + U16Bytes(|addresses|) + [0, 0, 0, 0]
    + (question[HEADER..] + AddressRecords(ttl, addresses))
  }

  lemma RecordBytes(data: seq<Byte>, at: nat, ttl: seq<Byte>, address: seq<Byte>)
    requires |ttl| == 4 && |address| == 4 && Holds(data, at, AddressRecord(ttl, address))
    ensures MoveAt(data, at) == Pointer(HEADER)
    ensures U16(data, at + 2) == 1 && U16(data, at + 4) == 1 && U16(data, at + 10) == 4
    ensures data[at + 12..at + 16] == address
  {
    var part := AddressRecord(ttl, address);
    assert |part| == 16 && part[12..16] == address;
    assert data[at + 12..at + 16] == data[at..at + 16][12..16];
    assert part[0] == 0xc0 && part[1] == 0x0c && part[2] == 0 && part[3] == 1 && part[4] == 0 && part[5] == 1;
    assert part[10] == 0 && part[11] == 4;
    ByteHeld(data, at, part, 0);
    ByteHeld(data, at, part, 1);
    ByteHeld(data, at, part, 2);
    ByteHeld(data, at, part, 3);
    ByteHeld(data, at, part, 4);
    ByteHeld(data, at, part, 5);
    ByteHeld(data, at, part, 10);
    ByteHeld(data, at, part, 11);
  }

  lemma ByteHeld(data: seq<Byte>, at: nat, part: seq<Byte>, i: nat)
    requires Holds(data, at, part) && i < |part|
    ensures data[at + i] == part[i]
  {
    assert data[at + i] == data[at..at + |part|][i];
  }

  lemma PointedRecord(data: seq<Byte>, at: nat, ttl: seq<Byte>, address: seq<Byte>, labels: seq<seq<Byte>>, end: nat)
    requires |ttl| == 4 && |address| == 4 && Holds(data, at, AddressRecord(ttl, address))
    requires Decodes(data, HEADER, Name(labels, end)) && IsAscii(Join(labels, 46))
    ensures RecordAt(data, at) == Some(Record(Dotted(labels), 1, 1, at, address, at + 16))
  {
    RecordBytes(data, at, ttl, address);
    PointerFollowed(data, at, HEADER, Name(labels, end));
    DecodesGivesDecoded(data, at, Name(labels, at + 2));
  }

  /** From this offset, this many records hold exactly these addresses of the name. */
  ghost predicate Collects(
      read: nat -> Option<Record>, at: nat, n: nat, name: seq<Byte>, addresses: seq<seq<Byte>>)
  {
    var records := Walked(read, at, n);
    records.Some? && Addresses(records.value, name) == addresses
  }

  lemma CollectsOneMore(
      read: nat -> Option<Record>, at: nat, n: nat, first: Record, name: seq<Byte>, rest: seq<seq<Byte>>)
    requires read(at) == Some(first) && IsAddress(first, name) && Collects(read, first.end, n, name, rest)
    ensures Collects(read, at, n + 1, name, [first.bytes] + rest)
  {
    var records := Walked(read, first.end, n).value;
    assert Walked(read, at, n + 1) == Some([first] + records);
    AddressesFirst(first, records, name);
  }

  lemma CollectsNone(read: nat -> Option<Record>, at: nat, name: seq<Byte>)
    ensures Collects(read, at, 0, name, [])
  {
  }

  lemma AddressRecordsCons(ttl: seq<Byte>, addresses: seq<seq<Byte>>)
    requires |ttl| == 4 && addresses != [] && forall a | a in addresses :: |a| == 4
    ensures |addresses[0]| == 4 && forall a | a in addresses[1..] :: |a| == 4
    ensures AddressRecords(ttl, addresses) == AddressRecord(ttl, addresses[0]) + AddressRecords(ttl, addresses[1..])
  {
    assert addresses[0] in addresses;
  }

  /** The records of these addresses stand in the message from offset `at`. */
  ghost predicate PointsAt(data: seq<Byte>, at: nat, ttl: seq<Byte>, addresses: seq<seq<Byte>>) {
    && |ttl| == 4 && (forall a | a in addresses :: |a| == 4)
    && Holds(data, at, AddressRecords(ttl, addresses))
  }

  /** The first record is read, and the rest stands behind it. */
  lemma FirstRead(
      data: seq<Byte>, read: nat -> Option<Record>, at: nat, ttl: seq<Byte>, addresses: seq<seq<Byte>>,
      labels: seq<seq<Byte>>, end: nat)
    requires Agrees(data, read) && addresses != [] && PointsAt(data, at, ttl, addresses)
    requires Decodes(data, HEADER, Name(labels, end)) && IsAscii(Join(labels, 46))
    ensures PointsAt(data, at + 16, ttl, addresses[1..]) && |addresses[0]| == 4
    ensures read(at) == Some(Record(Dotted(labels), 1, 1, at, addresses[0], at + 16))
  {
    AddressRecordsCons(ttl, addresses);
    HoldsSplit(data, at, AddressRecord(ttl, addresses[0]), AddressRecords(ttl, addresses[1..]));
    PointedRecord(data, at, ttl, addresses[0], labels, end);
  }

  lemma CollectsMore(read: nat -> Option<Record>, at: nat, first: Record, name: seq<Byte>, addresses: seq<seq<Byte>>)
    requires read(at) == Some(first) && IsAddress(first, name) && addresses != [] && first.bytes == addresses[0]
    requires Collects(read, first.end, |addresses[1..]|, name, addresses[1..])
    ensures Collects(read, at, |addresses|, name, addresses)
  {
    CollectsOneMore(read, at, |addresses[1..]|, first, name, addresses[1..]);
    assert [addresses[0]] + addresses[1..] == addresses;
  }

  /** Walking a list whose elements take sixteen bytes each. */
  lemma {:induction false} Walk<T(!new)>(
      holds: (nat, seq<T>) -> bool, good: (nat, seq<T>) -> bool, at: nat, xs: seq<T>)
    requires forall o: nat :: good(o, [])
    requires forall o: nat, s | s != [] && holds(o, s) ::
      holds(o + 16, s[1..]) && (good(o + 16, s[1..]) ==> good(o, s))
    requires holds(at, xs)
    ensures good(at, xs)
    decreases |xs|
  {
    if xs != [] { Walk(holds, good, at + 16, xs[1..]); }
  }

  /** All records of the built response are walked and their addresses collected in order. */
  lemma PointedRecords(
      data: seq<Byte>, read: nat -> Option<Record>, at: nat, ttl: seq<Byte>, addresses: seq<seq<Byte>>,
      labels: seq<seq<Byte>>, end: nat)
    requires Agrees(data, read) && PointsAt(data, at, ttl, addresses)
    requires Decodes(data, HEADER, Name(labels, end)) && IsAscii(Join(labels, 46))
    ensures Collects(read, at, |addresses|, Dotted(labels), addresses)
  {
    var name := Dotted(labels);
    var holds := (o: nat, s: seq<seq<Byte>>) => PointsAt(data, o, ttl, s);
    var good := (o: nat, s: seq<seq<Byte>>) => Collects(read, o, |s|, name, s);
    forall o: nat ensures good(o, []) { CollectsNone(read, o, name); }
    forall o: nat, s | s != [] && holds(o, s)
      ensures holds(o + 16, s[1..]) && (good(o + 16, s[1..]) ==> good(o, s))
    {
      FirstRead(data, read, o, ttl, s, labels, end);
      if good(o + 16, s[1..]) { CollectsMore(read, o, Record(name, 1, 1, o, s[0], o + 16), name, s); }
    }
    Walk(holds, good, at, addresses);
  }

  lemma ResponseHead(question: seq<Byte>, flags: int, ttl: seq<Byte>, addresses: seq<seq<Byte>>)
    requires |question| >= HEADER && 0 <= flags < 65536 && |addresses| < 65536
    requires |ttl| == 4 && forall a | a in addresses :: |a| == 4
    ensures var data := Response(question, flags, ttl, addresses);
      && |data| >= |question| && U16(data, 0) == U16(question, 0) && U16(data, 2) == flags
      && U16(data, 4) == 1 && U16(data, 6) == |addresses|
  {
    var data := Response(question, flags, ttl, addresses);
    var n := |addresses|;
    assert data[0] == question[0] && data[1] == question[1] && data[2] == flags / 256 && data[3] == flags % 256
      && data[4] == 0 && data[5] == 1 && data[6] == n / 256 && data[7] == n % 256;
  }

  lemma ResponseBody(question: seq<Byte>, flags: int, ttl: seq<Byte>, addresses: seq<seq<Byte>>)
    requires |question| >= HEADER && 0 <= flags < 65536 && |addresses| < 65536
    requires |ttl| == 4 && forall a | a in addresses :: |a| == 4
    ensures var data := Response(question, flags, ttl, addresses);
      Holds(data, HEADER, question[HEADER..]) && Holds(data, |question|, AddressRecords(ttl, addresses))
  {
    var head := question[..2] + U16Bytes(flags) + [0, 1] + U16Bytes(|addresses|) + [0, 0, 0, 0];
    HoldsInConcat(head, question[HEADER..], AddressRecords(ttl, addresses));
  }

  /** Any message that carries these labels at offset 12 and then asks for an A record. */
  ghost predicate Asks(data: seq<Byte>, labels: seq<seq<Byte>>)
    requires ValidLabels(labels)
  {
    Holds(data, HEADER, EncodeLabels(labels) + [0, 0, 1, 0, 1])
  }

  /** The bytes of the question, one after the other. */
  lemma AskedBytes(data: seq<Byte>, labels: seq<seq<Byte>>)
    requires ValidLabels(labels) && Asks(data, labels)
    ensures var k := HEADER + |EncodeLabels(labels)|;
      && Holds(data, HEADER, EncodeLabels(labels)) && k < |data| && data[k] == 0 && Holds(data, k + 1, [0, 1, 0, 1])
  {
    var tail: seq<Byte> := [0, 0, 1, 0, 1];
    HoldsSplit(data, HEADER, EncodeLabels(labels), tail);
    TailBytes(data, HEADER + |EncodeLabels(labels)|);
  }

  lemma TailBytes(data: seq<Byte>, k: nat)
    requires Holds(data, k, [0, 0, 1, 0, 1])
    ensures k < |data| && data[k] == 0 && Holds(data, k + 1, [0, 1, 0, 1])
  {
    var head: seq<Byte>, rest: seq<Byte> := [0], [0, 1, 0, 1];
    assert head + rest == [0, 0, 1, 0, 1];
    HoldsSplit(data, k, head, rest);
    assert data[k] == data[k..k + 1][0];
  }

  lemma AskedName(data: seq<Byte>, labels: seq<seq<Byte>>)
    requires ValidLabels(labels) && Asks(data, labels) && IsAscii(Join(labels, 46))
    ensures var k := HEADER + |EncodeLabels(labels)|;
      && Decodes(data, HEADER, Name(labels, k + 1)) && Decoded(data, HEADER) == Some((Dotted(labels), k + 1))
      && Holds(data, k + 1, [0, 1, 0, 1])
  {
    AskedBytes(data, labels);
    PlainName(data, HEADER, labels);
    DecodesGivesDecoded(data, HEADER, Name(labels, HEADER + |EncodeLabels(labels)| + 1));
  }

  lemma QuestionAsks(name: string, ident: int)
    requires Question(name, ident).Some?
    ensures var q := Question(name, ident).value;
      var labels := Split(NameBytes(name).value, 46);
      && ValidLabels(labels) && IsAscii(Join(labels, 46)) && Asks(q, labels)
      && |q| == HEADER + |EncodeLabels(labels)| + 5
      && q[HEADER..] == EncodeLabels(labels) + [0, 0, 1, 0, 1]
  {
    var labels := Split(NameBytes(name).value, 46);
    JoinSplit(NameBytes(name).value, 46);
    NameBytesAscii(name);
    HoldsInConcat(QuestionHeader(ident), EncodeLabels(labels) + [0, 0, 1, 0, 1], []);
    assert EncodeLabels(labels) + [0, 0, 1, 0, 1] + [] == EncodeLabels(labels) + [0, 0, 1, 0, 1];
  }

  /** The question is echoed, and the records from `at` hold exactly these addresses. */
  ghost predicate Answers(data: seq<Byte>, query: seq<Byte>, name: seq<Byte>, at: nat, addresses: seq<seq<Byte>>) {
    && |data| >= HEADER && QuestionEchoed(data, query) == Some((name, at))
    && Collects(Reader(data), at, U16(data, 6), name, addresses)
  }

  lemma Collected(data: seq<Byte>, query: seq<Byte>, labels: seq<seq<Byte>>, ttl: seq<Byte>, addresses: seq<seq<Byte>>)
    requires ValidLabels(labels) && IsAscii(Join(labels, 46)) && Asks(data, labels) && Asks(query, labels)
    requires U16(data, 0) == U16(query, 0) && UsableFlags(U16(data, 2))
    requires U16(data, 4) == 1 && U16(data, 6) == |addresses|
    requires PointsAt(data, HEADER + |EncodeLabels(labels)| + 5, ttl, addresses)
    ensures Answers(data, query, Dotted(labels), HEADER + |EncodeLabels(labels)| + 5, addresses)
  {
    Echoed(data, query, labels);
    ReaderAgrees(data);
    AskedRecords(data, Reader(data), labels, ttl, addresses);
  }

  lemma ReaderAgrees(data: seq<Byte>)
    ensures Agrees(data, Reader(data))
  {
  }

  lemma AskedRecords(
      data: seq<Byte>, read: nat -> Option<Record>, labels: seq<seq<Byte>>, ttl: seq<Byte>, addresses: seq<seq<Byte>>)
    requires Agrees(data, read) && ValidLabels(labels) && IsAscii(Join(labels, 46)) && Asks(data, labels)
    requires PointsAt(data, HEADER + |EncodeLabels(labels)| + 5, ttl, addresses)
    ensures Collects(read, HEADER + |EncodeLabels(labels)| + 5, |addresses|, Dotted(labels), addresses)
  {
    var k := HEADER + |EncodeLabels(labels)|;
    AskedName(data, labels);
    PointedRecords(data, read, k + 5, ttl, addresses, labels, k + 1);
  }

  /** Both messages ask for the same name, so the question is echoed. */
  lemma Echoed(data: seq<Byte>, query: seq<Byte>, labels: seq<seq<Byte>>)
    requires ValidLabels(labels) && IsAscii(Join(labels, 46)) && Asks(data, labels) && Asks(query, labels)
    requires U16(data, 0) == U16(query, 0) && UsableFlags(U16(data, 2)) && U16(data, 4) == 1
    ensures QuestionEchoed(data, query) == Some((Dotted(labels), HEADER + |EncodeLabels(labels)| + 5))
  {
    AskedName(data, labels);
    AskedName(query, labels);
  }

  lemma FoundAre(data: seq<Byte>, query: seq<Byte>, name: seq<Byte>, at: nat, addresses: seq<seq<Byte>>)
    requires Answers(data, query, name, at, addresses)
    ensures Found(data, query) == Some(addresses)
  {
  }

  lemma AnswerCollected(
      q: seq<Byte>, labels: seq<seq<Byte>>, flags: int, ttl: seq<Byte>, addresses: seq<seq<Byte>>)
    requires ValidLabels(labels) && IsAscii(Join(labels, 46)) && Asks(q, labels)
    requires |q| == HEADER + |EncodeLabels(labels)| + 5 && q[HEADER..] == EncodeLabels(labels) + [0, 0, 1, 0, 1]
    requires UsableFlags(flags) && |addresses| < 65536 && |ttl| == 4 && forall a | a in addresses :: |a| == 4
    ensures Answers(Response(q, flags, ttl, addresses), q, Dotted(labels), |q|, addresses)
  {
    ResponseHead(q, flags, ttl, addresses);
    ResponseBody(q, flags, ttl, addresses);
    Collected(Response(q, flags, ttl, addresses), q, labels, ttl, addresses);
  }

  /** For every question and every list of addresses, the response built from them yields exactly
      those addresses, in order. */
  lemma ResponseCollected(name: string, ident: int, flags: int, ttl: seq<Byte>, addresses: seq<seq<Byte>>)
    requires Question(name, ident).Some? && UsableFlags(flags) && |addresses| < 65536
    requires |ttl| == 4 && forall a | a in addresses :: |a| == 4
    ensures var q := Question(name, ident).value; Found(Response(q, flags, ttl, addresses), q) == Some(addresses)
  {
    QuestionAsks(name, ident);
    var (q, labels) := (Question(name, ident).value, Split(NameBytes(name).value, 46));
    AnswerCollected(q, labels, flags, ttl, addresses);
    FoundAre(Response(q, flags, ttl, addresses), q, Dotted(labels), |q|, addresses);
  }

  // ---------------------------------------------------------------------------------------
  // The text of an address identifies it

  lemma DecimalShape(n: nat)
    requires n < 256
    ensures 1 <= |Decimal(n)| <= 3 && '.' !in Decimal(n)
    ensures DecimalValue(Decimal(n)) == n
  {
    if n >= 10 {
      assert Decimal(n) == Decimal(n / 10) + [('0' as int + n % 10) as char];
      var t := n / 10;
      if t >= 10 { assert Decimal(t) == Decimal(t / 10) + [('0' as int + t % 10) as char]; }
    }
  }

  function DecimalValue(s: string): int {
    if s == "" then 0 else DecimalValue(s[..|s| - 1]) * 10 + (s[|s| - 1] as int - '0' as int)
  }

  /** Accepting exactly one expected text accepts exactly one address. */
  lemma AddressTextInjective(a: seq<Byte>, b: seq<Byte>)
    requires |a| == 4 && |b| == 4 && AddressText(a) == AddressText(b)
    ensures a == b
  {
    var x := [Decimal(a[0]), Decimal(a[1]), Decimal(a[2]), Decimal(a[3])];
    var y := [Decimal(b[0]), Decimal(b[1]), Decimal(b[2]), Decimal(b[3])];
    forall i | 0 <= i < 4 ensures '.' !in x[i] && '.' !in y[i] {
      DecimalShape(a[i]);
      DecimalShape(b[i]);
    }
    SplitJoin(x, '.');
    SplitJoin(y, '.');
    forall i | 0 <= i < 4 ensures a[i] == b[i] {
      assert x[i] == Decimal(a[i]) && y[i] == Decimal(b[i]);
      DecimalShape(a[i]);
      DecimalShape(b[i]);
    }
  }
}
