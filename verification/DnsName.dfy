/** Domain names on the wire (section 4.1.4 of RFC 1035): the decoder with its set of visited
    offsets, and what it decodes. */
module DnsName {
  import opened Json
  import opened Text

  type Byte = x: int | 0 <= x < 256

  // ---------------------------------------------------------------------------------------
  // What stands at one offset

  datatype Move =
    | Malformed
    | Root
    | Label(text: seq<Byte>)
    | Pointer(target: nat)

  function MoveAt(data: seq<Byte>, offset: nat): Move {
    if offset >= |data| then Malformed
    else
      var length: int := data[offset];
      if length >= 0xc0 then
        if offset + 1 >= |data| then Malformed else Pointer((length - 0xc0) * 256 + (data[offset + 1] as int))
      else if length == 0 then Root
      else if length > 63 || offset + 1 + length > |data| then Malformed
      else Label(data[offset + 1..offset + 1 + length])
  }

  /** Where decoding goes on after a label or a pointer. */
  function Next(data: seq<Byte>, offset: nat): Option<nat> {
    match MoveAt(data, offset)
    case Label(text) => Some(offset + 1 + |text|)
    case Pointer(target) => Some(target)
    case _ => None
  }

  /** The labels of a name, and the offset just behind it: behind the first pointer if there is one. */
  datatype Name = Name(labels: seq<seq<Byte>>, end: nat)

  /** The name at an offset, followed for at most `fuel` moves and never remembering a visit. */
  function Follow(data: seq<Byte>, offset: nat, fuel: nat): Option<Name>
    decreases fuel
  {
    if fuel == 0 then None
    else
      match MoveAt(data, offset)
      case Malformed => None
      case Root => Some(Name([], offset + 1))
      case Label(text) =>
        var rest := Follow(data, offset + 1 + |text|, fuel - 1);
        if rest.None? then None else Some(rest.value.(labels := [text] + rest.value.labels))
      case Pointer(target) =>
        var rest := Follow(data, target, fuel - 1);
        if rest.None? then None else Some(rest.value.(end := offset + 2))
  }

  /** A finite chain of labels and pointers ends in a root label. */
  ghost predicate Decodes(data: seq<Byte>, offset: nat, name: Name) {
    exists fuel: nat :: Follow(data, offset, fuel) == Some(name)
  }

  lemma {:induction false} FollowMore(data: seq<Byte>, offset: nat, m: nat, n: nat)
    requires Follow(data, offset, m).Some? && m <= n
    ensures Follow(data, offset, n) == Follow(data, offset, m)
    decreases m
  {
    match MoveAt(data, offset)
    case Label(text) => FollowMore(data, offset + 1 + |text|, m - 1, n - 1);
    case Pointer(target) => FollowMore(data, target, m - 1, n - 1);
    case _ =>
  }

  // ---------------------------------------------------------------------------------------
  // Revisits never end

  ghost predicate Leads(data: seq<Byte>, a: nat, b: nat, moves: nat)
    decreases moves
  {
    if moves == 0 then a == b
    else Next(data, a).Some? && Leads(data, Next(data, a).value, b, moves - 1)
  }

  lemma {:induction false} LeadsFurther(data: seq<Byte>, a: nat, b: nat, moves: nat)
    requires Leads(data, a, b, moves) && Next(data, b).Some?
    ensures Leads(data, a, Next(data, b).value, moves + 1)
    decreases moves
  {
    if moves > 0 {
      LeadsFurther(data, Next(data, a).value, b, moves - 1);
    } else {
      assert Leads(data, Next(data, a).value, Next(data, b).value, 0);
    }
  }

  lemma {:induction false} FollowLeads(data: seq<Byte>, a: nat, b: nat, moves: nat, fuel: nat)
    requires Leads(data, a, b, moves) && Follow(data, a, fuel).Some?
    ensures fuel > moves && Follow(data, b, fuel - moves).Some?
    decreases moves
  {
    if moves > 0 { FollowLeads(data, Next(data, a).value, b, moves - 1, fuel - 1); }
  }

  /** A name whose chain comes back to where it started is never decoded. */
  lemma {:induction false} CycleNeverEnds(data: seq<Byte>, a: nat, moves: nat, fuel: nat)
    requires moves > 0 && Leads(data, a, a, moves)
    ensures Follow(data, a, fuel).None?
    decreases fuel
  {
    if Follow(data, a, fuel).Some? {
      FollowLeads(data, a, a, moves, fuel);
      CycleNeverEnds(data, a, moves, fuel - moves);
    }
  }

  // ---------------------------------------------------------------------------------------
  // Visited offsets

  /** Every visited offset leads to the current one. */
  ghost predicate Trail(data: seq<Byte>, seen: set<nat>, offset: nat) {
    && (forall o | o in seen :: o < |data|)
    && (forall o | o in seen :: exists moves: nat :: moves > 0 && Leads(data, o, offset, moves))
  }

  lemma RevisitNeverEnds(data: seq<Byte>, seen: set<nat>, offset: nat, fuel: nat)
    requires Trail(data, seen, offset) && offset in seen
    ensures Follow(data, offset, fuel).None?
  {
    var moves: nat :| moves > 0 && Leads(data, offset, offset, moves);
    CycleNeverEnds(data, offset, moves, fuel);
  }

  lemma StuckNeverEnds(data: seq<Byte>, seen: set<nat>, offset: nat)
    requires Trail(data, seen, offset) && (offset in seen || offset >= |data|)
    ensures forall fuel: nat :: Follow(data, offset, fuel).None?
  {
    forall fuel: nat ensures Follow(data, offset, fuel).None? {
      if offset in seen { RevisitNeverEnds(data, seen, offset, fuel); }
    }
  }

  lemma TrailStep(data: seq<Byte>, seen: set<nat>, offset: nat)
    requires Trail(data, seen, offset) && Next(data, offset).Some?
    ensures Trail(data, seen + {offset}, Next(data, offset).value)
  {
    var next := Next(data, offset).value;
    forall o | o in seen + {offset} ensures exists moves: nat :: moves > 0 && Leads(data, o, next, moves) {
      var moves: nat :| if o == offset then moves == 0 else moves > 0 && Leads(data, o, offset, moves);
      if o == offset { assert Leads(data, o, offset, 0); }
      LeadsFurther(data, o, offset, moves);
    }
  }

  lemma {:induction false} Bounded(seen: set<nat>, n: nat)
    requires forall o | o in seen :: o < n
    ensures |seen| <= n
  {
    if n > 0 {
      Bounded(seen - {n - 1}, n - 1);
    } else {
      assert seen == {};
    }
  }

  lemma SeenBound(data: seq<Byte>, seen: set<nat>, offset: nat)
    requires Trail(data, seen, offset) && offset !in seen && offset < |data|
    ensures |seen| < |data|
  {
    Bounded(seen + {offset}, |data|);
  }

  /** A name that is decoded at all is decoded within one move per byte of the message. */
  lemma {:induction false} ShortEnough(data: seq<Byte>, seen: set<nat>, offset: nat, fuel: nat)
    requires Trail(data, seen, offset) && Follow(data, offset, fuel).Some?
    ensures |seen| < |data| && Follow(data, offset, |data| - |seen|).Some?
    decreases fuel
  {
    if offset in seen { RevisitNeverEnds(data, seen, offset, fuel); }
    SeenBound(data, seen, offset);
    if Next(data, offset).Some? {
      TrailStep(data, seen, offset);
      ShortEnough(data, seen + {offset}, Next(data, offset).value, fuel - 1);
    }
  }

  lemma FuelOfData(data: seq<Byte>, offset: nat, name: Name)
    ensures Decodes(data, offset, name) <==> Follow(data, offset, |data|) == Some(name)
  {
    if Decodes(data, offset, name) {
      var fuel: nat :| Follow(data, offset, fuel) == Some(name);
      ShortEnough(data, {}, offset, fuel);
      var most := if fuel <= |data| then |data| else fuel;
      FollowMore(data, offset, fuel, most);
      FollowMore(data, offset, |data|, most);
    }
  }

  // ---------------------------------------------------------------------------------------
  // The decoder

  predicate IsAscii(text: seq<Byte>) {
    forall b | b in text :: b < 128
  }

  function Lower(b: Byte): Byte {
    if 65 <= b <= 90 then b + 32 else b
  }

  function LowerAll(text: seq<Byte>): seq<Byte> {
    seq(|text|, i requires 0 <= i < |text| => Lower(text[i]))
  }

  /** The dotted, lower-case text of a name. */
  function Dotted(labels: seq<seq<Byte>>): seq<Byte> {
    LowerAll(Join(labels, 46))
  }

  /** What a caller of `read_name` sees: the text and the offset behind the name. */
  ghost function Decoded(data: seq<Byte>, offset: nat): Option<(seq<Byte>, nat)> {
    match Follow(data, offset, |data|)
    case None => None
    case Some(name) =>
      if IsAscii(Join(name.labels, 46)) then Some((Dotted(name.labels), name.end)) else None
  }

  /** The labels and end found so far, completed by what is still to be followed. */
  function Prepend(labels: seq<seq<Byte>>, end: Option<nat>, rest: Option<Name>): Option<Name> {
    if rest.None? then None
    else Some(Name(labels + rest.value.labels, if end.Some? then end.value else rest.value.end))
  }

  ghost predicate Progress(
      data: seq<Byte>, start: nat, labels: seq<seq<Byte>>, end: Option<nat>, offset: nat, moves: nat)
  {
    forall fuel: nat :: Follow(data, start, moves + fuel) == Prepend(labels, end, Follow(data, offset, fuel))
  }

  lemma ProgressLabel(data: seq<Byte>, start: nat, labels: seq<seq<Byte>>, end: Option<nat>, offset: nat, moves: nat)
    requires Progress(data, start, labels, end, offset, moves) && MoveAt(data, offset).Label?
    ensures var text := MoveAt(data, offset).text;
      Progress(data, start, labels + [text], end, offset + 1 + |text|, moves + 1)
  {
    var text := MoveAt(data, offset).text;
    var next := offset + 1 + |text|;
    forall fuel: nat
      ensures Follow(data, start, moves + 1 + fuel) == Prepend(labels + [text], end, Follow(data, next, fuel))
    {
      assert Follow(data, start, moves + (1 + fuel)) == Prepend(labels, end, Follow(data, offset, 1 + fuel));
      var rest := Follow(data, next, fuel);
      if rest.Some? { assert labels + ([text] + rest.value.labels) == labels + [text] + rest.value.labels; }
    }
  }

  lemma ProgressPointer(data: seq<Byte>, start: nat, labels: seq<seq<Byte>>, end: Option<nat>, offset: nat, moves: nat)
    requires Progress(data, start, labels, end, offset, moves) && MoveAt(data, offset).Pointer?
    ensures Progress(data, start, labels, if end.Some? then end else Some(offset + 2),
                     MoveAt(data, offset).target, moves + 1)
  {
    var target := MoveAt(data, offset).target;
    forall fuel: nat
      ensures Follow(data, start, moves + 1 + fuel) ==
        Prepend(labels, if end.Some? then end else Some(offset + 2), Follow(data, target, fuel))
    {
      assert Follow(data, start, moves + (1 + fuel)) == Prepend(labels, end, Follow(data, offset, 1 + fuel));
    }
  }

  lemma NeverDecoded(data: seq<Byte>, start: nat, labels: seq<seq<Byte>>, end: Option<nat>, offset: nat, moves: nat)
    requires Progress(data, start, labels, end, offset, moves)
    requires forall fuel: nat :: Follow(data, offset, fuel).None?
    ensures Follow(data, start, |data|).None?
  {
    assert Follow(data, start, moves + |data|) == Prepend(labels, end, Follow(data, offset, |data|));
    if Follow(data, start, |data|).Some? {
      FollowMore(data, start, |data|, moves + |data|);
    }
  }

  lemma NowDecoded(data: seq<Byte>, start: nat, labels: seq<seq<Byte>>, end: Option<nat>, offset: nat, moves: nat)
    requires Progress(data, start, labels, end, offset, moves) && MoveAt(data, offset).Root?
    ensures Follow(data, start, |data|) == Some(Name(labels, if end.Some? then end.value else offset + 1))
  {
    var name := Name(labels, if end.Some? then end.value else offset + 1);
    assert Follow(data, start, moves + 1) == Prepend(labels, end, Follow(data, offset, 1));
    assert labels + [] == labels;
    FuelOfData(data, start, name);
  }

  lemma ProgressStart(data: seq<Byte>, start: nat)
    ensures Progress(data, start, [], None, start, 0)
  {
    forall fuel: nat ensures Follow(data, start, 0 + fuel) == Prepend([], None, Follow(data, start, fuel)) {
      var rest := Follow(data, start, fuel);
      if rest.Some? { assert [] + rest.value.labels == rest.value.labels; }
    }
  }

  /** `read_name`: None for every malformed, truncated, looping or non-ASCII name. */
  method ReadName(data: seq<Byte>, start: nat) returns (r: Option<(seq<Byte>, nat)>)
    ensures r == Decoded(data, start)
  {
    var labels: seq<seq<Byte>>, seen: set<nat>, end: Option<nat>, offset: nat := [], {}, None, start;
    ghost var moves: nat := 0;
    ProgressStart(data, start);
    while true
      invariant Trail(data, seen, offset) && Progress(data, start, labels, end, offset, moves)
      decreases |data| - |seen|
    {
      if offset in seen || offset >= |data| {
        StuckNeverEnds(data, seen, offset);
        NeverDecoded(data, start, labels, end, offset, moves);
        return None;
      }
      SeenBound(data, seen, offset);
      match MoveAt(data, offset) {
        case Malformed =>
          NeverDecoded(data, start, labels, end, offset, moves);
          return None;
        case Root =>
          NowDecoded(data, start, labels, end, offset, moves);
          if !IsAscii(Join(labels, 46)) { return None; }
          return Some((Dotted(labels), if end.Some? then end.value else offset + 1));
        case Label(text) =>
          ProgressLabel(data, start, labels, end, offset, moves);
          TrailStep(data, seen, offset);
          seen, labels, offset := seen + {offset}, labels + [text], offset + 1 + |text|;
        case Pointer(target) =>
          ProgressPointer(data, start, labels, end, offset, moves);
          TrailStep(data, seen, offset);
          seen, end, offset := seen + {offset}, if end.Some? then end else Some(offset + 2), target;
      }
      moves := moves + 1;
    }
  }

  // ---------------------------------------------------------------------------------------
  // Main results about names

  /** The set of visited offsets refuses exactly the chains that never end: a name is decoded
      if and only if some finite chain of moves, without any such set, decodes it. */
  lemma VisitedSetExact(data: seq<Byte>, offset: nat, text: seq<Byte>, end: nat)
    ensures Decoded(data, offset) == Some((text, end)) <==>
      exists labels :: Decodes(data, offset, Name(labels, end)) && IsAscii(Join(labels, 46)) && text == Dotted(labels)
  {
    if Decoded(data, offset) == Some((text, end)) {
      var name := Follow(data, offset, |data|).value;
      FuelOfData(data, offset, name);
      assert name == Name(name.labels, end);
      assert Decodes(data, offset, Name(name.labels, end));
    }
    if labels :| Decodes(data, offset, Name(labels, end)) && IsAscii(Join(labels, 46)) && text == Dotted(labels) {
      FuelOfData(data, offset, Name(labels, end));
    }
  }

  /** A decoded name ends after it starts and inside the message. */
  lemma {:induction false} EndInside(data: seq<Byte>, offset: nat, fuel: nat)
    requires Follow(data, offset, fuel).Some?
    ensures offset < Follow(data, offset, fuel).value.end <= |data|
    ensures Follow(data, offset, fuel).value.labels != [] ==> offset + 2 <= Follow(data, offset, fuel).value.end
    decreases fuel
  {
    match MoveAt(data, offset)
    case Label(text) => EndInside(data, offset + 1 + |text|, fuel - 1);
    case _ =>
  }

  function EncodeLabel(text: seq<Byte>): seq<Byte>
    requires |text| < 256
  {
    [|text|] + text
  }

  predicate ValidLabels(labels: seq<seq<Byte>>) {
    forall i | 0 <= i < |labels| :: 0 < |labels[i]| <= 63
  }

  /** The labels one after the other, without the root label. */
  function EncodeLabels(labels: seq<seq<Byte>>): seq<Byte>
    requires ValidLabels(labels)
  {
    if labels == [] then [] else EncodeLabel(labels[0]) + EncodeLabels(labels[1..])
  }

  /** The bytes of `part` stand in the message from offset `at`. */
  predicate Holds(data: seq<Byte>, at: nat, part: seq<Byte>) {
    at + |part| <= |data| && data[at..at + |part|] == part
  }

  lemma HoldsSplit(data: seq<Byte>, at: nat, a: seq<Byte>, b: seq<Byte>)
    requires Holds(data, at, a + b)
    ensures Holds(data, at, a) && Holds(data, at + |a|, b)
  {
    var part := data[at..at + |a + b|];
    assert data[at..at + |a|] == part[..|a|] && data[at + |a|..at + |a| + |b|] == part[|a|..];
  }

  lemma LabelInContext(data: seq<Byte>, at: nat, text: seq<Byte>)
    requires 0 < |text| <= 63 && Holds(data, at, EncodeLabel(text))
    ensures MoveAt(data, at) == Label(text)
  {
    var part := data[at..at + 1 + |text|];
    assert data[at] == part[0] == |text|;
    assert data[at + 1..at + 1 + |text|] == part[1..];
  }

  /** Encoded labels are read back, whatever follows them. */
  lemma {:induction false} LabelsRead(data: seq<Byte>, at: nat, labels: seq<seq<Byte>>, rest: Name)
    requires ValidLabels(labels)
    requires Holds(data, at, EncodeLabels(labels))
    requires Decodes(data, at + |EncodeLabels(labels)|, rest)
    ensures Decodes(data, at, Name(labels + rest.labels, rest.end))
    decreases |labels|
  {
    if labels == [] {
      assert labels + rest.labels == rest.labels;
    } else {
      var (text, tail) := (labels[0], labels[1..]);
      HoldsSplit(data, at, EncodeLabel(text), EncodeLabels(tail));
      LabelInContext(data, at, text);
      LabelsRead(data, at + 1 + |text|, tail, rest);
      LabelFollowed(data, at, text, Name(tail + rest.labels, rest.end));
      ConsConcat(labels, rest.labels);
    }
  }

  lemma ConsConcat<T>(a: seq<T>, b: seq<T>)
    requires a != []
    ensures [a[0]] + (a[1..] + b) == a + b
  {
  }

  lemma LabelFollowed(data: seq<Byte>, at: nat, text: seq<Byte>, rest: Name)
    requires MoveAt(data, at) == Label(text) && Decodes(data, at + 1 + |text|, rest)
    ensures Decodes(data, at, Name([text] + rest.labels, rest.end))
  {
    var fuel: nat :| Follow(data, at + 1 + |text|, fuel) == Some(rest);
    assert Follow(data, at, fuel + 1) == Some(Name([text] + rest.labels, rest.end));
  }

  lemma PointerFollowed(data: seq<Byte>, at: nat, target: nat, rest: Name)
    requires MoveAt(data, at) == Pointer(target) && Decodes(data, target, rest)
    ensures Decodes(data, at, Name(rest.labels, at + 2))
  {
    var fuel: nat :| Follow(data, target, fuel) == Some(rest);
    assert Follow(data, at, fuel + 1) == Some(Name(rest.labels, at + 2));
  }

  /** Section 4.1.4 of RFC 1035: a suffix of a name may be replaced by a pointer to the same
      labels elsewhere. When that pointer's chain ends, both messages decode to the same labels. */
  lemma PointerTransparent(data: seq<Byte>, data': seq<Byte>, at: nat, labels: seq<seq<Byte>>,
                           suffix: Name, suffix': Name, target: nat)
    requires ValidLabels(labels)
    requires var k := at + |EncodeLabels(labels)|;
      && Holds(data, at, EncodeLabels(labels)) && Decodes(data, k, suffix)
      && Holds(data', at, EncodeLabels(labels))
      && MoveAt(data', k) == Pointer(target) && Decodes(data', target, suffix')
      && suffix.labels == suffix'.labels
    ensures Decodes(data, at, Name(labels + suffix.labels, suffix.end))
    ensures Decodes(data', at, Name(labels + suffix.labels, at + |EncodeLabels(labels)| + 2))
  {
    var k := at + |EncodeLabels(labels)|;
    LabelsRead(data, at, labels, suffix);
    PointerFollowed(data', k, target, suffix');
    LabelsRead(data', at, labels, Name(suffix'.labels, k + 2));
  }
}
