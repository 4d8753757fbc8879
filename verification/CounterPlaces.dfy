/** Where counter readings stand in a document, by the path that leads to them, and that exactly these places
    are checked and removed. */
module CounterPlaces {
  import opened Json
  import opened CounterReadings
  import D = Differences

  type Path = D.Path

  /** A packet or byte count directly inside the value of a "counter" key; `inCounter` says that the whole
      document is such a value. */
  ghost predicate ReadingPlace(p: Path, inCounter: bool) {
    && p != [] && (p[|p| - 1] == D.Key("packets") || p[|p| - 1] == D.Key("bytes"))
    && if |p| == 1 then inCounter else p[|p| - 2] == D.Key("counter")
  }

  ghost predicate Sound(j: Json, p: Path) {
    var found := D.Lookup(j, p);
    found.Some? ==> found.value.Int? && found.value.n >= 0
  }

  function Child(j: Json, step: D.Step): Option<Json> {
    match (j, step)
    case (Obj(fields), Key(k)) => if k in fields then Some(fields[k]) else None
    case (Arr(items), Index(i)) => if i < |items| then Some(items[i]) else None
    case _ => None
  }

  lemma LookupStep(j: Json, step: D.Step, p: Path)
    ensures D.Lookup(j, [step] + p) ==
      if Child(j, step).None? then None else D.Lookup(Child(j, step).value, p)
  {
    assert ([step] + p)[1..] == p;
  }

  lemma PlaceStep(step: D.Step, p: Path, inCounter: bool)
    requires p != []
    ensures ReadingPlace([step] + p, inCounter) <==> ReadingPlace(p, step == D.Key("counter"))
  {
    var whole := [step] + p;
    assert whole[|whole| - 1] == p[|p| - 1];
    if |p| > 1 { assert whole[|whole| - 2] == p[|p| - 2]; }
  }

  /** Every reading of a valid document counts something. */
  lemma {:induction false} ValidSound(j: Json, p: Path, inCounter: bool)
    requires ValidReadings(j, inCounter) && ReadingPlace(p, inCounter)
    ensures Sound(j, p)
    decreases p
  {
    var (step, q) := (p[0], p[1..]);
    LookupStep(j, step, q);
    assert p == [step] + q;
    if Child(j, step).Some? && q != [] {
      var child := Child(j, step).value;
      PlaceStep(step, q, inCounter);
      if !(inCounter && step.Key? && step.k in READINGS) { ValidSound(child, q, step == D.Key("counter")); }
    }
  }

  /** An invalid document has a reading that does not. */
  lemma {:induction false} InvalidPlace(j: Json, inCounter: bool) returns (p: Path)
    requires !ValidReadings(j, inCounter)
    ensures ReadingPlace(p, inCounter) && !Sound(j, p)
    decreases j
  {
    var step: D.Step;
    if j.Obj? {
      var k :| k in j.fields && !FieldOk(j.fields, k, inCounter);
      step := D.Key(k);
      if inCounter && k in READINGS {
        p := [step];
        LookupStep(j, step, []);
        assert [step] + [] == [step];
        return;
      }
    } else {
      var i :| 0 <= i < |j.items| && !ValidReadings(j.items[i], false);
      step := D.Index(i);
    }
    var q := InvalidPlace(Child(j, step).value, step == D.Key("counter"));
    PlaceStep(step, q, inCounter);
    LookupStep(j, step, q);
    p := [step] + q;
  }

  /** For every document: its readings are accepted if and only if every packet or byte count directly inside a
      counter is a non-negative integer. */
  lemma ValidIff(j: Json, inCounter: bool)
    ensures ValidReadings(j, inCounter) <==> forall p | ReadingPlace(p, inCounter) :: Sound(j, p)
  {
    if ValidReadings(j, inCounter) {
      forall p | ReadingPlace(p, inCounter) ensures Sound(j, p) { ValidSound(j, p, inCounter); }
    } else {
      var p := InvalidPlace(j, inCounter);
    }
  }

  /** The path leads to a reading or through one. */
  ghost predicate Crosses(p: Path, inCounter: bool) {
    exists n | 0 < n <= |p| :: ReadingPlace(p[..n], inCounter)
  }

  lemma CrossesStep(step: D.Step, p: Path, inCounter: bool)
    ensures Crosses([step] + p, inCounter) <==>
      ReadingPlace([step], inCounter) || Crosses(p, step == D.Key("counter"))
  {
    var whole := [step] + p;
    forall n | 0 < n <= |p|
      ensures ReadingPlace(whole[..n + 1], inCounter) <==> ReadingPlace(p[..n], step == D.Key("counter"))
    {
      assert whole[..n + 1] == [step] + p[..n];
      PlaceStep(step, p[..n], inCounter);
    }
    assert whole[..1] == [step];
    if Crosses(p, step == D.Key("counter")) {
      var n :| 0 < n <= |p| && ReadingPlace(p[..n], step == D.Key("counter"));
      assert ReadingPlace(whole[..n + 1], inCounter);
    }
    if Crosses(whole, inCounter) {
      var n :| 0 < n <= |whole| && ReadingPlace(whole[..n], inCounter);
      if n > 1 { assert ReadingPlace(p[..n - 1], step == D.Key("counter")); }
    }
  }

  /** Whether what stands at the path is the value of a "counter" key. */
  ghost function Inside(p: Path, inCounter: bool): bool {
    if p == [] then inCounter else p[|p| - 1] == D.Key("counter")
  }

  /** For every document and path: removing the readings removes exactly what lies at or below a reading, and
      keeps every scalar, every length and every other key where it was. */
  lemma {:induction false} StripAt(j: Json, p: Path, inCounter: bool)
    ensures D.Lookup(Strip(j, inCounter), p) ==
      if D.Lookup(j, p).None? || Crosses(p, inCounter) then None
      else Some(Strip(D.Lookup(j, p).value, Inside(p, inCounter)))
    decreases p
  {
    if p != [] {
      var (step, q, flag) := (p[0], p[1..], p[0] == D.Key("counter"));
      assert p == [step] + q && Inside(p, inCounter) == Inside(q, flag);
      LookupStep(j, step, q);
      LookupStep(Strip(j, inCounter), step, q);
      CrossesStep(step, q, inCounter);
      ChildStripped(j, step, inCounter);
      if Child(j, step).Some? { StripAt(Child(j, step).value, q, flag); }
    }
  }

  lemma ChildStripped(j: Json, step: D.Step, inCounter: bool)
    ensures Child(Strip(j, inCounter), step) ==
      if Child(j, step).None? || ReadingPlace([step], inCounter) then None
      else Some(Strip(Child(j, step).value, step == D.Key("counter")))
  {
  }
}
