/** Packet and byte readings inside "counter" objects: removing them, and the changes that
    removing them forgets. */
module CounterReadings {
  import opened Json
  import opened Reachability

  const READINGS := {"packets", "bytes"}

  predicate IsReading(j: Json) {
    j.Int? && j.n >= 0
  }

  predicate FieldOk(fields: Fields, k: string, inCounter: bool)
    requires k in fields
    decreases Obj(fields), 0
  {
    if inCounter && k in READINGS then IsReading(fields[k]) else ValidReadings(fields[k], k == "counter")
  }

  /** Every packet or byte reading directly inside a "counter" object is a non-negative integer;
      `inCounter` says that `j` itself is the value of a "counter" key. */
  predicate ValidReadings(j: Json, inCounter: bool)
    decreases j, 1
  {
    match j
    case Arr(items) => forall i | 0 <= i < |items| :: ValidReadings(items[i], false)
    case Obj(fields) => forall k | k in fields :: FieldOk(fields, k, inCounter)
    case _ => true
  }

  function StripFields(fields: Fields, inCounter: bool): Fields
    decreases Obj(fields), 0
  {
    map k | k in fields && !(inCounter && k in READINGS) :: Strip(fields[k], k == "counter")
  }

  function StripItems(items: seq<Json>): seq<Json>
    decreases Arr(items), 0
  {
    seq(|items|, i requires 0 <= i < |items| => Strip(items[i], false))
  }

  /** The value with every reading removed. */
  function Strip(j: Json, inCounter: bool): Json
    decreases j, 1
  {
    match j
    case Arr(items) => Arr(StripItems(items))
    case Obj(fields) => Obj(StripFields(fields, inCounter))
    case _ => j
  }

  /** `without_counter_readings`, raising (None) on an invalid reading. */
  method WithoutCounterReadings(value: Json, inCounter: bool) returns (r: Option<Json>)
    ensures r == if ValidReadings(value, inCounter) then Some(Strip(value, inCounter)) else None
    decreases value
  {
    match value
    case Arr(items) =>
      var out: seq<Json> := [];
      for i := 0 to |items|
        invariant |out| == i
        invariant forall k | 0 <= k < i :: ValidReadings(items[k], false) && out[k] == Strip(items[k], false)
      {
        var item := WithoutCounterReadings(items[i], false);
        if item.None? { return None; }
        out := out + [item.value];
      }
      assert out == StripItems(items);
      return Some(Arr(out));
    case Obj(fields) =>
      var todo, result: Fields := fields.Keys, map[];
      while todo != {}
        invariant todo <= fields.Keys
        invariant forall k | k in fields && k !in todo :: FieldOk(fields, k, inCounter)
        invariant result == map k | k in fields && k !in todo && !(inCounter && k in READINGS) ::
          Strip(fields[k], k == "counter")
        decreases todo
      {
        var key :| key in todo;
        if inCounter && key in READINGS {
          if !IsReading(fields[key]) { return None; }
        } else {
          var item := WithoutCounterReadings(fields[key], key == "counter");
          if item.None? { return None; }
          result := result[key := item.value];
        }
        todo := todo - {key};
      }
      assert result == StripFields(fields, inCounter);
      return Some(Obj(result));
    case _ =>
      return Some(value);
  }

  // ---------------------------------------------------------------------------------------
  // Changes of a reading

  predicate OptionalReading(fields: Fields, r: string) {
    r in fields ==> IsReading(fields[r])
  }

  /** The reading `r` of this counter added, removed or changed. */
  predicate HereStep(a: Fields, b: Fields, r: string) {
    a - {r} == b - {r} && OptionalReading(a, r) && OptionalReading(b, r)
  }

  predicate SameBut(a: Fields, b: Fields, k: string) {
    k in a && k in b && b == a[k := b[k]]
  }

  predicate SameButAt(a: seq<Json>, b: seq<Json>, i: int) {
    0 <= i < |a| && |b| == |a| && b == a[i := b[i]]
  }

  /** One counter reading added, removed or changed, anywhere in `a`. */
  ghost predicate ReadingStep(a: Json, b: Json, inCounter: bool)
    decreases a
  {
    if a.Obj? && b.Obj? then
      || (inCounter && exists r | r in READINGS :: HereStep(a.fields, b.fields, r))
      || (exists k | SameBut(a.fields, b.fields, k) ::
            !(inCounter && k in READINGS) && ReadingStep(a.fields[k], b.fields[k], k == "counter"))
    else if a.Arr? && b.Arr? then
      exists i | SameButAt(a.items, b.items, i) :: ReadingStep(a.items[i], b.items[i], false)
    else false
  }

  ghost function Readings(inCounter: bool): (Json, Json) -> bool {
    (x, y) => ReadingStep(x, y, inCounter)
  }

  lemma {:induction false} ReadingStepSymmetric(a: Json, b: Json, inCounter: bool)
    requires ReadingStep(a, b, inCounter)
    ensures ReadingStep(b, a, inCounter)
    decreases a
  {
    if a.Arr? {
      var i :| SameButAt(a.items, b.items, i) && ReadingStep(a.items[i], b.items[i], false);
      ReadingStepSymmetric(a.items[i], b.items[i], false);
      assert SameButAt(b.items, a.items, i);
    } else if inCounter && exists r :: r in READINGS && HereStep(a.fields, b.fields, r) {
      var r :| r in READINGS && HereStep(a.fields, b.fields, r);
      assert HereStep(b.fields, a.fields, r);
    } else {
      var k :| SameBut(a.fields, b.fields, k) && !(inCounter && k in READINGS)
        && ReadingStep(a.fields[k], b.fields[k], k == "counter");
      ReadingStepSymmetric(a.fields[k], b.fields[k], k == "counter");
      assert SameBut(b.fields, a.fields, k);
    }
  }

  lemma OtherFields(a: Fields, b: Fields, r: string)
    requires a - {r} == b - {r}
    ensures forall k | k != r :: (k in a <==> k in b) && (k in a ==> a[k] == b[k])
  {
    forall k | k != r ensures (k in a <==> k in b) && (k in a ==> a[k] == b[k]) {
      assert k in a <==> k in a - {r};
      assert k in b <==> k in b - {r};
      if k in a { assert a[k] == (a - {r})[k] == (b - {r})[k]; }
    }
  }

  lemma HereForgotten(a: Fields, b: Fields, r: string)
    requires r in READINGS && HereStep(a, b, r)
    ensures ValidReadings(Obj(a), true) == ValidReadings(Obj(b), true)
    ensures StripFields(a, true) == StripFields(b, true)
  {
    OtherFields(a, b, r);
    assert forall k | k in a && k != r :: FieldOk(a, k, true) == FieldOk(b, k, true);
    assert forall k | k in b && k != r :: FieldOk(a, k, true) == FieldOk(b, k, true);
    assert StripFields(a, true).Keys == StripFields(b, true).Keys;
  }

  lemma FieldForgotten(a: Fields, b: Fields, k: string, inCounter: bool)
    requires SameBut(a, b, k) && !(inCounter && k in READINGS)
    requires ValidReadings(a[k], k == "counter") == ValidReadings(b[k], k == "counter")
    requires Strip(a[k], k == "counter") == Strip(b[k], k == "counter")
    ensures ValidReadings(Obj(a), inCounter) == ValidReadings(Obj(b), inCounter)
    ensures StripFields(a, inCounter) == StripFields(b, inCounter)
  {
    assert a.Keys == b.Keys;
    assert forall j | j in a :: FieldOk(a, j, inCounter) == FieldOk(b, j, inCounter);
  }

  lemma ItemForgotten(a: seq<Json>, b: seq<Json>, i: int)
    requires SameButAt(a, b, i)
    requires ValidReadings(a[i], false) == ValidReadings(b[i], false)
    requires Strip(a[i], false) == Strip(b[i], false)
    ensures ValidReadings(Arr(a), false) == ValidReadings(Arr(b), false)
    ensures StripItems(a) == StripItems(b)
  {
    assert forall j | 0 <= j < |a| :: ValidReadings(a[j], false) == ValidReadings(b[j], false);
    assert forall j | 0 <= j < |a| :: Strip(a[j], false) == Strip(b[j], false);
  }

  /** A change of a reading is invisible once the readings are removed. */
  lemma {:induction false} ReadingStepForgotten(a: Json, b: Json, inCounter: bool)
    requires ReadingStep(a, b, inCounter)
    ensures ValidReadings(a, inCounter) == ValidReadings(b, inCounter)
    ensures Strip(a, inCounter) == Strip(b, inCounter)
    decreases a
  {
    if a.Arr? {
      var i :| SameButAt(a.items, b.items, i) && ReadingStep(a.items[i], b.items[i], false);
      ReadingStepForgotten(a.items[i], b.items[i], false);
      ItemForgotten(a.items, b.items, i);
    } else if inCounter && exists r :: r in READINGS && HereStep(a.fields, b.fields, r) {
      var r :| r in READINGS && HereStep(a.fields, b.fields, r);
      HereForgotten(a.fields, b.fields, r);
    } else {
      var k :| SameBut(a.fields, b.fields, k) && !(inCounter && k in READINGS)
        && ReadingStep(a.fields[k], b.fields[k], k == "counter");
      ReadingStepForgotten(a.fields[k], b.fields[k], k == "counter");
      FieldForgotten(a.fields, b.fields, k, inCounter);
    }
  }

  // ---------------------------------------------------------------------------------------
  // Finitely many changes remove all readings

  lemma ReachInField(fields: Fields, k: string, x: Json, y: Json, inCounter: bool)
    requires k in fields && !(inCounter && k in READINGS)
    requires Reach(Readings(k == "counter"), x, y)
    ensures Reach(Readings(inCounter), Obj(fields[k := x]), Obj(fields[k := y]))
  {
    var f := z => Obj(fields[k := z]);
    forall c, d | Readings(k == "counter")(c, d) ensures Readings(inCounter)(f(c), f(d)) {
      assert SameBut(fields[k := c], fields[k := d], k);
      assert ReadingStep(fields[k := c][k], fields[k := d][k], k == "counter");
      assert ReadingStep(f(c), f(d), inCounter);
    }
    Lift(Readings(k == "counter"), Readings(inCounter), f, x, y);
  }

  lemma ReachInItem(p: seq<Json>, x: Json, y: Json, s: seq<Json>, inCounter: bool)
    requires Reach(Readings(false), x, y)
    ensures Reach(Readings(inCounter), Arr(p + [x] + s), Arr(p + [y] + s))
  {
    var f := z => Arr(p + [z] + s);
    forall c, d | Readings(false)(c, d) ensures Readings(inCounter)(f(c), f(d)) { StepInItem(p, c, d, s, inCounter); }
    Lift(Readings(false), Readings(inCounter), f, x, y);
  }

  lemma StepInItem(p: seq<Json>, c: Json, d: Json, s: seq<Json>, inCounter: bool)
    requires ReadingStep(c, d, false)
    ensures ReadingStep(Arr(p + [c] + s), Arr(p + [d] + s), inCounter)
  {
    var (a, b) := (p + [c] + s, p + [d] + s);
    assert SameButAt(a, b, |p|);
    assert ReadingStep(a[|p|], b[|p|], false);
  }

  /** `fields` with the readings removed from every field outside `todo`. */
  ghost function Partial(fields: Fields, todo: set<string>, inCounter: bool): Fields {
    map k | k in fields && (k in todo || !(inCounter && k in READINGS)) ::
      if k in todo then fields[k] else Strip(fields[k], k == "counter")
  }

  /** Valid readings can be removed one at a time. */
  lemma {:induction false} StripReached(j: Json, inCounter: bool)
    requires ValidReadings(j, inCounter)
    ensures Reach(Readings(inCounter), j, Strip(j, inCounter))
    decreases j, 1, 0
  {
    match j
    case Arr(items) =>
      ItemsReached(items, |items|, inCounter);
      assert StripItems(items)[..|items|] + items[|items|..] == StripItems(items);
    case Obj(fields) =>
      FieldsReached(fields, fields.Keys, inCounter);
      assert Partial(fields, fields.Keys, inCounter) == fields;
      assert Partial(fields, {}, inCounter) == StripFields(fields, inCounter);
    case _ => Stay(Readings(inCounter), j);
  }

  lemma {:induction false} ItemsReached(items: seq<Json>, n: nat, inCounter: bool)
    requires n <= |items| && ValidReadings(Arr(items), inCounter)
    ensures Reach(Readings(inCounter), Arr(items), Arr(StripItems(items)[..n] + items[n..]))
    decreases Arr(items), 0, n
  {
    var done := StripItems(items);
    if n == 0 {
      assert done[..0] + items[0..] == items;
      Stay(Readings(inCounter), Arr(items));
    } else {
      var (x, y) := (items[n - 1], done[n - 1]);
      ItemsReached(items, n - 1, inCounter);
      assert Reach(Readings(false), x, y) by { StripReached(x, false); }
      ReachInItem(done[..n - 1], x, y, items[n..], inCounter);
      Around(done, items, n);
      Transitive(Readings(inCounter), Arr(items), Arr(done[..n - 1] + items[n - 1..]), Arr(done[..n] + items[n..]));
    }
  }

  lemma Around<T>(done: seq<T>, items: seq<T>, n: nat)
    requires 0 < n <= |items| == |done|
    ensures done[..n - 1] + [items[n - 1]] + items[n..] == done[..n - 1] + items[n - 1..]
    ensures done[..n - 1] + [done[n - 1]] + items[n..] == done[..n] + items[n..]
  {
  }

  lemma {:induction false} FieldsReached(fields: Fields, todo: set<string>, inCounter: bool)
    requires todo <= fields.Keys && ValidReadings(Obj(fields), inCounter)
    ensures Reach(Readings(inCounter), Obj(Partial(fields, todo, inCounter)), Obj(Partial(fields, {}, inCounter)))
    decreases Obj(fields), 0, |todo|
  {
    if todo == {} {
      Stay(Readings(inCounter), Obj(Partial(fields, {}, inCounter)));
    } else {
      var k :| k in todo;
      FieldsReached(fields, todo - {k}, inCounter);
      FieldReached(fields, todo, k, inCounter);
      Transitive(Readings(inCounter), Obj(Partial(fields, todo, inCounter)),
                 Obj(Partial(fields, todo - {k}, inCounter)), Obj(Partial(fields, {}, inCounter)));
    }
  }

  lemma {:induction false} FieldReached(fields: Fields, todo: set<string>, k: string, inCounter: bool)
    requires todo <= fields.Keys && k in todo && ValidReadings(Obj(fields), inCounter)
    ensures Reach(Readings(inCounter), Obj(Partial(fields, todo, inCounter)),
                  Obj(Partial(fields, todo - {k}, inCounter)))
    decreases Obj(fields), 0, 0
  {
    var (before, after) := (Partial(fields, todo, inCounter), Partial(fields, todo - {k}, inCounter));
    assert FieldOk(fields, k, inCounter);
    if inCounter && k in READINGS {
      assert before - {k} == after - {k};
      assert HereStep(before, after, k);
      assert ReadingStep(Obj(before), Obj(after), inCounter);
      One(Readings(inCounter), Obj(before), Obj(after));
    } else {
      assert Reach(Readings(k == "counter"), fields[k], Strip(fields[k], k == "counter")) by {
        StripReached(fields[k], k == "counter");
      }
      ReachInField(before, k, fields[k], Strip(fields[k], k == "counter"), inCounter);
      assert before[k := fields[k]] == before;
      assert before[k := Strip(fields[k], k == "counter")] == after;
    }
  }
}
