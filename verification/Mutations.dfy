/** The configuration fuzzer's tree operations: walking every location, changing one in place, and a
    mutation that leaves the protected top-level fields alone. */
module Mutations {
  import opened Json
  import opened Text
  import D = Differences

  type Path = D.Path

  /** Fields whose change would cut off the appliance under test, and the two the server owns. */
  const PROTECTED := {"lan", "trusted_networks", "wifi", "wg_client", "revision", "updated_at"}

  // ---------------------------------------------------------------------------------------
  // walk

  ghost function WalkKey(fields: Fields, k: string): seq<Path>
    requires k in fields
    decreases Obj(fields), 0
  {
    D.Under(D.Key(k), Walk(fields[k]))
  }

  ghost function WalkItem(items: seq<Json>, i: nat): seq<Path>
    requires i < |items|
    decreases Arr(items), 0
  {
    D.Under(D.Index(i), Walk(items[i]))
  }

  ghost function KeyBlocks(fields: Fields, keys: seq<string>): seq<seq<Path>>
    requires forall i | 0 <= i < |keys| :: keys[i] in fields
    decreases Obj(fields), 1
  {
    seq(|keys|, i requires 0 <= i < |keys| => WalkKey(fields, keys[i]))
  }

  ghost function ItemBlocks(items: seq<Json>): seq<seq<Path>>
    decreases Arr(items), 1
  {
    seq(|items|, i requires 0 <= i < |items| => WalkItem(items, i))
  }

  /** The locations `walk` yields; dictionary order is fixed as ascending. */
  ghost function Walk(j: Json): seq<Path>
    decreases j, 2
  {
    match j
    case Obj(fields) => [[]] + D.Flatten(KeyBlocks(fields, Sorted(fields.Keys)))
    case Arr(items) => [[]] + D.Flatten(ItemBlocks(items))
    case _ => [[]]
  }

  ghost predicate Exists(j: Json, p: Path) {
    D.Lookup(j, p).Some?
  }

  lemma {:induction false} InFlatten(blocks: seq<seq<Path>>, i: nat, p: Path)
    requires i < |blocks| && p in blocks[i]
    ensures p in D.Flatten(blocks)
  {
    if i < |blocks| - 1 {
      InFlatten(blocks[..|blocks| - 1], i, p);
    }
  }

  lemma InUnder(step: D.Step, paths: seq<Path>, p: Path)
    requires p in paths
    ensures [step] + p in D.Under(step, paths)
  {
    var i :| 0 <= i < |paths| && paths[i] == p;
    assert D.Under(step, paths)[i] == [step] + p;
  }

  /** Everything that is walked exists. */
  lemma {:induction false} WalkedExists(j: Json, p: Path)
    requires p in Walk(j)
    ensures Exists(j, p)
    decreases j, 1
  {
    if p != [] {
      match j
      case Obj(fields) => KeyExists(fields, Sorted(fields.Keys), p);
      case Arr(items) => ItemExists(items, p);
      case _ =>
    }
  }

  lemma KeyExists(fields: Fields, keys: seq<string>, p: Path)
    requires forall i | 0 <= i < |keys| :: keys[i] in fields
    requires p in D.Flatten(KeyBlocks(fields, keys))
    ensures Exists(Obj(fields), p)
    decreases Obj(fields), 0
  {
    var n := D.FromBlock(KeyBlocks(fields, keys), p);
    var k := keys[n];
    assert p in WalkKey(fields, k);
    var q := D.FromUnder(D.Key(k), Walk(fields[k]), p);
    WalkedExists(fields[k], q);
  }

  lemma ItemExists(items: seq<Json>, p: Path)
    requires p in D.Flatten(ItemBlocks(items))
    ensures Exists(Arr(items), p)
    decreases Arr(items), 0
  {
    var i := D.FromBlock(ItemBlocks(items), p);
    assert p in WalkItem(items, i);
    var q := D.FromUnder(D.Index(i), Walk(items[i]), p);
    WalkedExists(items[i], q);
  }

  /** Everything that exists is walked. */
  lemma {:induction false} ExistingWalked(j: Json, p: Path)
    requires Exists(j, p)
    ensures p in Walk(j)
    decreases j
  {
    if p != [] {
      assert p == [p[0]] + p[1..];
      match j
      case Obj(fields) => KeyWalked(fields, p);
      case Arr(items) => ItemWalked(items, p);
      case _ =>
    }
  }

  lemma KeyWalked(fields: Fields, p: Path)
    requires p != [] && Exists(Obj(fields), p) && p == [p[0]] + p[1..]
    ensures p in Walk(Obj(fields))
    decreases Obj(fields), 0
  {
    var k := p[0].k;
    ExistingWalked(fields[k], p[1..]);
    InUnder(p[0], Walk(fields[k]), p[1..]);
    InKeyBlocks(fields, Sorted(fields.Keys), k, p);
  }

  lemma InKeyBlocks(fields: Fields, keys: seq<string>, k: string, p: Path)
    requires (forall i | 0 <= i < |keys| :: keys[i] in fields) && k in keys && p in WalkKey(fields, k)
    ensures p in D.Flatten(KeyBlocks(fields, keys))
  {
    var n :| 0 <= n < |keys| && keys[n] == k;
    assert KeyBlocks(fields, keys)[n] == WalkKey(fields, k);
    InFlatten(KeyBlocks(fields, keys), n, p);
  }

  lemma ItemWalked(items: seq<Json>, p: Path)
    requires p != [] && Exists(Arr(items), p) && p == [p[0]] + p[1..]
    ensures p in Walk(Arr(items))
    decreases Arr(items), 0
  {
    var i := p[0].i;
    ExistingWalked(items[i], p[1..]);
    InUnder(p[0], Walk(items[i]), p[1..]);
    assert ItemBlocks(items)[i] == WalkItem(items, i);
    InFlatten(ItemBlocks(items), i, p);
  }

  ghost predicate Distinct(paths: seq<Path>) {
    forall i, j | 0 <= i < j < |paths| :: paths[i] != paths[j]
  }

  ghost predicate BlockUnder(block: seq<Path>, step: D.Step) {
    Distinct(block) && forall p | p in block :: p != [] && p[0] == step
  }

  /** Each block is distinct and lies under its own first step. */
  ghost predicate Separate(blocks: seq<seq<Path>>, steps: seq<D.Step>) {
    && |blocks| == |steps|
    && (forall i, j | 0 <= i < j < |steps| :: steps[i] != steps[j])
    && (forall i | 0 <= i < |blocks| :: BlockUnder(blocks[i], steps[i]))
  }

  lemma {:induction false} FlattenDistinct(blocks: seq<seq<Path>>, steps: seq<D.Step>)
    requires Separate(blocks, steps)
    ensures Distinct(D.Flatten(blocks))
    ensures forall p | p in D.Flatten(blocks) :: p != [] && p[0] in steps
  {
    if blocks != [] {
      var n := |blocks| - 1;
      FlattenDistinct(blocks[..n], steps[..n]);
      var front, last := D.Flatten(blocks[..n]), blocks[n];
      forall i, j | 0 <= i < j < |front + last| ensures (front + last)[i] != (front + last)[j] {
        if i < |front| <= j {
          assert front[i] in front && last[j - |front|] in last;
        }
      }
    }
  }

  lemma UnderDistinct(step: D.Step, paths: seq<Path>)
    requires Distinct(paths)
    ensures BlockUnder(D.Under(step, paths), step)
  {
    var u := D.Under(step, paths);
    forall i, j | 0 <= i < j < |u| ensures u[i] != u[j] {
      assert u[i][1..] == paths[i] && u[j][1..] == paths[j];
    }
  }

  lemma RootDistinct(rest: seq<Path>)
    requires Distinct(rest) && forall p | p in rest :: p != []
    ensures Distinct([[]] + rest)
  {
    var all := [[]] + rest;
    forall i, j | 0 <= i < j < |all| ensures all[i] != all[j] {
      assert all[j] == rest[j - 1] && all[j] in rest;
    }
  }

  /** No location is walked twice. */
  lemma {:induction false} WalkDistinct(j: Json)
    ensures Distinct(Walk(j))
    decreases j, 2
  {
    match j
    case Obj(fields) => ObjectDistinct(fields);
    case Arr(items) => ListDistinct(items);
    case _ =>
  }

  lemma ObjectDistinct(fields: Fields)
    ensures Distinct(Walk(Obj(fields)))
    decreases Obj(fields), 1
  {
    FieldsDistinct(fields);
    SortedLists(fields.Keys);
    KeysDistinct(fields, Sorted(fields.Keys));
  }

  lemma FieldsDistinct(fields: Fields)
    ensures forall k | k in fields :: Distinct(Walk(fields[k]))
    decreases Obj(fields), 0
  {
    forall k | k in fields ensures Distinct(Walk(fields[k])) { WalkDistinct(fields[k]); }
  }

  lemma KeysDistinct(fields: Fields, keys: seq<string>)
    requires Lists(keys, fields.Keys)
    requires forall k | k in fields :: Distinct(Walk(fields[k]))
    ensures Distinct([[]] + D.Flatten(KeyBlocks(fields, keys)))
  {
    var blocks := KeyBlocks(fields, keys);
    var steps := seq(|keys|, i requires 0 <= i < |keys| => D.Key(keys[i]));
    forall i | 0 <= i < |blocks| ensures BlockUnder(blocks[i], steps[i]) {
      assert blocks[i] == WalkKey(fields, keys[i]);
      UnderDistinct(D.Key(keys[i]), Walk(fields[keys[i]]));
    }
    FlattenDistinct(blocks, steps);
    RootDistinct(D.Flatten(blocks));
  }

  lemma ListDistinct(items: seq<Json>)
    ensures Distinct(Walk(Arr(items)))
    decreases Arr(items), 0
  {
    forall i | 0 <= i < |items| ensures Distinct(Walk(items[i])) { WalkDistinct(items[i]); }
    ItemsDistinct(items);
    RootDistinct(D.Flatten(ItemBlocks(items)));
  }

  lemma ItemsDistinct(items: seq<Json>)
    requires forall i | 0 <= i < |items| :: Distinct(Walk(items[i]))
    ensures Distinct(D.Flatten(ItemBlocks(items)))
    ensures forall p | p in D.Flatten(ItemBlocks(items)) :: p != []
  {
    var blocks := ItemBlocks(items);
    var steps := seq(|items|, i requires 0 <= i < |items| => D.Index(i));
    forall i | 0 <= i < |blocks| ensures BlockUnder(blocks[i], steps[i]) {
      assert blocks[i] == WalkItem(items, i);
      UnderDistinct(D.Index(i), Walk(items[i]));
    }
    FlattenDistinct(blocks, steps);
  }

  /** `walk` yields exactly the locations of a document, each once. */
  lemma WalkExact(j: Json, p: Path)
    ensures p in Walk(j) <==> D.Lookup(j, p).Some?
    ensures Distinct(Walk(j))
  {
    if p in Walk(j) { WalkedExists(j, p); }
    if Exists(j, p) { ExistingWalked(j, p); }
    WalkDistinct(j);
  }

  // ---------------------------------------------------------------------------------------
  // Changing one location

  /** What happens at the container a path leads to. */
  datatype Edit = Assign(value: Json) | Pop | Add(key: string, extra: Json)

  function Digits(n: nat): string {
    var last := [('0' as int + n % 10) as char];
    if n < 10 then last else Digits(n / 10) + last
  }

  /** The key a step names in a dictionary; an integer key is written to JSON as its digits. */
  function Name(step: D.Step): string {
    match step
    case Key(k) => k
    case Index(i) => Digits(i)
  }

  function EditObject(fields: Fields, last: D.Step, e: Edit): Fields {
    match e
    case Assign(value) => fields[Name(last) := value]
    case Pop => fields - {Name(last)}
    case Add(key, extra) => fields[key := extra]
  }

  /** A list takes an assignment or a removal only by an index; assigning past its end raises. */
  function EditList(items: seq<Json>, last: D.Step, e: Edit): Option<seq<Json>> {
    match e
    case Add(_, _) => Some(items)
    case Assign(value) => if last.Index? && last.i < |items| then Some(items[last.i := value]) else None
    case Pop =>
      if last.Key? then None
      else Some(if last.i < |items| then items[..last.i] + items[last.i + 1..] else items)
  }

  function EditHere(j: Json, last: D.Step, e: Edit): Option<Json> {
    match j
    case Obj(fields) => Some(Obj(EditObject(fields, last, e)))
    case Arr(items) => (
      match EditList(items, last, e)
      case None => None
      case Some(s) => Some(Arr(s)))
    case _ => if e.Assign? then None else Some(j)
  }

  /** `cursor[step]`; indexing into a text gives one character. */
  function StepInto(j: Json, step: D.Step): Option<Json> {
    match j
    case Obj(fields) => if Name(step) in fields then Some(fields[Name(step)]) else None
    case Arr(items) => if step.Index? && step.i < |items| then Some(items[step.i]) else None
    case Str(s) => if step.Index? && step.i < |s| then Some(Str([s[step.i]])) else None
    case _ => None
  }

  /** The container with a new value at a step that leads somewhere; a text cannot hold one, and none
      is ever made for it. */
  function StepBack(j: Json, step: D.Step, v: Json): Json {
    match j
    case Obj(fields) => Obj(fields[Name(step) := v])
    case Arr(items) => if step.Index? && step.i < |items| then Arr(items[step.i := v]) else j
    case _ => j
  }

  /** `set_path`, `drop_path` and the insertion: follow all but the last step, then edit; None when a
      step or the edit raises, and then nothing has changed. */
  function EditAt(j: Json, p: Path, e: Edit): Option<Json>
    requires p != []
    decreases |p|
  {
    if |p| == 1 then EditHere(j, p[0], e)
    else
      match StepInto(j, p[0])
      case None => None
      case Some(child) => (
        match EditAt(child, p[1..], e)
        case None => None
        case Some(v) => Some(StepBack(j, p[0], v)))
  }

  /** Assigning at a location that exists succeeds, puts the value there, and changes no location that
      is neither above nor below it. */
  lemma {:induction false} AssignFrame(j: Json, p: Path, value: Json, q: Path)
    requires p != [] && Exists(j, p)
    ensures EditAt(j, p, Assign(value)).Some?
    ensures D.Lookup(EditAt(j, p, Assign(value)).value, p) == Some(value)
    ensures D.Apart(p, q) ==> D.Lookup(EditAt(j, p, Assign(value)).value, q) == D.Lookup(j, q)
    decreases |p|
  {
    var tail := if q == [] then [] else q[1..];
    if |p| == 1 {
      assert p[1..] == [] && !D.Apart([], tail);
    } else {
      match p[0]
      case Key(k) => AssignFrame(j.fields[k], p[1..], value, tail);
      case Index(i) => AssignFrame(j.items[i], p[1..], value, tail);
    }
  }

  /** What an edit at a location that exists makes of the document: an assignment puts the value there; a removal
      takes the key or the item away; an insertion adds a key beside it, and does nothing in a list. */
  ghost function Edited(j: Json, p: Path, e: Edit): Json
    requires p != [] && Exists(j, p)
  {
    var parent := p[..|p| - 1];
    match (p[|p| - 1], e)
    case (_, Assign(value)) => D.Put(j, p, Some(value))
    case (Key(_), Pop) => D.Put(j, p, None)
    case (Key(_), Add(key, extra)) => D.Put(j, parent + [D.Key(key)], Some(extra))
    case (Index(i), Pop) => D.Put(j, parent, Some(Without(D.Lookup(j, parent), i)))
    case (Index(_), Add(_, _)) => j
  }

  /** The list without one item. */
  function Without(j: Option<Json>, i: nat): Json {
    if j.Some? && j.value.Arr? && i < |j.value.items|
    then Arr(j.value.items[..i] + j.value.items[i + 1..]) else Null
  }

  /** A step that leads somewhere. */
  predicate Leads(j: Json, step: D.Step) {
    match step
    case Key(k) => j.Obj? && k in j.fields
    case Index(i) => j.Arr? && i < |j.items|
  }

  lemma PutStep(j: Json, step: D.Step, q: Path, v: Option<Json>)
    requires Leads(j, step) && (q != [] || v.Some?)
    ensures StepInto(j, step).Some?
    ensures D.Put(j, [step] + q, v) == StepBack(j, step, D.Put(StepInto(j, step).value, q, v))
  {
    assert ([step] + q)[1..] == q;
  }

  lemma EditedStep(j: Json, p: Path, e: Edit)
    requires |p| > 1 && Exists(j, p)
    ensures Leads(j, p[0]) && StepInto(j, p[0]).Some? && Exists(StepInto(j, p[0]).value, p[1..])
    ensures Edited(j, p, e) == StepBack(j, p[0], Edited(StepInto(j, p[0]).value, p[1..], e))
  {
    var (step, q) := (p[0], p[1..]);
    var (child, parent, last) := (StepInto(j, step).value, q[..|q| - 1], p[|p| - 1]);
    assert p == [step] + q && p[..|p| - 1] == [step] + parent && last == q[|q| - 1];
    assert ([step] + parent)[1..] == parent;
    match (last, e)
    case (_, Assign(value)) => PutStep(j, step, q, Some(value));
    case (Key(_), Pop) => PutStep(j, step, q, None);
    case (Key(_), Add(key, extra)) =>
      PutStep(j, step, parent + [D.Key(key)], Some(extra));
      assert [step] + parent + [D.Key(key)] == [step] + (parent + [D.Key(key)]);
    case (Index(i), Pop) => PutStep(j, step, parent, Some(Without(D.Lookup(child, parent), i)));
    case (Index(_), Add(_, _)) =>
  }

  /** For every document, every location in it and every edit. */
  lemma {:induction false} EditExact(j: Json, p: Path, e: Edit)
    requires p != [] && Exists(j, p)
    ensures EditAt(j, p, e) == Some(Edited(j, p, e))
    decreases |p|
  {
    if |p| == 1 {
      assert p[..0] == [] && p[1..] == [];
      assert forall s: D.Step :: [] + [s] == [s] && [s][1..] == [];
      if p[0].Index? && e.Assign? { assert D.Put(j.items[p[0].i], [], Some(e.value)) == e.value; }
    } else {
      EditedStep(j, p, e);
      EditExact(StepInto(j, p[0]).value, p[1..], e);
    }
  }

  // ---------------------------------------------------------------------------------------
  // mutate

  /** One random choice: a candidate location and what to do there. */
  datatype Choice = Choice(path: Path, edit: Edit)

  /** A walked location outside the protected fields; an inserted key is always "unexpected_" and a digit. */
  predicate Candidate(c: Choice) {
    && c.path != [] && (c.path[0].Key? ==> c.path[0].k !in PROTECTED)
    && (c.edit.Add? ==> c.edit.key !in PROTECTED)
  }

  function Mutated(j: Json, choices: seq<Choice>): Json
    requires forall i | 0 <= i < |choices| :: Candidate(choices[i])
  {
    if choices == [] then j
    else
      var n := |choices| - 1;
      assert Candidate(choices[n]);
      var before := Mutated(j, choices[..n]);
      var after := EditAt(before, choices[n].path, choices[n].edit);
      if after.None? then before else after.value
  }

  /** `mutate` on a copy: an edit that raises is skipped. */
  method Mutate(cfg: Json, choices: seq<Choice>) returns (out: Json)
    requires forall i | 0 <= i < |choices| :: Candidate(choices[i])
    ensures out == Mutated(cfg, choices)
  {
    out := cfg;
    for i := 0 to |choices|
      invariant out == Mutated(cfg, choices[..i])
    {
      assert choices[..i + 1][..i] == choices[..i];
      var after := EditAt(out, choices[i].path, choices[i].edit);
      if after.Some? { out := after.value; }
    }
    assert choices[..|choices|] == choices;
  }

  ghost predicate SameField(a: Fields, b: Fields, k: string) {
    (k in a <==> k in b) && (k in a && k in b ==> a[k] == b[k])
  }

  lemma EditKeepsProtected(fields: Fields, c: Choice, k: string)
    requires Candidate(c) && k in PROTECTED
    ensures var after := EditAt(Obj(fields), c.path, c.edit);
            after.Some? ==> after.value.Obj? && SameField(fields, after.value.fields, k)
  {
    NameFree(c.path[0], k);
  }

  lemma {:induction false} DigitsAreDigits(n: nat)
    ensures Digits(n) != "" && '0' <= Digits(n)[0] <= '9'
  {
    if n >= 10 { DigitsAreDigits(n / 10); }
  }

  lemma NameFree(step: D.Step, k: string)
    requires k in PROTECTED && (step.Key? ==> step.k !in PROTECTED)
    ensures Name(step) != k
  {
    if step.Index? {
      DigitsAreDigits(step.i);
      assert k != "" && k[0] > '9';
    }
  }

  /** For every configuration and all random choices, the protected top-level fields are untouched. */
  lemma {:induction false} ProtectedUntouched(fields: Fields, choices: seq<Choice>, k: string)
    requires forall i | 0 <= i < |choices| :: Candidate(choices[i])
    requires k in {"lan", "trusted_networks", "wifi", "wg_client", "revision", "updated_at"}
    ensures Mutated(Obj(fields), choices).Obj? && SameField(fields, Mutated(Obj(fields), choices).fields, k)
    decreases choices
  {
    if choices != [] {
      var n := |choices| - 1;
      ProtectedUntouched(fields, choices[..n], k);
      EditKeepsProtected(Mutated(Obj(fields), choices[..n]).fields, choices[n], k);
    }
  }
}
