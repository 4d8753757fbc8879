/** The structural difference of two configurations: where they differ, and that the reported places
    are exactly what has to change. */
module Differences {
  import opened Json
  import opened Text

  datatype Step = Key(k: string) | Index(i: nat)

  type Path = seq<Step>

  predicate SameType(a: Json, b: Json) {
    || (a.Null? && b.Null?) || (a.Bool? && b.Bool?) || (a.Int? && b.Int?) || (a.Float? && b.Float?)
    || (a.Str? && b.Str?) || (a.Arr? && b.Arr?) || (a.Obj? && b.Obj?)
  }

  function Under(step: Step, paths: seq<Path>): seq<Path> {
    seq(|paths|, i requires 0 <= i < |paths| => [step] + paths[i])
  }

  function Flatten(blocks: seq<seq<Path>>): seq<Path> {
    if blocks == [] then [] else Flatten(blocks[..|blocks| - 1]) + blocks[|blocks| - 1]
  }

  ghost function KeyPaths(a: Fields, b: Fields, k: string): seq<Path>
    decreases Obj(a), 0
  {
    if k in a && k in b then Under(Key(k), Paths(a[k], b[k])) else [[Key(k)]]
  }

  ghost function ItemPaths(a: seq<Json>, b: seq<Json>, i: nat): seq<Path>
    requires i < |a| == |b|
    decreases Arr(a), 0
  {
    Under(Index(i), Paths(a[i], b[i]))
  }

  ghost function KeyBlocks(a: Fields, b: Fields, keys: seq<string>): seq<seq<Path>>
    decreases Obj(a), 1
  {
    seq(|keys|, i requires 0 <= i < |keys| => KeyPaths(a, b, keys[i]))
  }

  ghost function ItemBlocks(a: seq<Json>, b: seq<Json>): seq<seq<Path>>
    requires |a| == |b|
    decreases Arr(a), 1
  {
    seq(|a|, i requires 0 <= i < |a| => ItemPaths(a, b, i))
  }

  /** The differing places, keys in ascending order. */
  ghost function Paths(a: Json, b: Json): seq<Path>
    decreases a, 2
  {
    if !SameType(a, b) then [[]]
    else match a
      case Obj(fields) => Flatten(KeyBlocks(fields, b.fields, Sorted(fields.Keys + b.fields.Keys)))
      case Arr(items) => if |items| != |b.items| then [[]] else Flatten(ItemBlocks(items, b.items))
      case _ => if a == b then [] else [[]]
  }

  // ---------------------------------------------------------------------------------------
  // Changing a document at a place

  function Lookup(j: Json, p: Path): Option<Json> {
    if p == [] then Some(j)
    else match p[0]
      case Key(k) => if j.Obj? && k in j.fields then Lookup(j.fields[k], p[1..]) else None
      case Index(i) => if j.Arr? && i < |j.items| then Lookup(j.items[i], p[1..]) else None
  }

  /** Replaces or adds the value at a place, or removes a key. */
  function Put(j: Json, p: Path, v: Option<Json>): Json {
    if p == [] then if v.Some? then v.value else j
    else match p[0]
      case Key(k) =>
        if !j.Obj? then j
        else if |p| == 1 then Obj(if v.Some? then j.fields[k := v.value] else j.fields - {k})
        else if k in j.fields then Obj(j.fields[k := Put(j.fields[k], p[1..], v)])
        else j
      case Index(i) =>
        if j.Arr? && i < |j.items| then Arr(j.items[i := Put(j.items[i], p[1..], v)]) else j
  }

  /** Takes over from `b` what it has at each of the places. */
  function PutAll(j: Json, paths: seq<Path>, b: Json): Json {
    if paths == [] then j
    else
      var n := |paths| - 1;
      Put(PutAll(j, paths[..n], b), paths[n], Lookup(b, paths[n]))
  }

  ghost predicate Mends(a: Json, b: Json) {
    PutAll(a, Paths(a, b), b) == b
  }

  // ---------------------------------------------------------------------------------------
  // Taking over the reported places yields the other document

  lemma {:induction false} PutAllAppend(j: Json, p: seq<Path>, q: seq<Path>, b: Json)
    ensures PutAll(j, p + q, b) == PutAll(PutAll(j, p, b), q, b)
  {
    if q == [] {
      assert p + q == p;
    } else {
      var n := |q| - 1;
      assert (p + q)[..|p + q| - 1] == p + q[..n];
      PutAllAppend(j, p, q[..n], b);
    }
  }

  lemma PutKey(f: Fields, k: string, p: Path, b: Fields)
    requires k in f && k in b
    ensures Put(Obj(f), [Key(k)] + p, Lookup(Obj(b), [Key(k)] + p)) == Obj(f[k := Put(f[k], p, Lookup(b[k], p))])
  {
    assert ([Key(k)] + p)[1..] == p;
  }

  lemma {:induction false} PutUnderKey(f: Fields, k: string, paths: seq<Path>, b: Fields)
    requires k in f && k in b
    ensures PutAll(Obj(f), Under(Key(k), paths), Obj(b)) == Obj(f[k := PutAll(f[k], paths, b[k])])
  {
    var u := Under(Key(k), paths);
    if paths == [] {
      assert f[k := f[k]] == f;
    } else {
      var n := |paths| - 1;
      assert u[..n] == Under(Key(k), paths[..n]);
      PutUnderKey(f, k, paths[..n], b);
      var inner := PutAll(f[k], paths[..n], b[k]);
      PutKey(f[k := inner], k, paths[n], b);
      assert f[k := inner][k := PutAll(f[k], paths, b[k])] == f[k := PutAll(f[k], paths, b[k])];
    }
  }

  lemma PutItem(s: seq<Json>, i: nat, p: Path, b: seq<Json>)
    requires i < |s| == |b|
    ensures Put(Arr(s), [Index(i)] + p, Lookup(Arr(b), [Index(i)] + p)) == Arr(s[i := Put(s[i], p, Lookup(b[i], p))])
  {
    assert ([Index(i)] + p)[1..] == p;
  }

  lemma {:induction false} PutUnderItem(s: seq<Json>, i: nat, paths: seq<Path>, b: seq<Json>)
    requires i < |s| == |b|
    ensures PutAll(Arr(s), Under(Index(i), paths), Arr(b)) == Arr(s[i := PutAll(s[i], paths, b[i])])
  {
    var u := Under(Index(i), paths);
    if paths == [] {
      assert s[i := s[i]] == s;
    } else {
      var n := |paths| - 1;
      assert u[..n] == Under(Index(i), paths[..n]);
      PutUnderItem(s, i, paths[..n], b);
      var inner := PutAll(s[i], paths[..n], b[i]);
      PutItem(s[i := inner], i, paths[n], b);
      assert s[i := inner][i := PutAll(s[i], paths, b[i])] == s[i := PutAll(s[i], paths, b[i])];
    }
  }

  /** The object with the given keys already as in `b`. */
  ghost function Mixed(a: Fields, b: Fields, keys: seq<string>): Fields {
    map k | k in a.Keys + b.Keys && (if k in keys then k in b else k in a) :: if k in keys then b[k] else a[k]
  }

  lemma MixedStep(a: Fields, b: Fields, keys: seq<string>, k: string)
    requires k !in keys && (k in a || k in b)
    ensures Mixed(a, b, keys + [k]) == if k in b then Mixed(a, b, keys)[k := b[k]] else Mixed(a, b, keys) - {k}
  {
  }

  /** One key's block brings exactly that key over. */
  lemma KeyMended(a: Fields, b: Fields, keys: seq<string>, k: string)
    requires k !in keys && (k in a || k in b)
    requires k in a && k in b ==> Mends(a[k], b[k])
    ensures PutAll(Obj(Mixed(a, b, keys)), KeyPaths(a, b, k), Obj(b)) == Obj(Mixed(a, b, keys + [k]))
  {
    var f := Mixed(a, b, keys);
    MixedStep(a, b, keys, k);
    if k in a && k in b {
      assert f[k] == a[k];
      PutUnderKey(f, k, Paths(a[k], b[k]), b);
    } else {
      var p: Path := [Key(k)];
      assert PutAll(Obj(f), [p], Obj(b)) == Put(Obj(f), p, Lookup(Obj(b), p)) by { assert [p][..0] == []; }
      if k in b { assert Lookup(Obj(b), p) == Some(b[k]) by { assert p[1..] == []; } }
    }
  }

  lemma {:induction false} KeysMended(a: Fields, b: Fields, keys: seq<string>)
    requires forall i | 0 <= i < |keys| :: keys[i] in a || keys[i] in b
    requires forall i, j | 0 <= i < j < |keys| :: keys[i] != keys[j]
    requires forall k | k in a && k in b :: Mends(a[k], b[k])
    ensures PutAll(Obj(a), Flatten(KeyBlocks(a, b, keys)), Obj(b)) == Obj(Mixed(a, b, keys))
    decreases keys
  {
    if keys == [] {
      assert Mixed(a, b, keys) == a;
    } else {
      var n := |keys| - 1;
      assert keys == keys[..n] + [keys[n]];
      KeyBlockNext(a, b, keys[..n], keys[n]);
      KeysMended(a, b, keys[..n]);
      KeyMended(a, b, keys[..n], keys[n]);
      PutAllAppend(Obj(a), Flatten(KeyBlocks(a, b, keys[..n])), KeyPaths(a, b, keys[n]), Obj(b));
    }
  }

  lemma {:induction false} ItemsMended(a: seq<Json>, b: seq<Json>, n: nat)
    requires n <= |a| == |b| && forall i | 0 <= i < |a| :: Mends(a[i], b[i])
    ensures PutAll(Arr(a), Flatten(ItemBlocks(a, b)[..n]), Arr(b)) == Arr(b[..n] + a[n..])
    decreases n
  {
    if n == 0 {
      assert b[..0] + a[0..] == a;
    } else {
      var m := n - 1;
      ItemsMended(a, b, m);
      ItemBlockNext(a, b, m);
      PutAllAppend(Arr(a), Flatten(ItemBlocks(a, b)[..m]), ItemPaths(a, b, m), Arr(b));
      ItemMended(a, b, m);
    }
  }

  /** One item's block brings exactly that item over. */
  lemma ItemMended(a: seq<Json>, b: seq<Json>, m: nat)
    requires m < |a| == |b| && Mends(a[m], b[m])
    ensures PutAll(Arr(b[..m] + a[m..]), ItemPaths(a, b, m), Arr(b)) == Arr(b[..m + 1] + a[m + 1..])
  {
    var s := b[..m] + a[m..];
    assert s[m] == a[m];
    PutUnderItem(s, m, Paths(a[m], b[m]), b);
    assert s[m := b[m]] == b[..m + 1] + a[m + 1..];
  }

  lemma MixedAll(a: Fields, b: Fields, keys: seq<string>)
    requires forall k | k in a || k in b :: k in keys
    ensures Mixed(a, b, keys) == b
  {
  }

  lemma ObjectMended(a: Fields, b: Fields, keys: seq<string>)
    requires forall k :: k in keys <==> k in a || k in b
    requires forall i, j | 0 <= i < j < |keys| :: keys[i] != keys[j]
    requires forall k | k in a && k in b :: Mends(a[k], b[k])
    ensures PutAll(Obj(a), Flatten(KeyBlocks(a, b, keys)), Obj(b)) == Obj(b)
  {
    KeysMended(a, b, keys);
    MixedAll(a, b, keys);
  }

  lemma ListMended(a: seq<Json>, b: seq<Json>)
    requires |a| == |b| && forall i | 0 <= i < |a| :: Mends(a[i], b[i])
    ensures Mends(Arr(a), Arr(b))
  {
    ItemsMended(a, b, |a|);
    assert ItemBlocks(a, b)[..|a|] == ItemBlocks(a, b);
    assert b[..|a|] + a[|a|..] == b;
  }

  lemma ReportedHere(a: Json, b: Json)
    requires Paths(a, b) == [[]] || (a == b && Paths(a, b) == [])
    ensures Mends(a, b)
  {
    if Paths(a, b) == [[]] {
      var whole: seq<Path> := [[]];
      assert whole[..0] == [];
      assert PutAll(a, whole, b) == Put(a, [], Some(b));
    }
  }

  /** Replacing, adding or removing only the reported places of `a` yields exactly `b`. */
  lemma {:induction false} ReportedSuffices(a: Json, b: Json)
    ensures PutAll(a, Paths(a, b), b) == b
    decreases a
  {
    if a.Obj? && b.Obj? {
      forall k | k in a.fields && k in b.fields ensures Mends(a.fields[k], b.fields[k]) {
        ReportedSuffices(a.fields[k], b.fields[k]);
      }
      ObjectMended(a.fields, b.fields, Sorted(a.fields.Keys + b.fields.Keys));
    } else if a.Arr? && b.Arr? && |a.items| == |b.items| {
      forall i | 0 <= i < |a.items| ensures Mends(a.items[i], b.items[i]) {
        ReportedSuffices(a.items[i], b.items[i]);
      }
      ListMended(a.items, b.items);
    } else {
      ReportedHere(a, b);
    }
  }

  // ---------------------------------------------------------------------------------------
  // Nothing else is reported

  ghost predicate Differs(a: Json, b: Json, p: Path) {
    Lookup(a, p) != Lookup(b, p)
  }

  lemma {:induction false} FromBlock(blocks: seq<seq<Path>>, p: Path) returns (i: nat)
    requires p in Flatten(blocks)
    ensures i < |blocks| && p in blocks[i]
  {
    i := |blocks| - 1;
    if p !in blocks[i] {
      i := FromBlock(blocks[..i], p);
    }
  }

  lemma FromUnder(step: Step, paths: seq<Path>, p: Path) returns (q: Path)
    requires p in Under(step, paths)
    ensures q in paths && p == [step] + q && p[0] == step && p[1..] == q
  {
    var i :| 0 <= i < |paths| && Under(step, paths)[i] == p;
    q := paths[i];
  }

  lemma KeyDiffers(a: Fields, b: Fields, k: string, p: Path)
    requires (k in a || k in b) && p in KeyPaths(a, b, k)
    requires k in a && k in b ==> forall q | q in Paths(a[k], b[k]) :: Differs(a[k], b[k], q)
    ensures Differs(Obj(a), Obj(b), p)
  {
    if k in a && k in b {
      var q := FromUnder(Key(k), Paths(a[k], b[k]), p);
      assert Differs(a[k], b[k], q);
    } else {
      assert p == [Key(k)] && p[1..] == [];
    }
  }

  lemma ItemDiffers(a: seq<Json>, b: seq<Json>, i: nat, p: Path)
    requires i < |a| == |b| && p in ItemPaths(a, b, i)
    requires forall q | q in Paths(a[i], b[i]) :: Differs(a[i], b[i], q)
    ensures Differs(Arr(a), Arr(b), p)
  {
    var q := FromUnder(Index(i), Paths(a[i], b[i]), p);
    assert Differs(a[i], b[i], q);
  }

  /** Every reported place really differs. */
  lemma {:induction false} ReportedDiffers(a: Json, b: Json, p: Path)
    requires p in Paths(a, b)
    ensures Lookup(a, p) != Lookup(b, p)
    decreases a, 1
  {
    if a.Obj? && b.Obj? {
      KeysDiffer(a.fields, b.fields, Sorted(a.fields.Keys + b.fields.Keys), p);
    } else if a.Arr? && b.Arr? && |a.items| == |b.items| {
      ItemsDiffer(a.items, b.items, p);
    }
  }

  lemma KeysDiffer(a: Fields, b: Fields, keys: seq<string>, p: Path)
    requires (forall i | 0 <= i < |keys| :: keys[i] in a || keys[i] in b) && p in Flatten(KeyBlocks(a, b, keys))
    ensures Differs(Obj(a), Obj(b), p)
    decreases Obj(a), 0
  {
    var n := FromBlock(KeyBlocks(a, b, keys), p);
    var k := keys[n];
    if k in a && k in b {
      forall q | q in Paths(a[k], b[k]) ensures Differs(a[k], b[k], q) { ReportedDiffers(a[k], b[k], q); }
    }
    KeyDiffers(a, b, k, p);
  }

  lemma ItemsDiffer(a: seq<Json>, b: seq<Json>, p: Path)
    requires |a| == |b| && p in Flatten(ItemBlocks(a, b))
    ensures Differs(Arr(a), Arr(b), p)
    decreases Arr(a), 0
  {
    var i := FromBlock(ItemBlocks(a, b), p);
    forall q | q in Paths(a[i], b[i]) ensures Differs(a[i], b[i], q) { ReportedDiffers(a[i], b[i], q); }
    ItemDiffers(a, b, i, p);
  }

  // ---------------------------------------------------------------------------------------
  // Nothing reported can be left out

  /** Two places of which neither lies at or below the other. */
  predicate Apart(p: Path, q: Path) {
    p != [] && q != [] && (p[0] != q[0] || Apart(p[1..], q[1..]))
  }

  lemma UnderApart(step: Step, paths: seq<Path>, p: Path, q: Path)
    requires p in Under(step, paths) && q in Under(step, paths) && p != q
    requires forall x, y | x in paths && y in paths && x != y :: Apart(x, y)
    ensures Apart(p, q)
  {
    var x := FromUnder(step, paths, p);
    var y := FromUnder(step, paths, q);
    assert x != y && Apart(x, y);
  }

  /** A key's block lies under that key. */
  lemma KeyBlockStarts(a: Fields, b: Fields, k: string, p: Path)
    requires p in KeyPaths(a, b, k)
    ensures p != [] && p[0] == Key(k)
  {
    if k in a && k in b { var _ := FromUnder(Key(k), Paths(a[k], b[k]), p); }
  }

  lemma KeysApart(a: Fields, b: Fields, keys: seq<string>, p: Path, q: Path)
    requires p in Flatten(KeyBlocks(a, b, keys)) && q in Flatten(KeyBlocks(a, b, keys)) && p != q
    ensures Apart(p, q)
    decreases Obj(a), 0
  {
    var m := FromBlock(KeyBlocks(a, b, keys), p);
    var n := FromBlock(KeyBlocks(a, b, keys), q);
    KeyBlockStarts(a, b, keys[m], p);
    KeyBlockStarts(a, b, keys[n], q);
    if keys[m] == keys[n] {
      var k := keys[m];
      if k in a && k in b {
        forall x, y | x in Paths(a[k], b[k]) && y in Paths(a[k], b[k]) && x != y ensures Apart(x, y) {
          ReportedApart(a[k], b[k], x, y);
        }
        UnderApart(Key(k), Paths(a[k], b[k]), p, q);
      }
    }
  }

  lemma ItemsApart(a: seq<Json>, b: seq<Json>, p: Path, q: Path)
    requires |a| == |b| && p in Flatten(ItemBlocks(a, b)) && q in Flatten(ItemBlocks(a, b)) && p != q
    ensures Apart(p, q)
    decreases Arr(a), 0
  {
    var m := FromBlock(ItemBlocks(a, b), p);
    var n := FromBlock(ItemBlocks(a, b), q);
    var _ := FromUnder(Index(m), Paths(a[m], b[m]), p);
    var _ := FromUnder(Index(n), Paths(a[n], b[n]), q);
    if m == n {
      forall x, y | x in Paths(a[m], b[m]) && y in Paths(a[m], b[m]) && x != y ensures Apart(x, y) {
        ReportedApart(a[m], b[m], x, y);
      }
      UnderApart(Index(m), Paths(a[m], b[m]), p, q);
    }
  }

  /** Reported places are pairwise apart. */
  lemma {:induction false} ReportedApart(a: Json, b: Json, p: Path, q: Path)
    requires p in Paths(a, b) && q in Paths(a, b) && p != q
    ensures Apart(p, q)
    decreases a, 1
  {
    if a.Obj? && b.Obj? {
      KeysApart(a.fields, b.fields, Sorted(a.fields.Keys + b.fields.Keys), p, q);
    } else if a.Arr? && b.Arr? && |a.items| == |b.items| {
      ItemsApart(a.items, b.items, p, q);
    }
  }

  /** A change at one place leaves the places apart from it. */
  lemma {:induction false} PutFrame(j: Json, q: Path, v: Option<Json>, p: Path)
    requires Apart(p, q)
    ensures Lookup(Put(j, q, v), p) == Lookup(j, p)
    decreases |q|
  {
    if p[0] == q[0] && |q| > 1 {
      match q[0]
      case Key(k) => if j.Obj? && k in j.fields { PutFrame(j.fields[k], q[1..], v, p[1..]); }
      case Index(i) => if j.Arr? && i < |j.items| { PutFrame(j.items[i], q[1..], v, p[1..]); }
    }
  }

  lemma {:induction false} PutAllFrame(j: Json, some: seq<Path>, b: Json, p: Path)
    requires forall q | q in some :: Apart(p, q)
    ensures Lookup(PutAll(j, some, b), p) == Lookup(j, p)
    decreases some
  {
    if some != [] {
      var n := |some| - 1;
      PutAllFrame(j, some[..n], b, p);
      PutFrame(PutAll(j, some[..n], b), some[n], Lookup(b, some[n]), p);
    }
  }

  /** Each reported place is needed: taking over any of the others, in any order and number, never
      yields `b`. */
  lemma ReportedNeeded(a: Json, b: Json, p: Path, some: seq<Path>)
    requires p in Paths(a, b) && forall q | q in some :: q in Paths(a, b) && q != p
    ensures PutAll(a, some, b) != b
  {
    forall q | q in some ensures Apart(p, q) { ReportedApart(a, b, p, q); }
    PutAllFrame(a, some, b, p);
    ReportedDiffers(a, b, p);
  }

  /** Nothing is reported exactly when the documents are equal, types included. */
  lemma EmptyIffEqual(a: Json, b: Json)
    ensures Paths(a, b) == [] <==> a == b
  {
    ReportedSuffices(a, b);
    if a == b && Paths(a, b) != [] {
      ReportedDiffers(a, b, Paths(a, b)[0]);
      assert false;
    }
  }

  lemma KeyBlocksSymmetric(a: Fields, b: Fields, keys: seq<string>)
    requires forall k | k in a && k in b :: Paths(a[k], b[k]) == Paths(b[k], a[k])
    ensures KeyBlocks(a, b, keys) == KeyBlocks(b, a, keys)
  {
    forall i | 0 <= i < |keys| ensures KeyPaths(a, b, keys[i]) == KeyPaths(b, a, keys[i]) {
    }
  }

  lemma ItemBlocksSymmetric(a: seq<Json>, b: seq<Json>)
    requires |a| == |b| && forall i | 0 <= i < |a| :: Paths(a[i], b[i]) == Paths(b[i], a[i])
    ensures ItemBlocks(a, b) == ItemBlocks(b, a)
  {
    forall i | 0 <= i < |a| ensures ItemPaths(a, b, i) == ItemPaths(b, a, i) {
    }
  }

  /** The report does not depend on which document came first. */
  lemma {:induction false} ReportSymmetric(a: Json, b: Json)
    ensures Paths(a, b) == Paths(b, a)
    decreases a
  {
    if a.Obj? && b.Obj? {
      forall k | k in a.fields && k in b.fields
        ensures Paths(a.fields[k], b.fields[k]) == Paths(b.fields[k], a.fields[k])
      {
        ReportSymmetric(a.fields[k], b.fields[k]);
      }
      assert a.fields.Keys + b.fields.Keys == b.fields.Keys + a.fields.Keys;
      KeyBlocksSymmetric(a.fields, b.fields, Sorted(a.fields.Keys + b.fields.Keys));
    } else if a.Arr? && b.Arr? && |a.items| == |b.items| {
      forall i | 0 <= i < |a.items| ensures Paths(a.items[i], b.items[i]) == Paths(b.items[i], a.items[i]) {
        ReportSymmetric(a.items[i], b.items[i]);
      }
      ItemBlocksSymmetric(a.items, b.items);
    }
  }

  // ---------------------------------------------------------------------------------------
  // As written

  /** `changed_paths`. */
  method ChangedPaths(before: Json, after: Json) returns (result: seq<Path>)
    ensures result == Paths(before, after)
    decreases before, 1
  {
    if !SameType(before, after) { return [[]]; }
    match before
    case Obj(fields) => result := ChangedKeys(fields, after.fields);
    case Arr(items) =>
      if |items| != |after.items| { return [[]]; }
      result := ChangedItems(items, after.items);
    case _ => return if before == after then [] else [[]];
  }

  method ChangedKeys(a: Fields, b: Fields) returns (result: seq<Path>)
    ensures result == Flatten(KeyBlocks(a, b, Sorted(a.Keys + b.Keys)))
    decreases Obj(a), 0
  {
    result := [];
    ghost var keys: seq<string> := [];
    var todo := a.Keys + b.Keys;
    ReportStart(a, b);
    while todo != {}
      invariant ReportSoFar(a, b, keys, todo, result)
      decreases todo
    {
      var key := Least(todo);
      ReportNext(a, b, keys, todo, result, key);
      if key !in a || key !in b {
        result := result + [[Key(key)]];
      } else {
        var inner := ChangedPaths(a[key], b[key]);
        result := result + Under(Key(key), inner);
      }
      keys := keys + [key];
      todo := todo - {key};
    }
    ReportDone(a, b, keys, result);
  }

  /** The first keys have been compared, in order, and the others are still to come. */
  ghost predicate ReportSoFar(a: Fields, b: Fields, keys: seq<string>, todo: set<string>, result: seq<Path>) {
    keys + Sorted(todo) == Sorted(a.Keys + b.Keys) && result == Flatten(KeyBlocks(a, b, keys))
  }

  lemma ReportStart(a: Fields, b: Fields)
    ensures ReportSoFar(a, b, [], a.Keys + b.Keys, [])
  {
    Shifted([], Sorted(a.Keys + b.Keys));
  }

  lemma ReportNext(a: Fields, b: Fields, keys: seq<string>, todo: set<string>, result: seq<Path>, k: string)
    requires ReportSoFar(a, b, keys, todo, result) && todo != {} && IsLeast(k, todo)
    ensures ReportSoFar(a, b, keys + [k], todo - {k}, result + KeyPaths(a, b, k))
  {
    SortedNext(todo, k);
    Shift(keys, k, Sorted(todo - {k}));
    KeyBlockNext(a, b, keys, k);
  }

  lemma ReportDone(a: Fields, b: Fields, keys: seq<string>, result: seq<Path>)
    requires ReportSoFar(a, b, keys, {}, result)
    ensures result == Flatten(KeyBlocks(a, b, Sorted(a.Keys + b.Keys)))
  {
    assert keys + [] == keys;
  }

  method ChangedItems(a: seq<Json>, b: seq<Json>) returns (result: seq<Path>)
    requires |a| == |b|
    ensures result == Flatten(ItemBlocks(a, b))
    decreases Arr(a), 0
  {
    result := [];
    for i := 0 to |a|
      invariant result == Flatten(ItemBlocks(a, b)[..i])
    {
      ItemBlockNext(a, b, i);
      var inner := ChangedPaths(a[i], b[i]);
      result := result + Under(Index(i), inner);
    }
    assert ItemBlocks(a, b)[..|a|] == ItemBlocks(a, b);
  }

  lemma Shifted<T>(front: seq<T>, back: seq<T>)
    requires front == []
    ensures front + back == back
  {
  }

  lemma KeyBlockNext(a: Fields, b: Fields, keys: seq<string>, k: string)
    ensures Flatten(KeyBlocks(a, b, keys + [k])) == Flatten(KeyBlocks(a, b, keys)) + KeyPaths(a, b, k)
  {
    assert KeyBlocks(a, b, keys + [k])[..|keys|] == KeyBlocks(a, b, keys);
  }

  lemma ItemBlockNext(a: seq<Json>, b: seq<Json>, i: nat)
    requires i < |a| == |b|
    ensures Flatten(ItemBlocks(a, b)[..i + 1]) == Flatten(ItemBlocks(a, b)[..i]) + ItemPaths(a, b, i)
  {
    assert ItemBlocks(a, b)[..i + 1][..i] == ItemBlocks(a, b)[..i];
  }

  /** `require_unchanged`: raises (false) exactly when the documents differ. */
  method RequireUnchanged(before: Json, after: Json) returns (ok: bool)
    ensures ok <==> before == after
  {
    var paths := ChangedPaths(before, after);
    EmptyIffEqual(before, after);
    return paths == [];
  }
}
