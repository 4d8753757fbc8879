/** Two accepted listings have the same canonical form exactly when finitely many permitted
    rewrites lead from one to the other. */
module FirewallTrace {
  import opened Json
  import opened Reachability
  import opened CounterReadings
  import opened Rewriting
  import opened Firewall

  // ---------------------------------------------------------------------------------------
  // A permitted change of one item is not read

  lemma HereWithoutHandle(a: Fields, b: Fields, r: string)
    requires r in READINGS && HereStep(a, b, r)
    ensures HereStep(a - {"handle"}, b - {"handle"}, r)
  {
    OtherFields(a, b, r);
    assert (a - {"handle"}) - {r} == (b - {"handle"}) - {r};
  }

  lemma FieldWithoutHandle(a: Fields, b: Fields, k: string)
    requires SameBut(a, b, k) && k != "handle"
    ensures SameBut(a - {"handle"}, b - {"handle"}, k)
  {
    var (x, y) := (a - {"handle"}, b - {"handle"});
    assert y == x[k := y[k]];
  }

  /** Dropping the handle commutes with a change of a reading. */
  lemma StepWithoutHandle(a: Fields, b: Fields, inCounter: bool)
    requires ReadingStep(Obj(a), Obj(b), inCounter)
    ensures a - {"handle"} == b - {"handle"} || ReadingStep(Obj(a - {"handle"}), Obj(b - {"handle"}), inCounter)
  {
    if inCounter && exists r :: r in READINGS && HereStep(a, b, r) {
      var r :| r in READINGS && HereStep(a, b, r);
      HereWithoutHandle(a, b, r);
    } else {
      var k :| SameBut(a, b, k) && !(inCounter && k in READINGS) && ReadingStep(a[k], b[k], k == "counter");
      if k == "handle" {
        assert a - {"handle"} == b - {"handle"};
      } else {
        FieldWithoutHandle(a, b, k);
      }
    }
  }

  /** A change of a reading never touches a scalar field. */
  lemma StepKeepsScalars(a: Fields, b: Fields, inCounter: bool, key: string)
    requires ReadingStep(Obj(a), Obj(b), inCounter) && key !in READINGS
    ensures Blur(Get(a, key)) == Blur(Get(b, key))
  {
    if inCounter && exists r :: r in READINGS && HereStep(a, b, r) {
      var r :| r in READINGS && HereStep(a, b, r);
      OtherFields(a, b, r);
    } else {
      var k :| SameBut(a, b, k) && !(inCounter && k in READINGS) && ReadingStep(a[k], b[k], k == "counter");
      if key != k { assert Get(a, key) == Get(b, key); }
    }
  }

  lemma SameTable(a: Fields, b: Fields, inCounter: bool)
    requires ReadingStep(Obj(a), Obj(b), inCounter)
    ensures TableOf(Get(a, "family"), Get(a, "table")) == TableOf(Get(b, "family"), Get(b, "table"))
  {
    StepKeepsScalars(a, b, inCounter, "family");
    StepKeepsScalars(a, b, inCounter, "table");
  }

  lemma CounterStepUnread(kind: string, a: Fields, b: Fields)
    requires kind != "table" && ReadingStep(Obj(a), Obj(b), kind == "counter")
    ensures Normalise(ReadBody(kind, a - {"handle"})) == Normalise(ReadBody(kind, b - {"handle"}))
  {
    var (x, y) := (a - {"handle"}, b - {"handle"});
    StepWithoutHandle(a, b, kind == "counter");
    if x != y {
      SameTable(x, y, kind == "counter");
      ReadingStepForgotten(Obj(x), Obj(y), kind == "counter");
    }
  }

  lemma ItemStepUnread(x: Json, y: Json)
    requires ItemStep(x, y)
    ensures Read(x) == Read(y)
  {
    if !HandleStep(x, y) && x.Obj? {
      var k :| SameBut(x.fields, y.fields, k) && ReadingStep(x.fields[k], y.fields[k], k == "counter");
      assert x.fields.Keys == y.fields.Keys;
      assert |x.fields| == |x.fields.Keys| == |y.fields|;
      if |x.fields| == 1 && x.fields[k].Obj? {
        CounterStepUnread(k, x.fields[k].fields, y.fields[k].fields);
      }
    }
  }

  lemma ItemStepSymmetric(x: Json, y: Json)
    requires ItemStep(x, y)
    ensures ItemStep(y, x)
  {
    if HandleStep(x, y) {
      assert HandleStep(y, x);
    } else {
      ReadingStepSymmetric(x, y, false);
      if x.Obj? {
        var k :| SameBut(x.fields, y.fields, k) && ReadingStep(x.fields[k], y.fields[k], k == "counter");
        assert x.fields.Keys == y.fields.Keys;
      }
      assert CounterStep(y, x);
    }
  }

  // ---------------------------------------------------------------------------------------
  // Permitted changes lead every item to its normal form

  lemma BareReached(item: Json)
    requires Read(item).Kept?
    ensures Reach(Nft().change, item, ToJson(ReadRaw(item).entry))
  {
    var kind := OnlyKey(item.fields);
    var body := item.fields[kind].fields - {"handle"};
    var bare := ToJson(ReadRaw(item).entry);
    assert bare.fields == map[kind := Obj(body)];
    assert |bare.fields| == 1 && OnlyKey(bare.fields) == kind;
    assert body - {"handle"} == body;
    assert HandleStep(item, bare);
    One(Nft().change, item, bare);
  }

  lemma NormalReachedFromBare(e: Entry)
    requires Normalises(e)
    ensures Reach(Nft().change, ToJson(e), ToJson(Normal(e)))
  {
    if e.kind == "table" {
      Stay(Nft().change, ToJson(e));
    } else {
      var inCounter := e.kind == "counter";
      assert Reach(Readings(inCounter), Obj(e.body), Obj(Normal(e).body)) by { StripReached(Obj(e.body), inCounter); }
      var f := (x: Json) => Obj(map[e.kind := x]);
      forall x, y | Readings(inCounter)(x, y) ensures Nft().change(f(x), f(y)) {
        assert SameBut(f(x).fields, f(y).fields, e.kind);
        assert ReadingStep(f(x).fields[e.kind], f(y).fields[e.kind], inCounter);
        assert ReadingStep(f(x), f(y), false);
        assert CounterStep(f(x), f(y));
      }
      Lift(Readings(inCounter), Nft().change, f, Obj(e.body), Obj(Normal(e).body));
    }
  }

  lemma ItemReached(item: Json)
    requires Read(item).Kept?
    ensures Reach(Nft().change, item, ToJson(Read(item).entry))
  {
    var raw := ReadRaw(item).entry;
    BareReached(item);
    NormalReachedFromBare(raw);
    Transitive(Nft().change, item, ToJson(raw), ToJson(Normal(raw)));
  }

  lemma NftLawful()
    ensures Lawful(Nft())
  {
    var r := Nft();
    forall x, y | r.change(x, y) ensures r.change(y, x) && r.read(x) == r.read(y) {
      ItemStepSymmetric(x, y);
      ItemStepUnread(x, y);
    }
    forall x | r.read(x).Kept? ensures Reach(r.change, x, r.show(r.read(x).entry)) { ItemReached(x); }
  }

  // ---------------------------------------------------------------------------------------
  // Swapping entries keeps acceptance

  lemma NoClashSwap(p: seq<Facts>, x: Facts, y: Facts, s: seq<Facts>)
    requires NoClash(p + [x, y] + s)
    ensures NoClash(p + [y, x] + s)
  {
    var (a, b, n) := (p + [x, y] + s, p + [y, x] + s, |p|);
    forall i, j | 0 <= i < j < |b| ensures !Clash(b[i], b[j]) {
      var u := if i == n then n + 1 else if i == n + 1 then n else i;
      var v := if j == n then n + 1 else if j == n + 1 then n else j;
      assert b[i] == a[u] && b[j] == a[v];
      assert if u < v then !Clash(a[u], a[v]) else !Clash(a[v], a[u]);
    }
  }

  lemma WellFormedSwap(p: seq<Facts>, x: Facts, y: Facts, s: seq<Facts>)
    requires WellFormed(p + [x, y] + s)
    ensures WellFormed(p + [y, x] + s)
  {
    NoClashSwap(p, x, y, s);
    assert FactSet(p + [x, y] + s) == FactSet(p + [y, x] + s);
  }

  lemma FactsInContext(p: seq<Entry>, x: Entry, y: Entry, s: seq<Entry>)
    ensures AllFacts(p + [x, y] + s) == AllFacts(p) + [FactsOf(x), FactsOf(y)] + AllFacts(s)
  {
  }

  lemma WellFormedStep(a: seq<Entry>, b: seq<Entry>)
    requires WellFormed(AllFacts(a)) && EntryStep(BlockOf, a, b)
    ensures WellFormed(AllFacts(b))
  {
    if a != b {
      var p, x, y, s :| EntrySwap(BlockOf, p, x, y, s, a, b);
      FactsInContext(p, x, y, s);
      FactsInContext(p, y, x, s);
      WellFormedSwap(AllFacts(p), FactsOf(x), FactsOf(y), AllFacts(s));
    }
  }

  // ---------------------------------------------------------------------------------------
  // Main results

  /** The listing of a canonical form: the main table's objects, then the pause table's. */
  ghost function Relist(items: seq<Json>): seq<Json> {
    Listing(EntriesOf(items), Main) + Listing(EntriesOf(items), Pause)
  }

  lemma RelistIsSorted(items: seq<Json>)
    ensures Relist(items) == ShowAll(Nft(), Sort(BlockOf, EntriesOf(items), 4))
  {
    ShowFour(Nft(), EntriesOf(items));
  }

  lemma RelistReached(items: seq<Json>)
    requires Readable(Read, items)
    ensures Reach(Steps(Nft()), items, Relist(items))
  {
    NftLawful();
    RelistIsSorted(items);
    NormalReached(Nft(), items, 4);
  }

  /** No run of permitted rewrites leaves the accepted listings or changes the form. */
  lemma ReachSound(a: seq<Json>, b: seq<Json>)
    requires Accepted(a) && Reach(Steps(Nft()), a, b)
    ensures Accepted(b) && Form(b) == Form(a)
  {
    NftLawful();
    var keep := (es: seq<Entry>) => WellFormed(AllFacts(es));
    forall x, y | keep(x) && EntryStep(Nft().block, x, y) ensures keep(y) { WellFormedStep(x, y); }
    ReachKeeps(Nft(), keep, a, b, 0);
    ReachKeeps(Nft(), keep, a, b, 1);
    ReachKeeps(Nft(), keep, a, b, 2);
    ReachKeeps(Nft(), keep, a, b, 3);
  }

  /** Equal canonical forms exactly when the permitted rewrites connect the two listings. */
  lemma TraceEquivalence(a: seq<Json>, b: seq<Json>)
    requires Accepted(a) && Accepted(b)
    ensures Form(a) == Form(b) <==> Reach(Steps(Nft()), a, b)
  {
    if Form(a) == Form(b) {
      FormGivesRelist(a, b);
      RelistReached(a);
      RelistReached(b);
      NftLawful();
      Connected(Nft(), a, b, Relist(a));
    }
    if Reach(Steps(Nft()), a, b) {
      ReachSound(a, b);
    }
  }

  lemma FormGivesRelist(a: seq<Json>, b: seq<Json>)
    requires Form(a) == Form(b)
    ensures Relist(a) == Relist(b)
  {
    var (x, y) := (Form(a).fields["tables"].items, Form(b).fields["tables"].items);
    assert x[0] == y[0] && x[1] == y[1];
  }

  /** Listing a canonical form again and canonicalising it gives the same form. */
  lemma RelistCanonical(a: seq<Json>)
    requires Accepted(a)
    ensures Accepted(Relist(a)) && Form(Relist(a)) == Form(a)
  {
    RelistReached(a);
    ReachSound(a, Relist(a));
  }

  /** Equal forms list the same entries in the same order, block by block. */
  lemma FormFixesBlocks(a: seq<Json>, b: seq<Json>, k: nat)
    requires Accepted(a) && Accepted(b) && Form(a) == Form(b)
    ensures Block(BlockOf, EntriesOf(a), k) == Block(BlockOf, EntriesOf(b), k)
  {
    TraceEquivalence(a, b);
    NftLawful();
    ReachKeeps(Nft(), es => true, a, b, k);
  }

  /** Reordering two different objects of one table is seen, whatever else the listing holds. */
  lemma ReorderSeen(a: seq<Json>, b: seq<Json>, p: seq<Entry>, x: Entry, y: Entry, s: seq<Entry>)
    requires Accepted(a) && Accepted(b)
    requires EntriesOf(a) == p + [x, y] + s && EntriesOf(b) == p + [y, x] + s
    requires BlockOf(x) == BlockOf(y) && x != y
    ensures Form(a) != Form(b)
  {
    BlockSeesSwap(BlockOf, p, x, y, s);
    if Form(a) == Form(b) { FormFixesBlocks(a, b, BlockOf(x)); }
  }

  /** Removing or adding an object anywhere is seen. */
  lemma RemovalSeen(a: seq<Json>, b: seq<Json>, p: seq<Entry>, x: Entry, s: seq<Entry>)
    requires Accepted(a) && Accepted(b)
    requires EntriesOf(a) == p + [x] + s && EntriesOf(b) == p + s
    ensures Form(a) != Form(b)
  {
    BlockSeesRemoval(BlockOf, p, x, s);
    if Form(a) == Form(b) { FormFixesBlocks(a, b, BlockOf(x)); }
  }
}
