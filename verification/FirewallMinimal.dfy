/** The smallest ruleset the observer accepts: both tables, the three fail-closed chains, the pause
    chain and one revision marker; and what may be added to an accepted ruleset, always visibly. */
module FirewallMinimal {
  import opened Json
  import opened CounterReadings
  import opened Rewriting
  import opened Firewall
  import opened FirewallTrace
  import opened FirewallPolicy

  function Item(kind: string, body: Fields): Json {
    Obj(map[kind := Obj(body)])
  }

  function Declaration(table: string): Json {
    Item("table", map["family" := Str("inet"), "name" := Str(table)])
  }

  function Chain(table: string, name: string, prio: int, policy: string): Json {
    Item("chain", ChainBody(table, name, prio, policy))
  }

  function Revision(): Json {
    Item("counter", map["family" := Str("inet"), "table" := Str(MAIN), "name" := Str("mr_revision_1")])
  }

  function Minimal(): seq<Json> {
    [Declaration(MAIN), Declaration(PAUSE), Chain(MAIN, "input", 0, "drop"), Chain(MAIN, "forward", 0, "drop"),
     Chain(MAIN, "output", 0, "drop"), Chain(PAUSE, "forward", -10, "accept"), Revision()]
  }

  predicate Scalars(body: Fields) {
    forall k | k in body :: body[k].Str? || body[k].Int?
  }

  lemma ItemShows(kind: string, body: Fields)
    ensures forall other :: Shows(Item(kind, body), other) <==> other == kind
    ensures Body(Item(kind, body), kind) == body && (IsMetainfo(Item(kind, body)) <==> kind == "metainfo")
  {
  }

  lemma ScalarsCount(kind: string, body: Fields)
    requires Scalars(body) && READINGS + {"handle"} !! body.Keys
    ensures CountersOk(Item(kind, body), kind)
  {
    ItemShows(kind, body);
    forall k | k in body ensures FieldOk(body, k, kind == "counter") {
      assert ValidReadings(body[k], k == "counter");
    }
    assert body - {"handle"} == body;
  }

  /** An item that the policy admits and that is no rule. */
  predicate Fits(item: Json) {
    Known(item) && ChainSound(item) && CounterSound(item) && !WithinEither(item, "rule")
  }

  lemma DeclarationFits(table: string)
    requires table == MAIN || table == PAUSE
    ensures Fits(Declaration(table)) && Declared(Declaration(table), table)
  {
    ItemShows("table", map["family" := Str("inet"), "name" := Str(table)]);
  }

  function ChainBody(table: string, name: string, prio: int, policy: string): Fields {
    map["family" := Str("inet"), "table" := Str(table), "name" := Str(name), "hook" := Str(name),
        "prio" := Int(prio), "policy" := Str(policy)]
  }

  lemma ChainShown(table: string, name: string, prio: int, policy: string)
    ensures var item := Chain(table, name, prio, policy);
      && (forall kind :: Shows(item, kind) <==> kind == "chain") && !IsMetainfo(item) && CountersOk(item, "chain")
      && BaseChain(item, table, name, policy) && Field(item, "chain", "prio") == Int(prio)
      && Field(item, "chain", "dev") == Null
  {
    ChainCounts(table, name, prio, policy);
    ChainFields(table, name, prio, policy);
  }

  lemma ChainFields(table: string, name: string, prio: int, policy: string)
    ensures var item := Chain(table, name, prio, policy);
      && (forall kind :: Shows(item, kind) <==> kind == "chain") && !IsMetainfo(item)
      && BaseChain(item, table, name, policy) && Field(item, "chain", "prio") == Int(prio)
      && Field(item, "chain", "dev") == Null
  {
    ItemShows("chain", ChainBody(table, name, prio, policy));
  }

  lemma ChainCounts(table: string, name: string, prio: int, policy: string)
    ensures CountersOk(Chain(table, name, prio, policy), "chain")
  {
    ScalarsCount("chain", ChainBody(table, name, prio, policy));
  }

  lemma ChainFits(table: string, name: string, prio: int, policy: string)
    requires (table == MAIN || table == PAUSE) && (policy == "drop" || policy == "accept")
    ensures Fits(Chain(table, name, prio, policy)) && BaseChain(Chain(table, name, prio, policy), table, name, policy)
  {
    var item := Chain(table, name, prio, policy);
    ChainShown(table, name, prio, policy);
    assert Object(item, "chain");
  }

  lemma RevisionFits()
    ensures Fits(Revision()) && Marker(Revision())
  {
    var body := map["family" := Str("inet"), "table" := Str(MAIN), "name" := Str("mr_revision_1")];
    ItemShows("counter", body);
    ScalarsCount("counter", body);
    assert Object(Revision(), "counter");
    assert "mr_revision_1"[..12] == "mr_revision_";
  }

  lemma KindsApart(x: Json, kind: string, y: Json, other: string)
    requires Shows(x, kind) && Shows(y, other) && kind != other
    ensures !Collide(x, y)
  {
    forall k | Shows(x, k) ensures k == kind { OneKind(x, k, kind); }
    forall k | Shows(y, k) ensures k == other { OneKind(y, k, other); }
  }

  lemma ChainsApart(
      table: string, name: string, prio: int, policy: string,
      table': string, name': string, prio': int, policy': string)
    requires name != name' || (table != table' && prio != prio')
    ensures !Collide(Chain(table, name, prio, policy), Chain(table', name', prio', policy'))
  {
    ChainShown(table, name, prio, policy);
    ChainShown(table', name', prio', policy');
  }

  lemma DeclarationsApart()
    ensures !Collide(Declaration(MAIN), Declaration(PAUSE))
  {
    NamesDiffer();
    ItemShows("table", Declaration(MAIN).fields["table"].fields);
    ItemShows("table", Declaration(PAUSE).fields["table"].fields);
  }

  ghost predicate ChainsFit(a: Json, b: Json, c: Json, p: Json) {
    && Fits(a) && Fits(b) && Fits(c) && Fits(p) && PauseChain(p)
    && BaseChain(a, MAIN, "input", "drop") && BaseChain(b, MAIN, "forward", "drop")
    && BaseChain(c, MAIN, "output", "drop") && NoneCollide([a, b, c, p])
  }

  ghost predicate OthersFit(d: Json, e: Json, m: Json) {
    && Fits(d) && Fits(e) && Fits(m) && Declared(d, MAIN) && Declared(e, PAUSE) && !Collide(d, e) && Marker(m)
  }

  lemma SevenApart(d: Json, e: Json, a: Json, b: Json, c: Json, p: Json, m: Json)
    requires ChainsFit(a, b, c, p) && OthersFit(d, e, m)
    ensures NoneCollide([d, e, a, b, c, p, m])
  {
    var (items, chains) := ([d, e, a, b, c, p, m], [a, b, c, p]);
    var kind := (i: int) => if i < 2 then "table" else if i < 6 then "chain" else "counter";
    forall i, j | 0 <= i < j < 7 ensures !Collide(items[i], items[j]) {
      if kind(i) != kind(j) {
        KindsApart(items[i], kind(i), items[j], kind(j));
      } else if j > 1 {
        assert !Collide(chains[i - 2], chains[j - 2]);
      }
    }
  }

  lemma SevenListed(d: Json, e: Json, a: Json, b: Json, c: Json, p: Json, m: Json)
    requires ChainsFit(a, b, c, p) && OthersFit(d, e, m)
    ensures var items := [d, e, a, b, c, p, m];
      && ListsDeclared(items, MAIN) && ListsDeclared(items, PAUSE) && ListsPause(items) && ListsMarker(items)
      && ListsFailClosed(items, "input") && ListsFailClosed(items, "forward") && ListsFailClosed(items, "output")
  {
    var items := [d, e, a, b, c, p, m];
    assert d in items && e in items && a in items && b in items && c in items && p in items && m in items;
  }

  /** Seven items that fit together meet the policy. */
  lemma SevenFit(d: Json, e: Json, a: Json, b: Json, c: Json, p: Json, m: Json)
    requires ChainsFit(a, b, c, p) && OthersFit(d, e, m)
    ensures Policy([d, e, a, b, c, p, m])
  {
    SevenApart(d, e, a, b, c, p, m);
    SevenListed(d, e, a, b, c, p, m);
    SevenKnown(d, e, a, b, c, p, m);
  }

  lemma AllFit(items: seq<Json>)
    requires forall item | item in items :: Fits(item)
    ensures AllKnown(items) && AllSound(items) && RulesFound(items)
  {
  }

  lemma Each<T>(d: T, e: T, a: T, b: T, c: T, p: T, m: T, holds: T -> bool)
    requires holds(d) && holds(e) && holds(a) && holds(b) && holds(c) && holds(p) && holds(m)
    ensures forall x | x in [d, e, a, b, c, p, m] :: holds(x)
  {
  }

  lemma SevenKnown(d: Json, e: Json, a: Json, b: Json, c: Json, p: Json, m: Json)
    requires Fits(d) && Fits(e) && Fits(a) && Fits(b) && Fits(c) && Fits(p) && Fits(m)
    ensures var items := [d, e, a, b, c, p, m]; AllKnown(items) && AllSound(items) && RulesFound(items)
  {
    Each(d, e, a, b, c, p, m, item => Fits(item));
    AllFit([d, e, a, b, c, p, m]);
  }

  lemma ChainsOfMinimal()
    ensures ChainsFit(Chain(MAIN, "input", 0, "drop"), Chain(MAIN, "forward", 0, "drop"),
                      Chain(MAIN, "output", 0, "drop"), Chain(PAUSE, "forward", -10, "accept"))
  {
    ChainFits(MAIN, "input", 0, "drop");
    ChainFits(MAIN, "forward", 0, "drop");
    ChainFits(MAIN, "output", 0, "drop");
    ChainFits(PAUSE, "forward", -10, "accept");
    ChainShown(PAUSE, "forward", -10, "accept");
    ChainsDiffer();
  }

  lemma ChainsDiffer()
    ensures NoneCollide([Chain(MAIN, "input", 0, "drop"), Chain(MAIN, "forward", 0, "drop"),
                         Chain(MAIN, "output", 0, "drop"), Chain(PAUSE, "forward", -10, "accept")])
  {
    NamesDiffer();
    assert "input"[0] == 'i' && "forward"[0] == 'f' && "output"[0] == 'o';
    ChainsApart(MAIN, "input", 0, "drop", MAIN, "forward", 0, "drop");
    ChainsApart(MAIN, "input", 0, "drop", MAIN, "output", 0, "drop");
    ChainsApart(MAIN, "forward", 0, "drop", MAIN, "output", 0, "drop");
    ChainsApart(MAIN, "input", 0, "drop", PAUSE, "forward", -10, "accept");
    ChainsApart(MAIN, "forward", 0, "drop", PAUSE, "forward", -10, "accept");
    ChainsApart(MAIN, "output", 0, "drop", PAUSE, "forward", -10, "accept");
  }

  /** The observer accepts it, so its comparison is never vacuous. */
  lemma MinimalAccepted()
    ensures Accepted(Minimal())
  {
    ChainsOfMinimal();
    DeclarationFits(MAIN);
    DeclarationFits(PAUSE);
    DeclarationsApart();
    RevisionFits();
    SevenFit(Declaration(MAIN), Declaration(PAUSE), Chain(MAIN, "input", 0, "drop"),
             Chain(MAIN, "forward", 0, "drop"), Chain(MAIN, "output", 0, "drop"),
             Chain(PAUSE, "forward", -10, "accept"), Revision());
    AcceptedIff(Minimal());
  }

  // ---------------------------------------------------------------------------------------
  // Adding to an accepted ruleset

  /** A kind that acceptance does not look at. */
  predicate Quiet(f: Facts) {
    !IsDecl(f) && !IsChain(f) && !IsRule(f) && !IsMainCounter(f)
  }

  /** An item that lists an object of such a kind, for instance a set. */
  predicate Extra(item: Json) {
    Read(item).Kept? && Quiet(FactsOf(Read(item).entry))
  }

  lemma ObjectIsExtra(item: Json, kind: string)
    requires kind in {"set", "map", "quota", "limit", "flowtable"} && Object(item, kind)
    ensures Extra(item) && Read(item).entry.kind == kind
  {
    ShownKept(item, kind, if Within(item, kind, MAIN) then Main else Pause);
    assert kind != "table" && kind != "chain" && kind != "rule" && kind != "counter";
  }

  lemma RulesStillResolve(fs: set<Facts>, f: Facts)
    requires RulesResolve(fs) && Quiet(f)
    ensures RulesResolve(fs + {f})
  {
    forall r | r in fs + {f} && IsRule(r) ensures exists c | c in fs + {f} :: ChainNamed(c, r.table, HashKey(r.chain)) {
      var c :| c in fs && ChainNamed(c, r.table, HashKey(r.chain));
      assert c in fs + {f};
    }
  }

  lemma StillComplete(fs: set<Facts>, f: Facts)
    requires Complete(fs) && Quiet(f)
    ensures Complete(fs + {f})
  {
    RulesStillResolve(fs, f);
  }

  lemma StillNoClash(fs: seq<Facts>, f: Facts)
    requires NoClash(fs) && Quiet(f)
    ensures NoClash(fs + [f])
  {
    forall x ensures !Clash(x, f) {
    }
  }

  lemma StillWellFormed(fs: seq<Facts>, f: Facts)
    requires WellFormed(fs) && Quiet(f)
    ensures WellFormed(fs + [f])
  {
    StillNoClash(fs, f);
    StillComplete(FactSet(fs), f);
    assert FactSet(fs + [f]) == FactSet(fs) + {f};
  }

  lemma OneMore<T(!new), E(!new)>(read: T -> Reading<E>, items: seq<T>, item: T)
    requires Readable(read, items) && read(item).Kept?
    ensures Readable(read, items + [item]) && Entries(read, items + [item]) == Entries(read, items) + [read(item).entry]
  {
    EntriesConcat(read, items, [item]);
    assert Entries(read, [item]) == [read(item).entry];
  }

  lemma Appended<T>(s: seq<T>, x: T, y: T)
    ensures s + [] == s && s + [x] + [] == s + [x] && s + [x] + [y] == s + [x, y] + []
  {
  }

  lemma FactsOfMore(es: seq<Entry>, e: Entry)
    ensures AllFacts(es + [e]) == AllFacts(es) + [FactsOf(e)]
  {
  }

  lemma ExtraAccepted(items: seq<Json>, item: Json)
    requires Accepted(items) && Extra(item)
    ensures Accepted(items + [item]) && EntriesOf(items + [item]) == EntriesOf(items) + [Read(item).entry]
  {
    OneMore(Read, items, item);
    FactsOfMore(EntriesOf(items), Read(item).entry);
    StillWellFormed(AllFacts(EntriesOf(items)), FactsOf(Read(item).entry));
  }

  /** Whatever is accepted stays accepted with one more such item, and the comparison sees it. */
  lemma AdditionSeen(items: seq<Json>, item: Json)
    requires Accepted(items) && Extra(item)
    ensures Accepted(items + [item]) && Form(items + [item]) != Form(items)
  {
    ExtraAccepted(items, item);
    Appended(EntriesOf(items), Read(item).entry, Read(item).entry);
    RemovalSeen(items + [item], items, EntriesOf(items), Read(item).entry, []);
  }

  lemma TwoAccepted(items: seq<Json>, x: Json, y: Json)
    requires Accepted(items) && Extra(x) && Extra(y)
    ensures Accepted(items + [x] + [y])
    ensures EntriesOf(items + [x] + [y]) == EntriesOf(items) + [Read(x).entry, Read(y).entry] + []
  {
    ExtraAccepted(items, x);
    ExtraAccepted(items + [x], y);
    Appended(EntriesOf(items), Read(x).entry, Read(y).entry);
  }

  /** And with two of one table, in either order, and the comparison sees the order. */
  lemma OrderSeen(items: seq<Json>, x: Json, y: Json)
    requires Accepted(items) && Extra(x) && Extra(y)
    requires BlockOf(Read(x).entry) == BlockOf(Read(y).entry) && Read(x).entry != Read(y).entry
    ensures Accepted(items + [x] + [y]) && Accepted(items + [y] + [x])
    ensures Form(items + [x] + [y]) != Form(items + [y] + [x])
  {
    TwoAccepted(items, x, y);
    TwoAccepted(items, y, x);
    ReorderSeen(items + [x] + [y], items + [y] + [x], EntriesOf(items), Read(x).entry, Read(y).entry, []);
  }
}
