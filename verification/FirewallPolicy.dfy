/** What the observer accepts, said of the listed items themselves: both tables, the fail-closed chains, the
    pause hook, one revision marker, and no rule, chain or reading out of place. */
module FirewallPolicy {
  import opened Json
  import opened CounterReadings
  import opened Rewriting
  import opened Firewall
  import opened FirewallObserver

  const MAIN := "minimalrouter"
  const PAUSE := "minimalrouter_pause"

  // ---------------------------------------------------------------------------------------
  // One item

  predicate Single(item: Json) {
    item.Obj? && |item.fields| == 1
  }

  /** An object of this kind; nothing else is in the item. */
  predicate Shows(item: Json, kind: string) {
    Single(item) && kind in item.fields && item.fields[kind].Obj?
  }

  function Body(item: Json, kind: string): Fields
    requires Shows(item, kind)
  {
    item.fields[kind].fields
  }

  /** Its field, None when it is missing or null. */
  function Field(item: Json, kind: string, key: string): Json
    requires Shows(item, kind)
  {
    Get(Body(item, kind), key)
  }

  predicate IsMetainfo(item: Json) {
    Single(item) && "metainfo" in item.fields
  }

  predicate Declared(item: Json, table: string) {
    Shows(item, "table") && Field(item, "table", "family") == Str("inet") && Field(item, "table", "name") == Str(table)
  }

  /** An object of a table, other than its declaration. */
  predicate Within(item: Json, kind: string, table: string) {
    Shows(item, kind) && Field(item, kind, "family") == Str("inet") && Field(item, kind, "table") == Str(table)
  }

  predicate WithinEither(item: Json, kind: string) {
    Within(item, kind, MAIN) || Within(item, kind, PAUSE)
  }

  predicate CountersOk(item: Json, kind: string)
    requires Shows(item, kind)
  {
    ValidReadings(Obj(Body(item, kind) - {"handle"}), kind == "counter")
  }

  predicate Object(item: Json, kind: string) {
    WithinEither(item, kind) && CountersOk(item, kind)
  }

  predicate Known(item: Json) {
    || IsMetainfo(item) || Declared(item, MAIN) || Declared(item, PAUSE)
    || Object(item, "chain") || Object(item, "rule") || Object(item, "set") || Object(item, "map")
    || Object(item, "counter") || Object(item, "quota") || Object(item, "limit") || Object(item, "flowtable")
  }

  /** A value that Python can put into a set. */
  predicate Hashable(j: Json) {
    !j.Arr? && !j.Obj?
  }

  predicate HasHook(item: Json) {
    Shows(item, "chain") && "hook" in Body(item, "chain")
  }

  predicate ChainSound(item: Json) {
    WithinEither(item, "chain") ==>
      && Hashable(Field(item, "chain", "name"))
      && (HasHook(item) ==>
            && Field(item, "chain", "prio").Int?
            && (Field(item, "chain", "policy") == Str("accept") || Field(item, "chain", "policy") == Str("drop"))
            && Hashable(Field(item, "chain", "hook")) && Hashable(Field(item, "chain", "dev")))
  }

  /** A marker counts the revision in its name. */
  predicate Marker(item: Json) {
    && Within(item, "counter", MAIN) && Field(item, "counter", "name").Str?
    && var name := Field(item, "counter", "name").s;
       && |name| > 12 && name[..12] == "mr_revision_"
       && forall i | 12 <= i < |name| :: '0' <= name[i] <= '9'
  }

  predicate CounterSound(item: Json) {
    Within(item, "counter", MAIN) && "name" in Body(item, "counter") ==> Field(item, "counter", "name").Str?
  }

  predicate BaseChain(item: Json, table: string, name: string, policy: string) {
    && Within(item, "chain", table) && Field(item, "chain", "name") == Str(name)
    && Field(item, "chain", "hook") == Str(name) && Field(item, "chain", "policy") == Str(policy)
  }

  predicate PauseChain(item: Json) {
    BaseChain(item, PAUSE, "forward", "accept") && Field(item, "chain", "prio") == Int(-10)
  }

  // ---------------------------------------------------------------------------------------
  // Two items

  predicate SameTable(x: Json, xKind: string, y: Json, yKind: string) {
    (Within(x, xKind, MAIN) && Within(y, yKind, MAIN)) || (Within(x, xKind, PAUSE) && Within(y, yKind, PAUSE))
  }

  /** The rule names this chain of its own table. */
  predicate Resolves(rule: Json, chain: Json) {
    && SameTable(rule, "rule", chain, "chain") && Hashable(Field(rule, "rule", "chain"))
    && HashKey(Field(rule, "rule", "chain")) == HashKey(Field(chain, "chain", "name"))
  }

  predicate SameChain(x: Json, y: Json) {
    SameTable(x, "chain", y, "chain") && HashKey(Field(x, "chain", "name")) == HashKey(Field(y, "chain", "name"))
  }

  /** Two chains at one place whose order the kernel leaves undefined. */
  predicate SamePlace(x: Json, y: Json) {
    && WithinEither(x, "chain") && WithinEither(y, "chain") && HasHook(x) && HasHook(y)
    && HashKey(Field(x, "chain", "hook")) == HashKey(Field(y, "chain", "hook"))
    && HashKey(Field(x, "chain", "dev")) == HashKey(Field(y, "chain", "dev"))
    && Field(x, "chain", "prio") == Field(y, "chain", "prio")
  }

  predicate Collide(x: Json, y: Json) {
    || (Declared(x, MAIN) && Declared(y, MAIN)) || (Declared(x, PAUSE) && Declared(y, PAUSE))
    || SameChain(x, y) || SamePlace(x, y) || (Marker(x) && Marker(y))
  }

  // ---------------------------------------------------------------------------------------
  // A whole listing

  ghost predicate Lists(items: seq<Json>, holds: Json -> bool) {
    exists item :: item in items && holds(item)
  }

  ghost predicate ListsDeclared(items: seq<Json>, table: string) {
    exists item :: item in items && Declared(item, table)
  }

  ghost predicate ListsFailClosed(items: seq<Json>, name: string) {
    exists item :: item in items && BaseChain(item, MAIN, name, "drop")
  }

  ghost predicate ListsPause(items: seq<Json>) {
    exists item :: item in items && PauseChain(item)
  }

  ghost predicate ListsMarker(items: seq<Json>) {
    exists item :: item in items && Marker(item)
  }

  /** A listed chain that the rule names. */
  ghost predicate FindsChain(items: seq<Json>, rule: Json) {
    exists chain :: chain in items && Resolves(rule, chain)
  }

  ghost predicate AllKnown(items: seq<Json>) {
    forall item | item in items :: Known(item)
  }

  ghost predicate AllSound(items: seq<Json>) {
    forall item | item in items :: ChainSound(item) && CounterSound(item)
  }

  ghost predicate NoneCollide(items: seq<Json>) {
    forall i, j | 0 <= i < j < |items| :: !Collide(items[i], items[j])
  }

  ghost predicate RulesFound(items: seq<Json>) {
    forall rule | rule in items && WithinEither(rule, "rule") :: FindsChain(items, rule)
  }

  ghost predicate Policy(items: seq<Json>) {
    && AllKnown(items) && AllSound(items) && NoneCollide(items) && RulesFound(items)
    && ListsDeclared(items, MAIN) && ListsDeclared(items, PAUSE)
    && ListsFailClosed(items, "input")
    && ListsFailClosed(items, "forward")
    && ListsFailClosed(items, "output")
    && ListsPause(items) && ListsMarker(items)
  }

  // ---------------------------------------------------------------------------------------
  // Each item is what its entry says

  function TableName(t: TableId): string {
    if t == Main then MAIN else PAUSE
  }

  /** The facts of a listed object. */
  function FactsIn(item: Json): Facts
    requires ReadRaw(item).Kept?
  {
    FactsOf(ReadRaw(item).entry)
  }

  lemma OneKind(item: Json, kind: string, other: string)
    requires Shows(item, kind) && Single(item) && other in item.fields
    ensures other == kind && OnlyKey(item.fields) == kind
  {
    OneKey(item.fields, kind, other);
  }

  lemma NamesDiffer()
    ensures MAIN != PAUSE
  {
    assert |MAIN| == 13 && |PAUSE| == 19;
  }

  /** What a kept item shows. */
  lemma KeptShows(item: Json)
    requires ReadRaw(item).Kept?
    ensures var e := ReadRaw(item).entry;
      && e.kind in KINDS && Shows(item, e.kind) && e.body == Body(item, e.kind) - {"handle"}
      && (if e.kind == "table" then Declared(item, TableName(e.table)) else Within(item, e.kind, TableName(e.table)))
      && (forall kind | Shows(item, kind) :: kind == e.kind) && !IsMetainfo(item)
  {
    var e := ReadRaw(item).entry;
    forall kind | Shows(item, kind) ensures kind == e.kind { OneKind(item, kind, e.kind); }
    assert forall key | key != "handle" :: Get(e.body, key) == Get(Body(item, e.kind), key);
    if IsMetainfo(item) { OneKind(item, e.kind, "metainfo"); }
  }

  /** Conversely, an object of a known kind in a known table is kept. */
  lemma ShownKept(item: Json, kind: string, t: TableId)
    requires kind in KINDS && Shows(item, kind)
    requires if kind == "table" then Declared(item, TableName(t)) else Within(item, kind, TableName(t))
    ensures ReadRaw(item) == Kept(Entry(t, kind, Body(item, kind) - {"handle"}))
  {
    OneKind(item, kind, kind);
    NamesDiffer();
    var body := Body(item, kind) - {"handle"};
    assert Get(body, "family") == Field(item, kind, "family");
    assert Get(body, "name") == Field(item, kind, "name") && Get(body, "table") == Field(item, kind, "table");
  }

  lemma KeptKnown(item: Json)
    requires ReadRaw(item).Kept? && Normalises(ReadRaw(item).entry)
    ensures Known(item)
  {
    KeptShows(item);
    var e := ReadRaw(item).entry;
    if e.kind != "table" { assert Object(item, e.kind); }
  }

  lemma ObjectKept(item: Json, kind: string)
    requires kind in KINDS && kind != "table" && Object(item, kind)
    ensures ReadRaw(item).Kept? && Normalises(ReadRaw(item).entry)
  {
    ShownKept(item, kind, if Within(item, kind, MAIN) then Main else Pause);
  }

  /** The kinds that are objects of a table. */
  predicate ObjectKind(kind: string) {
    kind in {"chain", "rule", "set", "map", "counter", "quota", "limit", "flowtable"}
  }

  lemma ObjectKinds(kind: string)
    requires ObjectKind(kind)
    ensures kind in KINDS && kind != "table"
  {
    assert "table"[0] == 't' && kind[0] != 't';
  }

  lemma KnownKept(item: Json)
    requires Known(item)
    ensures !ReadRaw(item).Rejected? && (ReadRaw(item).Kept? ==> Normalises(ReadRaw(item).entry))
  {
    if IsMetainfo(item) {
      assert OnlyKey(item.fields) == "metainfo";
    } else if Declared(item, MAIN) {
      ShownKept(item, "table", Main);
    } else if Declared(item, PAUSE) {
      ShownKept(item, "table", Pause);
    } else {
      var kind :| ObjectKind(kind) && Object(item, kind);
      ObjectKinds(kind);
      ObjectKept(item, kind);
    }
  }

  /** An item is readable exactly when it is known. */
  lemma KnownIff(item: Json)
    ensures Known(item) <==> !ReadRaw(item).Rejected? && (ReadRaw(item).Kept? ==> Normalises(ReadRaw(item).entry))
  {
    if Known(item) {
      KnownKept(item);
    } else if ReadRaw(item).Kept? && Normalises(ReadRaw(item).entry) {
      KeptKnown(item);
    } else if ReadRaw(item).Ignored? {
      assert IsMetainfo(item);
    }
  }

  lemma BlurHashes(j: Json)
    ensures HashKey(Blur(j)) == HashKey(j) && (HashKey(j).Some? <==> Hashable(j))
    ensures forall text :: Blur(j) == Str(text) <==> j == Str(text)
    ensures forall n :: Blur(j) == Int(n) <==> j == Int(n)
    ensures forall text :: HashKey(j) == Some(Str(text)) <==> j == Str(text)
  {
  }

  /** The facts of a chain are its fields. */
  lemma ChainFacts(item: Json)
    requires ReadRaw(item).Kept? && Shows(item, "chain")
    ensures var f := FactsIn(item);
      && OrNull(f.name) == Blur(Field(item, "chain", "name")) && OrNull(f.hook) == Blur(Field(item, "chain", "hook"))
      && (f.hook.Some? <==> HasHook(item)) && f.dev == Blur(Field(item, "chain", "dev"))
      && f.prio == Blur(Field(item, "chain", "prio")) && f.policy == Blur(Field(item, "chain", "policy"))
  {
    KeptShows(item);
  }

  lemma IsItsTable(item: Json, kind: string, t: TableId)
    requires ReadRaw(item).Kept? && kind in KINDS && kind != "table"
    ensures var f := FactsIn(item); f.kind == kind && f.table == t <==> Within(item, kind, TableName(t))
    ensures Declares(FactsIn(item), t) <==> Declared(item, TableName(t))
  {
    KeptShows(item);
    NamesDiffer();
    if Within(item, kind, TableName(t)) { ShownKept(item, kind, t); }
    if Declared(item, TableName(t)) { ShownKept(item, "table", t); }
  }

  lemma FailClosedIff(item: Json, name: string)
    requires ReadRaw(item).Kept?
    ensures FailClosed(FactsIn(item), name) <==> BaseChain(item, MAIN, name, "drop")
  {
    IsItsTable(item, "chain", Main);
    if Shows(item, "chain") {
      ChainFacts(item);
      BlurHashes(Field(item, "chain", "name"));
      BlurHashes(Field(item, "chain", "hook"));
      BlurHashes(Field(item, "chain", "policy"));
    } else {
      KeptShows(item);
    }
  }

  lemma PauseIff(item: Json)
    requires ReadRaw(item).Kept?
    ensures PauseHook(FactsIn(item)) <==> PauseChain(item)
  {
    IsItsTable(item, "chain", Pause);
    if Shows(item, "chain") {
      ChainFacts(item);
      BlurHashes(Field(item, "chain", "name"));
      BlurHashes(Field(item, "chain", "hook"));
      BlurHashes(Field(item, "chain", "policy"));
      BlurHashes(Field(item, "chain", "prio"));
    } else {
      KeptShows(item);
    }
  }

  lemma RevisionName(name: string)
    ensures IsRevisionName(name) <==>
      && |name| > 12 && name[..12] == "mr_revision_"
      && forall i | 12 <= i < |name| :: '0' <= name[i] <= '9'
  {
    var prefix := "mr_revision_";
    if IsRevisionName(name) {
      forall i | 12 <= i < |name| ensures '0' <= name[i] <= '9' { assert name[i] in name[12..]; }
      assert name[..12] == prefix;
    } else if |name| > 12 && name[..12] == prefix {
      assert prefix < name;
      var c :| c in name[12..] && !('0' <= c <= '9');
      var i :| 0 <= i < |name[12..]| && name[12..][i] == c;
      assert name[12 + i] == c;
    }
  }

  lemma MarkerIff(item: Json)
    requires ReadRaw(item).Kept?
    ensures IsMarker(FactsIn(item)) <==> Marker(item)
    ensures (IsMainCounter(FactsIn(item)) && FactsIn(item).name.Some? ==> FactsIn(item).name.value.Str?) <==>
      CounterSound(item)
  {
    IsItsTable(item, "counter", Main);
    KeptShows(item);
    if Within(item, "counter", MAIN) {
      var name := Field(item, "counter", "name");
      assert OrNull(FactsIn(item).name) == Blur(name);
      BlurHashes(name);
      if name.Str? { RevisionName(name.s); }
    }
  }

  lemma ChainSoundIff(item: Json)
    requires ReadRaw(item).Kept?
    ensures (IsChain(FactsIn(item)) ==> ChainOk(FactsIn(item))) <==> ChainSound(item)
  {
    IsItsTable(item, "chain", Main);
    IsItsTable(item, "chain", Pause);
    KeptShows(item);
    if WithinEither(item, "chain") {
      ChainFacts(item);
      BlurHashes(Field(item, "chain", "name"));
      BlurHashes(Field(item, "chain", "hook"));
      BlurHashes(Field(item, "chain", "dev"));
      BlurHashes(Field(item, "chain", "policy"));
      BlurHashes(Field(item, "chain", "prio"));
    }
  }

  lemma SameChainIff(x: Json, y: Json)
    requires ReadRaw(x).Kept? && ReadRaw(y).Kept?
    ensures var (f, g) := (FactsIn(x), FactsIn(y));
      IsChain(f) && IsChain(g) && f.table == g.table && ChainKey(f) == ChainKey(g) <==> SameChain(x, y)
  {
    IsItsTable(x, "chain", Main);
    IsItsTable(x, "chain", Pause);
    IsItsTable(y, "chain", Main);
    IsItsTable(y, "chain", Pause);
    if WithinEither(x, "chain") && WithinEither(y, "chain") {
      ChainFacts(x);
      ChainFacts(y);
      BlurHashes(Field(x, "chain", "name"));
      BlurHashes(Field(y, "chain", "name"));
    }
  }

  lemma SamePlaceIff(x: Json, y: Json)
    requires ReadRaw(x).Kept? && ReadRaw(y).Kept? && ChainSound(x) && ChainSound(y)
    ensures SameHook(FactsIn(x), FactsIn(y)) <==> SamePlace(x, y)
  {
    IsItsTable(x, "chain", Main);
    IsItsTable(x, "chain", Pause);
    IsItsTable(y, "chain", Main);
    IsItsTable(y, "chain", Pause);
    if WithinEither(x, "chain") && WithinEither(y, "chain") {
      ChainFacts(x);
      ChainFacts(y);
      BlurHashes(Field(x, "chain", "hook"));
      BlurHashes(Field(y, "chain", "hook"));
      BlurHashes(Field(x, "chain", "dev"));
      BlurHashes(Field(y, "chain", "dev"));
      BlurHashes(Field(x, "chain", "prio"));
      BlurHashes(Field(y, "chain", "prio"));
    }
  }

  lemma CollideIff(x: Json, y: Json)
    requires ReadRaw(x).Kept? && ReadRaw(y).Kept? && ChainSound(x) && ChainSound(y)
    ensures Clash(FactsIn(x), FactsIn(y)) <==> Collide(x, y)
  {
    IsItsTable(x, "chain", Main);
    IsItsTable(x, "chain", Pause);
    IsItsTable(y, "chain", Main);
    IsItsTable(y, "chain", Pause);
    SameChainIff(x, y);
    SamePlaceIff(x, y);
    MarkerIff(x);
    MarkerIff(y);
  }

  lemma ResolvesIff(x: Json, y: Json)
    requires ReadRaw(x).Kept? && ReadRaw(y).Kept?
    ensures var (f, g) := (FactsIn(x), FactsIn(y));
      IsRule(f) && HashKey(f.chain).Some? && ChainNamed(g, f.table, HashKey(f.chain)) <==> Resolves(x, y)
  {
    IsItsTable(x, "rule", Main);
    IsItsTable(x, "rule", Pause);
    IsItsTable(y, "chain", Main);
    IsItsTable(y, "chain", Pause);
    if WithinEither(x, "rule") && WithinEither(y, "chain") {
      KeptShows(x);
      ChainFacts(y);
      BlurHashes(Field(x, "rule", "chain"));
      BlurHashes(Field(y, "chain", "name"));
    }
  }

  // ---------------------------------------------------------------------------------------
  // And the listing is what its facts say

  lemma {:induction false} EntryListed(items: seq<Json>, e: Entry)
    ensures e in Raws(items) <==> exists item :: item in items && ReadRaw(item) == Kept(e)
  {
    if items != [] {
      EntryListed(items[1..], e);
      assert Raws(items) == EntryOf(ReadRaw(items[0])) + Raws(items[1..]);
      assert items == [items[0]] + items[1..];
    }
  }

  /** A property of some fact is a property of some kept item. */
  lemma SomeFact(items: seq<Json>, holds: Facts -> bool)
    ensures (exists f | f in FactSet(AllFacts(Raws(items))) :: holds(f)) <==>
      exists item :: item in items && ReadRaw(item).Kept? && holds(FactsIn(item))
  {
    var es := Raws(items);
    if f :| f in FactSet(AllFacts(es)) && holds(f) {
      var i :| 0 <= i < |es| && AllFacts(es)[i] == f;
      EntryListed(items, es[i]);
    }
    if item :| item in items && ReadRaw(item).Kept? && holds(FactsIn(item)) {
      EntryListed(items, ReadRaw(item).entry);
      var i :| 0 <= i < |es| && es[i] == ReadRaw(item).entry;
      assert AllFacts(es)[i] == FactsIn(item);
    }
  }

  /** No two kept items are so related. */
  ghost predicate Apart(items: seq<Json>, related: (Facts, Facts) -> bool) {
    forall i, j | 0 <= i < j < |items| && ReadRaw(items[i]).Kept? && ReadRaw(items[j]).Kept? ::
      !related(FactsIn(items[i]), FactsIn(items[j]))
  }

  ghost predicate FactsApart(fs: seq<Facts>, related: (Facts, Facts) -> bool) {
    forall i, j | 0 <= i < j < |fs| :: !related(fs[i], fs[j])
  }

  lemma ApartCons(items: seq<Json>, related: (Facts, Facts) -> bool)
    requires items != []
    ensures Apart(items, related) <==>
      && Apart(items[1..], related)
      && (ReadRaw(items[0]).Kept? ==>
            forall item | item in items[1..] && ReadRaw(item).Kept? :: !related(FactsIn(items[0]), FactsIn(item)))
  {
    var rest := items[1..];
    if Apart(items, related) {
      forall i, j | 0 <= i < j < |rest| && ReadRaw(rest[i]).Kept? && ReadRaw(rest[j]).Kept?
        ensures !related(FactsIn(rest[i]), FactsIn(rest[j]))
      {
        assert rest[i] == items[i + 1] && rest[j] == items[j + 1];
      }
      forall item | item in rest && ReadRaw(item).Kept? && ReadRaw(items[0]).Kept?
        ensures !related(FactsIn(items[0]), FactsIn(item))
      {
        var j :| 0 <= j < |rest| && rest[j] == item;
        assert items[j + 1] == item;
      }
    }
    assert forall i | 0 < i < |items| :: items[i] == rest[i - 1] && rest[i - 1] in rest;
  }

  lemma FactsApartCons(f: Facts, fs: seq<Facts>, related: (Facts, Facts) -> bool)
    ensures FactsApart([f] + fs, related) <==> FactsApart(fs, related) && forall g | g in fs :: !related(f, g)
  {
    var all := [f] + fs;
    if FactsApart(all, related) {
      forall i, j | 0 <= i < j < |fs| ensures !related(fs[i], fs[j]) {
        assert fs[i] == all[i + 1] && fs[j] == all[j + 1];
      }
      forall g | g in fs ensures !related(f, g) {
        var j :| 0 <= j < |fs| && fs[j] == g;
        assert all[0] == f && all[j + 1] == g;
      }
    }
    assert forall i | 0 < i < |all| :: all[i] == fs[i - 1] && fs[i - 1] in fs;
  }

  /** A property of every fact is a property of every kept item. */
  lemma EveryFact(items: seq<Json>, holds: Facts -> bool)
    ensures (forall f | f in AllFacts(Raws(items)) :: holds(f)) <==>
      forall item | item in items && ReadRaw(item).Kept? :: holds(FactsIn(item))
  {
    SomeFact(items, f => !holds(f));
    var fs := AllFacts(Raws(items));
    assert forall f :: f in fs <==> f in FactSet(fs);
  }

  lemma ApartKept(items: seq<Json>, related: (Facts, Facts) -> bool)
    requires items != [] && ReadRaw(items[0]).Kept?
    requires FactsApart(AllFacts(Raws(items[1..])), related) <==> Apart(items[1..], related)
    ensures FactsApart([FactsIn(items[0])] + AllFacts(Raws(items[1..])), related) <==> Apart(items, related)
  {
    ApartCons(items, related);
    FactsApartCons(FactsIn(items[0]), AllFacts(Raws(items[1..])), related);
    EveryFact(items[1..], g => !related(FactsIn(items[0]), g));
  }

  lemma FactsCons(e: Entry, es: seq<Entry>)
    ensures AllFacts([e] + es) == [FactsOf(e)] + AllFacts(es)
  {
  }

  lemma {:induction false} ApartIff(items: seq<Json>, related: (Facts, Facts) -> bool)
    ensures FactsApart(AllFacts(Raws(items)), related) <==> Apart(items, related)
  {
    if items != [] {
      ApartIff(items[1..], related);
      if ReadRaw(items[0]).Kept? {
        FactsCons(ReadRaw(items[0]).entry, Raws(items[1..]));
        ApartKept(items, related);
      } else {
        assert Raws(items) == Raws(items[1..]);
        ApartCons(items, related);
      }
    }
  }

  lemma IgnoredShowsNothing(item: Json)
    requires ReadRaw(item).Ignored?
    ensures forall kind | kind in KINDS :: !Shows(item, kind)
    ensures ChainSound(item) && CounterSound(item) && !WithinEither(item, "rule")
  {
    assert OnlyKey(item.fields) == "metainfo" && "metainfo" !in KINDS;
  }

  lemma KnownListing(items: seq<Json>)
    ensures AllKnown(items) <==> Readable(ReadRaw, items) && AllNormalise(Raws(items))
  {
    forall item | item in items
      ensures Known(item) <==> !ReadRaw(item).Rejected? && (ReadRaw(item).Kept? ==> Normalises(ReadRaw(item).entry))
    {
      KnownIff(item);
    }
    forall e ensures e in Raws(items) <==> exists item :: item in items && ReadRaw(item) == Kept(e) {
      EntryListed(items, e);
    }
    if AllKnown(items) {
      forall e | e in Raws(items) ensures Normalises(e) {
        var item :| item in items && ReadRaw(item) == Kept(e);
      }
    }
    if Readable(ReadRaw, items) && AllNormalise(Raws(items)) {
      forall item | item in items ensures Known(item) {
        if ReadRaw(item).Kept? { assert ReadRaw(item).entry in Raws(items); }
      }
    }
  }

  /** A rule whose chain is looked up by a key. */
  predicate RuleNamed(item: Json) {
    WithinEither(item, "rule") ==> Hashable(Field(item, "rule", "chain"))
  }

  lemma LocalOkIff(item: Json)
    requires ReadRaw(item).Kept?
    ensures LocalOk(FactsIn(item)) <==> ChainSound(item) && CounterSound(item) && RuleNamed(item)
  {
    ChainSoundIff(item);
    MarkerIff(item);
    IsItsTable(item, "rule", Main);
    IsItsTable(item, "rule", Pause);
    if WithinEither(item, "rule") {
      KeptShows(item);
      BlurHashes(Field(item, "rule", "chain"));
    }
  }

  lemma SoundListing(items: seq<Json>)
    requires Readable(ReadRaw, items)
    ensures AllLocal(FactSet(AllFacts(Raws(items)))) <==>
      AllSound(items) && forall item | item in items :: RuleNamed(item)
  {
    EveryFact(items, f => LocalOk(f));
    forall item | item in items && ReadRaw(item).Kept?
      ensures LocalOk(FactsIn(item)) <==> ChainSound(item) && CounterSound(item) && RuleNamed(item)
    {
      LocalOkIff(item);
    }
    forall item | item in items && ReadRaw(item).Ignored?
      ensures ChainSound(item) && CounterSound(item) && RuleNamed(item)
    {
      IgnoredShowsNothing(item);
    }
  }

  lemma KeptCollide(x: Json, y: Json)
    requires !ReadRaw(x).Rejected? && !ReadRaw(y).Rejected? && Collide(x, y)
    ensures ReadRaw(x).Kept? && ReadRaw(y).Kept?
  {
    if ReadRaw(x).Ignored? { IgnoredShowsNothing(x); }
    if ReadRaw(y).Ignored? { IgnoredShowsNothing(y); }
  }

  lemma ClashListing(items: seq<Json>)
    requires Readable(ReadRaw, items) && AllSound(items)
    ensures NoClash(AllFacts(Raws(items))) <==> NoneCollide(items)
  {
    var related := (f: Facts, g: Facts) => Clash(f, g);
    ApartIff(items, related);
    forall i, j | 0 <= i < j < |items|
      ensures Collide(items[i], items[j]) <==>
        ReadRaw(items[i]).Kept? && ReadRaw(items[j]).Kept? && related(FactsIn(items[i]), FactsIn(items[j]))
    {
      if ReadRaw(items[i]).Kept? && ReadRaw(items[j]).Kept? {
        CollideIff(items[i], items[j]);
      } else if Collide(items[i], items[j]) {
        KeptCollide(items[i], items[j]);
      }
    }
    assert NoClash(AllFacts(Raws(items))) <==> FactsApart(AllFacts(Raws(items)), related);
  }

  /** Some item has a property that, of kept items, is one of their facts. */
  lemma SomeItem(items: seq<Json>, holds: Json -> bool, fact: Facts -> bool)
    requires Readable(ReadRaw, items)
    requires forall item | ReadRaw(item).Kept? :: holds(item) <==> fact(FactsIn(item))
    requires forall item | ReadRaw(item).Ignored? :: !holds(item)
    ensures (exists f | f in FactSet(AllFacts(Raws(items))) :: fact(f)) <==> Lists(items, holds)
  {
    SomeFact(items, fact);
  }

  lemma DeclListing(items: seq<Json>, t: TableId)
    requires Readable(ReadRaw, items)
    ensures SomeDecl(FactSet(AllFacts(Raws(items))), t) <==> ListsDeclared(items, TableName(t))
  {
    forall item | ReadRaw(item).Kept? ensures Declared(item, TableName(t)) <==> Declares(FactsIn(item), t) {
      IsItsTable(item, "chain", t);
    }
    forall item | ReadRaw(item).Ignored? ensures !Declared(item, TableName(t)) { IgnoredShowsNothing(item); }
    SomeItem(items, item => Declared(item, TableName(t)), f => Declares(f, t));
  }

  lemma FailClosedListing(items: seq<Json>, name: string)
    requires Readable(ReadRaw, items)
    ensures SomeFailClosed(FactSet(AllFacts(Raws(items))), name) <==>
      ListsFailClosed(items, name)
  {
    forall item | ReadRaw(item).Kept? ensures BaseChain(item, MAIN, name, "drop") <==> FailClosed(FactsIn(item), name) {
      FailClosedIff(item, name);
    }
    forall item | ReadRaw(item).Ignored? ensures !BaseChain(item, MAIN, name, "drop") { IgnoredShowsNothing(item); }
    SomeItem(items, item => BaseChain(item, MAIN, name, "drop"), f => FailClosed(f, name));
  }

  lemma PauseListing(items: seq<Json>)
    requires Readable(ReadRaw, items)
    ensures SomePauseHook(FactSet(AllFacts(Raws(items)))) <==> ListsPause(items)
  {
    forall item | ReadRaw(item).Kept? ensures PauseChain(item) <==> PauseHook(FactsIn(item)) { PauseIff(item); }
    forall item | ReadRaw(item).Ignored? ensures !PauseChain(item) { IgnoredShowsNothing(item); }
    SomeItem(items, item => PauseChain(item), f => PauseHook(f));
  }

  lemma MarkerListing(items: seq<Json>)
    requires Readable(ReadRaw, items)
    ensures SomeMarker(FactSet(AllFacts(Raws(items)))) <==> ListsMarker(items)
  {
    forall item | ReadRaw(item).Kept? ensures Marker(item) <==> IsMarker(FactsIn(item)) { MarkerIff(item); }
    forall item | ReadRaw(item).Ignored? ensures !Marker(item) { IgnoredShowsNothing(item); }
    SomeItem(items, item => Marker(item), f => IsMarker(f));
  }

  lemma RuleListing(items: seq<Json>, rule: Json)
    requires Readable(ReadRaw, items) && ReadRaw(rule).Kept? && IsRule(FactsIn(rule)) && RuleNamed(rule)
    ensures var f := FactsIn(rule);
      (exists c | c in FactSet(AllFacts(Raws(items))) :: ChainNamed(c, f.table, HashKey(f.chain))) <==>
        FindsChain(items, rule)
  {
    var f := FactsIn(rule);
    LocalOkIff(rule);
    MarkerIff(rule);
    ChainSoundIff(rule);
    forall item | ReadRaw(item).Kept?
      ensures Resolves(rule, item) <==> ChainNamed(FactsIn(item), f.table, HashKey(f.chain))
    {
      ResolvesIff(rule, item);
      KeptShows(rule);
      BlurHashes(Field(rule, "rule", "chain"));
    }
    forall item | ReadRaw(item).Ignored? ensures !Resolves(rule, item) { IgnoredShowsNothing(item); }
    SomeItem(items, item => Resolves(rule, item), c => ChainNamed(c, f.table, HashKey(f.chain)));
  }

  lemma RulesListing(items: seq<Json>)
    requires Readable(ReadRaw, items) && forall item | item in items :: RuleNamed(item)
    ensures RulesResolve(FactSet(AllFacts(Raws(items)))) <==> RulesFound(items)
  {
    var fs := FactSet(AllFacts(Raws(items)));
    var found := (f: Facts) => IsRule(f) ==> exists c | c in fs :: ChainNamed(c, f.table, HashKey(f.chain));
    EveryFact(items, found);
    forall item | item in items && ReadRaw(item).Kept?
      ensures found(FactsIn(item)) <==> (WithinEither(item, "rule") ==> FindsChain(items, item))
    {
      IsItsTable(item, "rule", Main);
      IsItsTable(item, "rule", Pause);
      if IsRule(FactsIn(item)) { RuleListing(items, item); }
    }
    forall item | item in items && ReadRaw(item).Ignored? ensures !WithinEither(item, "rule") {
      IgnoredShowsNothing(item);
    }
  }

  /** The observer accepts a listing if and only if it meets the policy. */
  lemma AcceptedIff(items: seq<Json>)
    ensures Accepted(items) <==> Policy(items)
  {
    AcceptedRaw(items);
    KnownListing(items);
    if AllKnown(items) {
      SoundListing(items);
      if RulesFound(items) { RulesNamed(items); }
      if AllSound(items) && forall item | item in items :: RuleNamed(item) {
        ClashListing(items);
        RulesListing(items);
        PlacesListing(items);
      }
    }
  }

  /** A rule that finds a chain names one. */
  lemma RulesNamed(items: seq<Json>)
    requires RulesFound(items)
    ensures forall item | item in items :: RuleNamed(item)
  {
    forall item | item in items ensures RuleNamed(item) {
      if WithinEither(item, "rule") { var chain :| chain in items && Resolves(item, chain); }
    }
  }

  lemma PlacesListing(items: seq<Json>)
    requires Readable(ReadRaw, items)
    ensures var fs := FactSet(AllFacts(Raws(items)));
      && (SomeDecl(fs, Main) <==> ListsDeclared(items, MAIN))
      && (SomeDecl(fs, Pause) <==> ListsDeclared(items, PAUSE))
      && (SomeFailClosed(fs, "input") <==> ListsFailClosed(items, "input"))
      && (SomeFailClosed(fs, "forward") <==> ListsFailClosed(items, "forward"))
      && (SomeFailClosed(fs, "output") <==> ListsFailClosed(items, "output"))
      && (SomePauseHook(fs) <==> ListsPause(items))
      && (SomeMarker(fs) <==> ListsMarker(items))
  {
    DeclListing(items, Main);
    DeclListing(items, Pause);
    FailClosedListing(items, "input");
    FailClosedListing(items, "forward");
    FailClosedListing(items, "output");
    PauseListing(items);
    MarkerListing(items);
  }

  /** A rule may be added when, and only when, it names a listed chain of its table and its counters are sound. */
  lemma RuleAdded(items: seq<Json>, rule: Json)
    requires Accepted(items) && WithinEither(rule, "rule")
    ensures Accepted(items + [rule]) <==> CountersOk(rule, "rule") && FindsChain(items, rule)
  {
    AcceptedIff(items);
    AcceptedIff(items + [rule]);
    if CountersOk(rule, "rule") && FindsChain(items, rule) { RuleFits(items, rule); }
    if Policy(items + [rule]) { RuleNeeds(items, rule); }
  }

  lemma RuleFits(items: seq<Json>, rule: Json)
    requires Policy(items) && WithinEither(rule, "rule")
    requires CountersOk(rule, "rule") && FindsChain(items, rule)
    ensures Policy(items + [rule])
  {
    RuleIsOnlyRule(rule);
    RulesKept(items, rule);
    PlacesKept(items, rule);
    ItemsKept(items, rule);
  }

  lemma ItemsKept(items: seq<Json>, item: Json)
    requires AllKnown(items) && AllSound(items) && NoneCollide(items)
    requires Known(item) && ChainSound(item) && CounterSound(item) && forall other :: !Collide(other, item)
    ensures AllKnown(items + [item]) && AllSound(items + [item]) && NoneCollide(items + [item])
  {
  }

  lemma RuleNeeds(items: seq<Json>, rule: Json)
    requires AllKnown(items + [rule]) && RulesFound(items + [rule]) && WithinEither(rule, "rule")
    ensures CountersOk(rule, "rule") && FindsChain(items, rule)
  {
    RuleIsOnlyRule(rule);
    assert rule in items + [rule];
    var chain :| chain in items + [rule] && Resolves(rule, chain);
    assert chain in items;
  }

  lemma RuleIsOnlyRule(rule: Json)
    requires WithinEither(rule, "rule")
    ensures ChainSound(rule) && CounterSound(rule) && !WithinEither(rule, "chain")
    ensures Known(rule) <==> CountersOk(rule, "rule")
    ensures forall item :: !Collide(item, rule) && !Resolves(item, rule)
  {
    forall kind | Shows(rule, kind) ensures kind == "rule" { OneKind(rule, kind, "rule"); }
    if IsMetainfo(rule) { OneKind(rule, "rule", "metainfo"); }
  }

  lemma RulesKept(items: seq<Json>, rule: Json)
    requires RulesFound(items) && FindsChain(items, rule)
    ensures RulesFound(items + [rule])
  {
    forall r | r in items + [rule] && WithinEither(r, "rule") ensures FindsChain(items + [rule], r) {
      var chain :| chain in items && Resolves(r, chain);
      assert chain in items + [rule];
    }
  }

  lemma PlacesKept(items: seq<Json>, item: Json)
    ensures forall table | ListsDeclared(items, table) :: ListsDeclared(items + [item], table)
    ensures forall name | ListsFailClosed(items, name) :: ListsFailClosed(items + [item], name)
    ensures ListsPause(items) ==> ListsPause(items + [item])
    ensures ListsMarker(items) ==> ListsMarker(items + [item])
  {
    assert forall x | x in items :: x in items + [item];
  }
}
