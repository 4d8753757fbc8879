/** `canonical` as the source runs it: one scan that fills `tables`, `objects`, `hooks` and
    `chains`, the checks on what was found, and one pass that appends to each table's listing. */
module FirewallObserver {
  import opened Json
  import opened CounterReadings
  import opened Rewriting
  import opened Firewall
  import opened FirewallTrace
  import opened Reachability

  // ---------------------------------------------------------------------------------------
  // Entries before their counter readings are removed

  ghost function Raws(items: seq<Json>): seq<Entry> {
    Entries(ReadRaw, items)
  }

  ghost function NormalAll(es: seq<Entry>): seq<Entry> {
    if es == [] then [] else [Normal(es[0])] + NormalAll(es[1..])
  }

  lemma BlurStrip(j: Json, inCounter: bool)
    ensures Blur(Strip(j, inCounter)) == Blur(j)
  {
  }

  lemma FieldFactStrip(body: Fields, inCounter: bool, key: string)
    requires key !in READINGS
    ensures FieldFact(StripFields(body, inCounter), key) == FieldFact(body, key)
    ensures Blur(Get(StripFields(body, inCounter), key)) == Blur(Get(body, key))
  {
    if key in body { BlurStrip(body[key], key == "counter"); }
  }

  lemma FactsOfNormal(e: Entry)
    ensures FactsOf(Normal(e)) == FactsOf(e) && BlockOf(Normal(e)) == BlockOf(e)
  {
    if e.kind != "table" {
      var inCounter := e.kind == "counter";
      FieldFactStrip(e.body, inCounter, "name");
      FieldFactStrip(e.body, inCounter, "hook");
      FieldFactStrip(e.body, inCounter, "dev");
      FieldFactStrip(e.body, inCounter, "prio");
      FieldFactStrip(e.body, inCounter, "policy");
      FieldFactStrip(e.body, inCounter, "chain");
    }
  }

  ghost predicate AllNormalise(es: seq<Entry>) {
    forall e | e in es :: Normalises(e)
  }

  lemma {:induction false} NormalEntries(items: seq<Json>)
    ensures Readable(Read, items) <==> Readable(ReadRaw, items) && AllNormalise(Raws(items))
    ensures Readable(Read, items) ==> EntriesOf(items) == NormalAll(Raws(items))
  {
    if items != [] {
      var (x, rest) := (items[0], items[1..]);
      NormalEntries(rest);
      assert Raws(items) == EntryOf(ReadRaw(x)) + Raws(rest);
      ReadableCons(Read, items);
      ReadableCons(ReadRaw, items);
      NormaliseCons(ReadRaw(x), Raws(rest));
    }
  }

  lemma ReadableCons(read: Json -> Reading<Entry>, items: seq<Json>)
    requires items != []
    ensures Readable(read, items) <==> !read(items[0]).Rejected? && Readable(read, items[1..])
  {
    assert forall item :: item in items <==> item == items[0] || item in items[1..];
  }

  lemma NormaliseCons(reading: Reading<Entry>, rest: seq<Entry>)
    ensures AllNormalise(EntryOf(reading) + rest) <==>
      (reading.Kept? ==> Normalises(reading.entry)) && AllNormalise(rest)
    ensures Normalise(reading) != Rejected ==>
      NormalAll(EntryOf(reading) + rest) == EntryOf(Normalise(reading)) + NormalAll(rest)
  {
    if reading.Kept? {
      assert ([reading.entry] + rest)[1..] == rest;
    } else {
      assert EntryOf(reading) + rest == rest;
    }
  }

  lemma {:induction false} FactsOfNormalAll(es: seq<Entry>)
    ensures AllFacts(NormalAll(es)) == AllFacts(es)
  {
    if es != [] {
      FactsOfNormalAll(es[1..]);
      FactsOfNormal(es[0]);
      assert AllFacts(es) == [FactsOf(es[0])] + AllFacts(es[1..]);
      assert AllFacts(NormalAll(es)) == [FactsOf(Normal(es[0]))] + AllFacts(NormalAll(es[1..]));
    }
  }

  lemma {:induction false} BlockOfNormalAll(es: seq<Entry>, k: nat)
    ensures Block(BlockOf, NormalAll(es), k) == NormalAll(Block(BlockOf, es, k))
  {
    if es != [] {
      BlockOfNormalAll(es[1..], k);
      FactsOfNormal(es[0]);
      assert NormalAll(es)[1..] == NormalAll(es[1..]);
      NormalAllCons(es[0], Block(BlockOf, es[1..], k));
    }
  }

  lemma NormalAllCons(e: Entry, rest: seq<Entry>)
    ensures NormalAll([e] + rest) == [Normal(e)] + NormalAll(rest)
    ensures NormalAll([] + rest) == [] + NormalAll(rest)
  {
    assert ([e] + rest)[1..] == rest && [] + rest == rest;
  }

  /** Acceptance can be read off the entries as listed. */
  lemma AcceptedRaw(items: seq<Json>)
    ensures Accepted(items) <==>
      Readable(ReadRaw, items) && AllNormalise(Raws(items)) && WellFormed(AllFacts(Raws(items)))
  {
    NormalEntries(items);
    FactsOfNormalAll(Raws(items));
  }

  // ---------------------------------------------------------------------------------------
  // The scan

  type Key = (TableId, Option<Json>)
  type Hook = (Option<Json>, Option<Json>, Json)

  function KeyOf(f: Facts): Key { (f.table, ChainKey(f)) }

  function HookOf(f: Facts): Hook
    requires IsBase(f)
  {
    (HashKey(f.hook.value), HashKey(f.dev), f.prio)
  }

  /** The clashes the scan can see; two markers are found later. */
  predicate ScanClash(x: Facts, y: Facts) {
    || (Declares(x, y.table) && IsDecl(y))
    || (IsChain(x) && IsChain(y) && KeyOf(x) == KeyOf(y))
    || SameHook(x, y)
  }

  ghost predicate TracksTables(es: seq<Entry>, tables: map<TableId, Entry>) {
    && (forall t | t in tables :: tables[t] in es && Declares(FactsOf(tables[t]), t))
    && (forall e | e in es && IsDecl(FactsOf(e)) :: e.table in tables)
  }

  ghost predicate TracksChains(es: seq<Entry>, chains: map<Key, Entry>) {
    && (forall k | k in chains :: chains[k] in es && IsChain(FactsOf(chains[k])) && KeyOf(FactsOf(chains[k])) == k)
    && (forall e | e in es && IsChain(FactsOf(e)) :: KeyOf(FactsOf(e)) in chains)
  }

  ghost predicate TracksHooks(es: seq<Entry>, hooks: set<Hook>) {
    && (forall h | h in hooks :: exists e | e in es :: IsBase(FactsOf(e)) && HookOf(FactsOf(e)) == h)
    && (forall e | e in es && IsBase(FactsOf(e)) :: HookOf(FactsOf(e)) in hooks)
  }

  ghost predicate Fits(es: seq<Entry>, e: Entry) {
    && (IsChain(FactsOf(e)) ==> ChainOk(FactsOf(e)))
    && (forall x | x in es :: !ScanClash(FactsOf(x), FactsOf(e)))
  }

  /** Every entry fits the ones before it. */
  ghost predicate AllFit(es: seq<Entry>) {
    forall j | 0 <= j < |es| :: Fits(es[..j], es[j])
  }

  function Objects(es: seq<Entry>): seq<Entry> {
    if es == [] then []
    else (if es[0].kind == "table" then [] else [es[0]]) + Objects(es[1..])
  }

  lemma {:induction false} ObjectsAppend(es: seq<Entry>, e: Entry)
    ensures Objects(es + [e]) == Objects(es) + if e.kind == "table" then [] else [e]
  {
    if es == [] {
      assert es + [e] == [e];
    } else {
      assert (es + [e])[1..] == es[1..] + [e];
      ObjectsAppend(es[1..], e);
      Reassociate(if es[0].kind == "table" then [] else [es[0]], Objects(es[1..]),
                  if e.kind == "table" then [] else [e]);
    }
  }

  lemma AllFitAppend(es: seq<Entry>, e: Entry)
    requires AllFit(es) && Fits(es, e)
    ensures AllFit(es + [e])
  {
    var all := es + [e];
    forall j | 0 <= j < |all| ensures Fits(all[..j], all[j]) {
      assert all[..j] == if j < |es| then es[..j] else es;
    }
  }

  ghost predicate Tracks(es: seq<Entry>, tables: map<TableId, Entry>, objects: seq<Entry>,
                         chains: map<Key, Entry>, hooks: set<Hook>) {
    && AllFit(es) && objects == Objects(es)
    && TracksTables(es, tables) && TracksChains(es, chains) && TracksHooks(es, hooks)
  }

  lemma OneMore<T>(s: seq<T>, x: T)
    ensures forall y :: y in s + [x] <==> y in s || y == x
  {
  }

  lemma NoTable(es: seq<Entry>, e: Entry, tables: map<TableId, Entry>)
    requires e.kind != "table" && TracksTables(es, tables)
    ensures TracksTables(es + [e], tables)
  {
    OneMore(es, e);
  }

  lemma NoChain(es: seq<Entry>, e: Entry, chains: map<Key, Entry>, hooks: set<Hook>)
    requires e.kind != "chain" && TracksChains(es, chains) && TracksHooks(es, hooks)
    ensures TracksChains(es + [e], chains) && TracksHooks(es + [e], hooks)
  {
    OneMore(es, e);
    forall h | h in hooks ensures exists x | x in es + [e] :: IsBase(FactsOf(x)) && HookOf(FactsOf(x)) == h {
      var x :| x in es && IsBase(FactsOf(x)) && HookOf(FactsOf(x)) == h;
      assert x in es + [e];
    }
  }

  lemma OtherFits(es: seq<Entry>, e: Entry)
    requires e.kind != "table" && e.kind != "chain"
    ensures Fits(es, e)
  {
  }

  /** A declaration, which the scan keeps apart from the other objects. */
  method ScanTable(ghost es: seq<Entry>, e: Entry, tables: map<TableId, Entry>)
    returns (ok: bool, tables': map<TableId, Entry>)
    requires e.kind == "table" && TracksTables(es, tables)
    ensures ok <==> Fits(es, e)
    ensures ok ==> TracksTables(es + [e], tables')
  {
    OneMore(es, e);
    if e.table in tables {
      assert ScanClash(FactsOf(tables[e.table]), FactsOf(e));
      return false, tables;
    }
    return true, tables[e.table := e];
  }

  /** One object of the scan; not `ok` when it must be refused. */
  method ScanOne(ghost es: seq<Entry>, e: Entry, tables: map<TableId, Entry>, objects: seq<Entry>,
                 chains: map<Key, Entry>, hooks: set<Hook>)
    returns (ok: bool, tables': map<TableId, Entry>, objects': seq<Entry>, chains': map<Key, Entry>, hooks': set<Hook>)
    requires Tracks(es, tables, objects, chains, hooks)
    ensures ok <==> Fits(es, e)
    ensures ok ==> Tracks(es + [e], tables', objects', chains', hooks')
  {
    ok, tables', objects', chains', hooks' := true, tables, objects, chains, hooks;
    ObjectsAppend(es, e);
    if e.kind == "table" {
      ok, tables' := ScanTable(es, e, tables);
      NoChain(es, e, chains, hooks);
    } else {
      NoTable(es, e, tables);
      objects' := objects + [e];
      if e.kind == "chain" {
        ok, chains', hooks' := ScanChain(es, e, chains, hooks);
      } else {
        OtherFits(es, e);
        NoChain(es, e, chains, hooks);
      }
    }
    if ok { AllFitAppend(es, e); }
  }

  method ScanChain(ghost es: seq<Entry>, e: Entry, chains: map<Key, Entry>, hooks: set<Hook>)
    returns (ok: bool, chains': map<Key, Entry>, hooks': set<Hook>)
    requires e.kind == "chain" && TracksChains(es, chains) && TracksHooks(es, hooks)
    ensures ok <==> Fits(es, e)
    ensures ok ==> TracksChains(es + [e], chains') && TracksHooks(es + [e], hooks')
  {
    var f := FactsOf(e);
    ok, chains', hooks' := ChainOk(f), chains, hooks;
    if !ok { return; }
    assert e in es + [e] && forall x :: x in es + [e] <==> x in es || x == e;
    if KeyOf(f) in chains {
      assert ScanClash(FactsOf(chains[KeyOf(f)]), f);
      ok := false;
      return;
    }
    chains' := chains[KeyOf(f) := e];
    if "hook" in e.body {
      if HookOf(f) in hooks {
        ghost var x :| x in es && IsBase(FactsOf(x)) && HookOf(FactsOf(x)) == HookOf(f);
        assert SameHook(FactsOf(x), f) && ScanClash(FactsOf(x), f);
        ok := false;
      } else {
        hooks' := hooks + {HookOf(f)};
      }
    }
  }

  lemma EntriesStep(read: Json -> Reading<Entry>, items: seq<Json>, n: nat)
    requires n < |items|
    ensures Entries(read, items[..n + 1]) == Entries(read, items[..n]) + EntryOf(read(items[n]))
  {
    assert items[..n + 1] == items[..n] + [items[n]];
    EntriesConcat(read, items[..n], [items[n]]);
    assert Entries(read, [items[n]]) == EntryOf(read(items[n])) + Entries(read, []);
  }

  lemma EntriesPrefix(read: Json -> Reading<Entry>, items: seq<Json>, n: nat)
    requires n <= |items|
    ensures Entries(read, items[..n]) <= Entries(read, items)
  {
    assert items == items[..n] + items[n..];
    EntriesConcat(read, items[..n], items[n..]);
  }

  /** The first n items have been read, and `es` are their entries. */
  ghost predicate Scanned(read: Json -> Reading<Entry>, items: seq<Json>, n: nat, es: seq<Entry>) {
    n <= |items| && es == Entries(read, items[..n]) && Readable(read, items[..n])
  }

  lemma ScannedStep(read: Json -> Reading<Entry>, items: seq<Json>, n: nat, es: seq<Entry>)
    requires n < |items| && Scanned(read, items, n, es) && !read(items[n]).Rejected?
    ensures Scanned(read, items, n + 1, if read(items[n]).Kept? then es + [read(items[n]).entry] else es)
  {
    EntriesStep(read, items, n);
    assert items[..n + 1] == items[..n] + [items[n]];
    assert es + [] == es;
  }

  lemma ScanRefused(read: Json -> Reading<Entry>, items: seq<Json>, n: nat, es: seq<Entry>, e: Entry)
    requires n < |items| && Scanned(read, items, n, es) && read(items[n]) == Kept(e) && !Fits(es, e)
    ensures !AllFit(Entries(read, items))
  {
    EntriesStep(read, items, n);
    EntriesPrefix(read, items, n + 1);
    RefusedLater(es, e, Entries(read, items));
  }

  lemma ScanComplete(read: Json -> Reading<Entry>, items: seq<Json>, es: seq<Entry>)
    requires Scanned(read, items, |items|, es)
    ensures es == Entries(read, items) && Readable(read, items)
  {
    assert items[..|items|] == items;
  }

  /** The scan, whatever a single item is read as. */
  method Scan(read: Json -> Reading<Entry>, items: seq<Json>)
    returns (ok: bool, tables: map<TableId, Entry>, objects: seq<Entry>, chains: map<Key, Entry>)
    ensures ok <==> Readable(read, items) && AllFit(Entries(read, items))
    ensures ok ==> exists hooks :: Tracks(Entries(read, items), tables, objects, chains, hooks)
  {
    ok, tables, objects, chains := true, map[], [], map[];
    var hooks: set<Hook> := {};
    ghost var es := [];
    for n := 0 to |items|
      invariant ok && Scanned(read, items, n, es) && Tracks(es, tables, objects, chains, hooks)
    {
      var reading := read(items[n]);
      if reading.Rejected? { return false, tables, objects, chains; }
      ScannedStep(read, items, n, es);
      if reading.Kept? {
        ok, tables, objects, chains, hooks := ScanOne(es, reading.entry, tables, objects, chains, hooks);
        if !ok {
          ScanRefused(read, items, n, es, reading.entry);
          return;
        }
        es := es + [reading.entry];
      }
    }
    ScanComplete(read, items, es);
  }

  lemma RefusedLater(es: seq<Entry>, e: Entry, all: seq<Entry>)
    requires es + [e] <= all && !Fits(es, e)
    ensures !AllFit(all)
  {
    assert all[..|es|] == es && all[|es|] == e;
  }

  // ---------------------------------------------------------------------------------------
  // The checks on what the scan found

  lemma AllFitNoClash(es: seq<Entry>)
    ensures AllFit(es) <==>
      && (forall e | e in es :: IsChain(FactsOf(e)) ==> ChainOk(FactsOf(e)))
      && (forall i, j | 0 <= i < j < |es| :: !ScanClash(FactsOf(es[i]), FactsOf(es[j])))
  {
    if AllFit(es) {
      forall e | e in es && IsChain(FactsOf(e)) ensures ChainOk(FactsOf(e)) {
        var j :| 0 <= j < |es| && es[j] == e;
        assert Fits(es[..j], es[j]);
      }
      forall i, j | 0 <= i < j < |es| ensures !ScanClash(FactsOf(es[i]), FactsOf(es[j])) {
        assert Fits(es[..j], es[j]);
        assert es[..j][i] == es[i];
      }
    }
  }

  /** In a scanned listing a chain is found by its key alone. */
  lemma ChainUnique(es: seq<Entry>, x: Entry, y: Entry)
    requires AllFit(es) && x in es && y in es
    requires IsChain(FactsOf(x)) && IsChain(FactsOf(y)) && KeyOf(FactsOf(x)) == KeyOf(FactsOf(y))
    ensures x == y
  {
    AllFitNoClash(es);
    var i :| 0 <= i < |es| && es[i] == x;
    var j :| 0 <= j < |es| && es[j] == y;
    assert i < j ==> !ScanClash(FactsOf(es[i]), FactsOf(es[j]));
    assert j < i ==> !ScanClash(FactsOf(es[j]), FactsOf(es[i]));
  }

  /** `chains.get(key)`: the facts about the one chain with that key. */
  method Lookup(ghost es: seq<Entry>, chains: map<Key, Entry>, key: Key) returns (r: Option<Facts>)
    requires TracksChains(es, chains) && AllFit(es)
    ensures r.Some? ==> exists e | e in es :: r.value == FactsOf(e) && ChainNamed(r.value, key.0, key.1)
    ensures forall e | e in es && ChainNamed(FactsOf(e), key.0, key.1) :: r == Some(FactsOf(e))
  {
    r := if key in chains then Some(FactsOf(chains[key])) else None;
    forall e | e in es && ChainNamed(FactsOf(e), key.0, key.1) ensures r == Some(FactsOf(e)) {
      assert KeyOf(FactsOf(e)) == key;
      ChainUnique(es, e, chains[key]);
    }
  }

  ghost predicate HasFailClosed(es: seq<Entry>, name: string) {
    exists e | e in es :: FailClosed(FactsOf(e), name)
  }

  ghost predicate HasPauseHook(es: seq<Entry>) {
    exists e | e in es :: PauseHook(FactsOf(e))
  }

  /** The base chains that keep the main table fail-closed, and the pause hook. */
  ghost predicate HooksInPlace(es: seq<Entry>) {
    && HasFailClosed(es, "input") && HasFailClosed(es, "forward") && HasFailClosed(es, "output")
    && HasPauseHook(es)
  }

  method CheckFailClosed(ghost es: seq<Entry>, chains: map<Key, Entry>, name: string) returns (ok: bool)
    requires TracksChains(es, chains) && AllFit(es)
    ensures ok <==> HasFailClosed(es, name)
  {
    var chain := Lookup(es, chains, (Main, Some(Str(name))));
    ok := chain.Some? && FailClosed(chain.value, name);
  }

  method CheckPause(ghost es: seq<Entry>, chains: map<Key, Entry>) returns (ok: bool)
    requires TracksChains(es, chains) && AllFit(es)
    ensures ok <==> HasPauseHook(es)
  {
    var chain := Lookup(es, chains, (Pause, Some(Str("forward"))));
    ok := chain.Some? && PauseHook(chain.value);
  }

  method CheckHooks(ghost es: seq<Entry>, chains: map<Key, Entry>) returns (ok: bool)
    requires TracksChains(es, chains) && AllFit(es)
    ensures ok <==> HooksInPlace(es)
  {
    var input := CheckFailClosed(es, chains, "input");
    var forward := CheckFailClosed(es, chains, "forward");
    var output := CheckFailClosed(es, chains, "output");
    var pause := CheckPause(es, chains);
    ok := input && forward && output && pause;
  }

  // ---------------------------------------------------------------------------------------
  // The listings

  ghost predicate RuleOk(es: seq<Entry>, e: Entry) {
    IsRule(FactsOf(e)) ==>
      && HashKey(FactsOf(e).chain).Some?
      && exists c | c in es :: ChainNamed(FactsOf(c), e.table, HashKey(FactsOf(e).chain))
  }

  function ObjectBlock(t: TableId): nat { if t == Main then 1 else 3 }

  /** What appending the objects one by one gives for a table. */
  ghost function Appended(objects: seq<Entry>, t: TableId): seq<Json> {
    ShowAll(Nft(), NormalAll(Block(BlockOf, objects, ObjectBlock(t))))
  }

  /** What one object adds to the listing of a table. */
  function Tail(e: Entry, t: TableId): seq<Json> {
    if e.table == t then [ToJson(Normal(e))] else []
  }

  lemma AppendedStep(objects: seq<Entry>, e: Entry, t: TableId)
    requires e.kind != "table"
    ensures Appended(objects + [e], t) == Appended(objects, t) + Tail(e, t)
  {
    var block := Block(BlockOf, objects, ObjectBlock(t));
    BlockAppend(objects, e, t);
    if e.table == t {
      NormalAllAppend(block, e);
      ShowAllConcat(Nft(), NormalAll(block), [Normal(e)]);
      assert ShowAll(Nft(), [Normal(e)]) == [ToJson(Normal(e))] + ShowAll(Nft(), []);
    }
  }

  lemma BlockAppend(objects: seq<Entry>, e: Entry, t: TableId)
    requires e.kind != "table"
    ensures Block(BlockOf, objects + [e], ObjectBlock(t)) ==
      if e.table == t then Block(BlockOf, objects, ObjectBlock(t)) + [e] else Block(BlockOf, objects, ObjectBlock(t))
  {
    var k := ObjectBlock(t);
    BlockConcat(BlockOf, objects, [e], k);
    assert Block(BlockOf, [e], k) == (if BlockOf(e) == k then [e] else []) + Block(BlockOf, [], k);
  }

  lemma {:induction false} NormalAllAppend(es: seq<Entry>, e: Entry)
    ensures NormalAll(es + [e]) == NormalAll(es) + [Normal(e)]
  {
    if es == [] {
      assert es + [e] == [e];
      assert NormalAll([e]) == [Normal(e)] + NormalAll([]);
    } else {
      assert (es + [e])[1..] == es[1..] + [e];
      NormalAllAppend(es[1..], e);
    }
  }

  method StripObject(e: Entry) returns (r: Option<Json>)
    requires e.kind != "table"
    ensures r == if Normalises(e) then Some(ToJson(Normal(e))) else None
  {
    var body := WithoutCounterReadings(Obj(e.body), e.kind == "counter");
    if body.None? { return None; }
    assert Strip(Obj(e.body), e.kind == "counter") == Obj(Normal(e).body);
    return Some(Obj(map[e.kind := body.value]));
  }

  method CheckRule(ghost es: seq<Entry>, chains: map<Key, Entry>, e: Entry) returns (ok: bool)
    requires TracksChains(es, chains)
    ensures ok <==> RuleOk(es, e)
  {
    if e.kind != "rule" { return true; }
    var key := HashKey(FactsOf(e).chain);
    ok := key.Some? && (e.table, key) in chains;
    if ok {
      assert ChainNamed(FactsOf(chains[(e.table, key)]), e.table, key);
    } else if c :| c in es && ChainNamed(FactsOf(c), e.table, key) {
      assert KeyOf(FactsOf(c)) == (e.table, key);
    }
  }

  /** A table's listing: its declaration, then the objects appended so far. */
  ghost function Listed(head: Entry, objects: seq<Entry>, t: TableId): seq<Json> {
    [ToJson(head)] + Appended(objects, t)
  }

  lemma ListedStep(head: Entry, objects: seq<Entry>, n: nat, t: TableId)
    requires n < |objects| && objects[n].kind != "table"
    ensures Listed(head, objects[..n + 1], t) == Listed(head, objects[..n], t) + Tail(objects[n], t)
  {
    assert objects[..n + 1] == objects[..n] + [objects[n]];
    AppendedStep(objects[..n], objects[n], t);
  }

  method AppendOne(ghost es: seq<Entry>, e: Entry, chains: map<Key, Entry>, main: seq<Json>, pause: seq<Json>)
    returns (ok: bool, main': seq<Json>, pause': seq<Json>)
    requires TracksChains(es, chains) && e.kind != "table"
    ensures ok <==> RuleOk(es, e) && Normalises(e)
    ensures ok ==> main' == main + Tail(e, Main) && pause' == pause + Tail(e, Pause)
  {
    main', pause' := main, pause;
    ok := CheckRule(es, chains, e);
    if !ok { return; }
    var json := StripObject(e);
    ok := json.Some?;
    if !ok { return; }
    if e.table == Main { main' := main + [json.value]; } else { pause' := pause + [json.value]; }
  }

  /** The first n objects are good, and both listings hold what they add. */
  ghost predicate Appending(
      es: seq<Entry>, heads: map<TableId, Entry>, objects: seq<Entry>, n: nat, main: seq<Json>, pause: seq<Json>)
  {
    && n <= |objects| && Main in heads && Pause in heads
    && (forall i | 0 <= i < n :: RuleOk(es, objects[i]) && Normalises(objects[i]))
    && main == Listed(heads[Main], objects[..n], Main) && pause == Listed(heads[Pause], objects[..n], Pause)
  }

  lemma AppendingStart(es: seq<Entry>, heads: map<TableId, Entry>, objects: seq<Entry>)
    requires Main in heads && Pause in heads
    ensures Appending(es, heads, objects, 0, [ToJson(heads[Main])], [ToJson(heads[Pause])])
  {
    assert objects[..0] == [];
  }

  lemma AppendingStep(
      es: seq<Entry>, heads: map<TableId, Entry>, objects: seq<Entry>, n: nat, main: seq<Json>, pause: seq<Json>)
    requires n < |objects| && Appending(es, heads, objects, n, main, pause) && objects[n].kind != "table"
    requires RuleOk(es, objects[n]) && Normalises(objects[n])
    ensures Appending(es, heads, objects, n + 1, main + Tail(objects[n], Main), pause + Tail(objects[n], Pause))
  {
    ListedStep(heads[Main], objects, n, Main);
    ListedStep(heads[Pause], objects, n, Pause);
  }

  lemma AppendingDone(
      es: seq<Entry>, heads: map<TableId, Entry>, objects: seq<Entry>, main: seq<Json>, pause: seq<Json>)
    requires Appending(es, heads, objects, |objects|, main, pause)
    ensures forall e | e in objects :: RuleOk(es, e) && Normalises(e)
    ensures main == Listed(heads[Main], objects, Main) && pause == Listed(heads[Pause], objects, Pause)
  {
    assert objects[..|objects|] == objects;
  }

  method AppendObjects(ghost es: seq<Entry>, objects: seq<Entry>, chains: map<Key, Entry>, heads: map<TableId, Entry>)
    returns (ok: bool, main: seq<Json>, pause: seq<Json>)
    requires TracksChains(es, chains) && Main in heads && Pause in heads
    requires forall e | e in objects :: e.kind != "table"
    ensures ok <==> forall e | e in objects :: RuleOk(es, e) && Normalises(e)
    ensures ok ==> main == Listed(heads[Main], objects, Main) && pause == Listed(heads[Pause], objects, Pause)
  {
    ok, main, pause := true, [ToJson(heads[Main])], [ToJson(heads[Pause])];
    AppendingStart(es, heads, objects);
    for n := 0 to |objects|
      invariant ok && Appending(es, heads, objects, n, main, pause)
    {
      assert objects[n] in objects;
      ghost var (m, p) := (main, pause);
      ok, main, pause := AppendOne(es, objects[n], chains, main, pause);
      if !ok { return; }
      AppendingStep(es, heads, objects, n, m, p);
    }
    AppendingDone(es, heads, objects, main, pause);
  }

  // ---------------------------------------------------------------------------------------
  // The revision marker

  ghost predicate NamesOk(es: seq<Entry>) {
    forall e | e in es && IsMainCounter(FactsOf(e)) && FactsOf(e).name.Some? :: FactsOf(e).name.value.Str?
  }

  function CountMarkers(es: seq<Entry>): nat {
    if es == [] then 0
    else CountMarkers(es[..|es| - 1]) + if IsMarker(FactsOf(es[|es| - 1])) then 1 else 0
  }

  /** The markers among the scanned objects, or None when a counter's name is no string. */
  method Markers(objects: seq<Entry>) returns (count: Option<nat>)
    ensures count == if NamesOk(objects) then Some(CountMarkers(objects)) else None
  {
    var found := 0;
    for n := 0 to |objects|
      invariant NamesOk(objects[..n]) && found == CountMarkers(objects[..n])
    {
      var f := FactsOf(objects[n]);
      assert objects[..n + 1] == objects[..n] + [objects[n]];
      if IsMainCounter(f) && f.name.Some? && !f.name.value.Str? {
        assert objects[n] in objects;
        return None;
      }
      if IsMarker(f) { found := found + 1; }
    }
    assert objects[..|objects|] == objects;
    return Some(found);
  }

  ghost predicate MarkerAt(es: seq<Entry>, i: int) {
    0 <= i < |es| && IsMarker(FactsOf(es[i]))
  }

  /** Exactly one marker: some entry is one, and no two are. */
  lemma {:induction false} CountMarkersOne(es: seq<Entry>)
    ensures CountMarkers(es) == 0 <==> forall i :: !MarkerAt(es, i)
    ensures CountMarkers(es) <= 1 <==> forall i, j :: MarkerAt(es, i) && MarkerAt(es, j) ==> i == j
  {
    if es != [] {
      var last := |es| - 1;
      var init := es[..last];
      CountMarkersOne(init);
      assert CountMarkers(es) == CountMarkers(init) + if MarkerAt(es, last) then 1 else 0;
      assert forall i :: MarkerAt(es, i) <==> MarkerAt(init, i) || (i == last && MarkerAt(es, last));
    }
  }

  // ---------------------------------------------------------------------------------------
  // The scanned state decides acceptance

  ghost predicate HasDecl(es: seq<Entry>, t: TableId) {
    exists e | e in es :: Declares(FactsOf(e), t)
  }

  ghost predicate OneMarker(es: seq<Entry>) {
    (exists i :: MarkerAt(es, i)) && forall i, j :: MarkerAt(es, i) && MarkerAt(es, j) ==> i == j
  }

  ghost predicate AllRulesOk(es: seq<Entry>) {
    forall e | e in es :: RuleOk(es, e)
  }

  lemma NoClashIff(es: seq<Entry>)
    ensures NoClash(AllFacts(es)) <==>
      && (forall i, j | 0 <= i < j < |es| :: !ScanClash(FactsOf(es[i]), FactsOf(es[j])))
      && (forall i, j :: MarkerAt(es, i) && MarkerAt(es, j) ==> i == j)
  {
    var fs := AllFacts(es);
    if NoClash(fs) {
      forall i, j | 0 <= i < j < |es| ensures !ScanClash(FactsOf(es[i]), FactsOf(es[j])) {
        assert !Clash(fs[i], fs[j]);
      }
      forall i, j | MarkerAt(es, i) && MarkerAt(es, j) ensures i == j {
        assert i < j ==> !Clash(fs[i], fs[j]);
        assert j < i ==> !Clash(fs[j], fs[i]);
      }
    } else {
      var i, j :| 0 <= i < j < |fs| && Clash(fs[i], fs[j]);
      assert ScanClash(FactsOf(es[i]), FactsOf(es[j])) || (MarkerAt(es, i) && MarkerAt(es, j));
    }
  }

  lemma RulesIff(es: seq<Entry>)
    ensures AllRulesOk(es) <==>
      && (forall f | f in FactSet(AllFacts(es)) && IsRule(f) :: HashKey(f.chain).Some?)
      && RulesResolve(FactSet(AllFacts(es)))
  {
    FactSetMembers(es);
    if AllRulesOk(es) {
      forall r | r in FactSet(AllFacts(es)) && IsRule(r)
        ensures HashKey(r.chain).Some?
        ensures exists c | c in FactSet(AllFacts(es)) :: ChainNamed(c, r.table, HashKey(r.chain))
      {
        var e :| e in es && FactsOf(e) == r;
        assert RuleOk(es, e);
        var c :| c in es && ChainNamed(FactsOf(c), e.table, HashKey(FactsOf(e).chain));
        assert FactsOf(c) in FactSet(AllFacts(es));
      }
    } else {
      var e :| e in es && !RuleOk(es, e);
      assert FactsOf(e) in FactSet(AllFacts(es));
      if c :| c in FactSet(AllFacts(es)) && ChainNamed(c, e.table, HashKey(FactsOf(e).chain)) {
        var x :| x in es && FactsOf(x) == c;
      }
    }
  }

  lemma FactSetMembers(es: seq<Entry>)
    ensures forall e | e in es :: FactsOf(e) in FactSet(AllFacts(es))
    ensures forall f | f in FactSet(AllFacts(es)) :: exists e | e in es :: FactsOf(e) == f
  {
    forall e | e in es ensures FactsOf(e) in FactSet(AllFacts(es)) {
      var i :| 0 <= i < |es| && es[i] == e;
      assert AllFacts(es)[i] == FactsOf(e);
    }
    forall f | f in FactSet(AllFacts(es)) ensures exists e | e in es :: FactsOf(e) == f {
      var i :| 0 <= i < |es| && AllFacts(es)[i] == f;
      assert es[i] in es;
    }
  }

  lemma LocalIff(es: seq<Entry>)
    requires AllFit(es)
    ensures AllLocal(FactSet(AllFacts(es))) <==>
      NamesOk(es) && forall f | f in FactSet(AllFacts(es)) && IsRule(f) :: HashKey(f.chain).Some?
  {
    FactSetMembers(es);
    AllFitNoClash(es);
    if NamesOk(es) && forall f | f in FactSet(AllFacts(es)) && IsRule(f) :: HashKey(f.chain).Some? {
      forall f | f in FactSet(AllFacts(es)) ensures LocalOk(f) {
        var e :| e in es && FactsOf(e) == f;
      }
    }
    if AllLocal(FactSet(AllFacts(es))) {
      forall e | e in es && IsMainCounter(FactsOf(e)) && FactsOf(e).name.Some? ensures FactsOf(e).name.value.Str? {
        assert LocalOk(FactsOf(e));
      }
    }
  }

  /** The checks after the scan decide whether the scanned entries are well formed. */
  lemma ChecksDecide(es: seq<Entry>)
    requires AllFit(es)
    ensures WellFormed(AllFacts(es)) <==>
      && HasDecl(es, Main) && HasDecl(es, Pause) && HooksInPlace(es)
      && AllRulesOk(es) && NamesOk(es) && OneMarker(es)
  {
    AllFitNoClash(es);
    NoClashIff(es);
    CompleteIff(es);
  }

  lemma CompleteIff(es: seq<Entry>)
    requires AllFit(es)
    ensures Complete(FactSet(AllFacts(es))) <==>
      && HasDecl(es, Main) && HasDecl(es, Pause) && HooksInPlace(es)
      && AllRulesOk(es) && NamesOk(es) && exists i :: MarkerAt(es, i)
  {
    LocalIff(es);
    RulesIff(es);
    DeclIff(es, Main);
    DeclIff(es, Pause);
    FailClosedIff(es, "input");
    FailClosedIff(es, "forward");
    FailClosedIff(es, "output");
    PauseIff(es);
    MarkerIff(es);
  }

  lemma DeclIff(es: seq<Entry>, t: TableId)
    ensures SomeDecl(FactSet(AllFacts(es)), t) <==> HasDecl(es, t)
  {
    FactSetMembers(es);
  }

  lemma FailClosedIff(es: seq<Entry>, name: string)
    ensures SomeFailClosed(FactSet(AllFacts(es)), name) <==> HasFailClosed(es, name)
  {
    FactSetMembers(es);
  }

  lemma PauseIff(es: seq<Entry>)
    ensures SomePauseHook(FactSet(AllFacts(es))) <==> HasPauseHook(es)
  {
    FactSetMembers(es);
  }

  lemma MarkerIff(es: seq<Entry>)
    ensures SomeMarker(FactSet(AllFacts(es))) <==> exists i :: MarkerAt(es, i)
  {
    FactSetMembers(es);
    if i :| MarkerAt(es, i) { assert FactsOf(es[i]) in FactSet(AllFacts(es)); }
    if f :| f in FactSet(AllFacts(es)) && IsMarker(f) {
      var e :| e in es && FactsOf(e) == f;
      var i :| 0 <= i < |es| && es[i] == e;
      assert MarkerAt(es, i);
    }
  }

  lemma {:induction false} ObjectsMembers(es: seq<Entry>)
    ensures forall e :: e in Objects(es) <==> e in es && e.kind != "table"
  {
    if es != [] {
      ObjectsMembers(es[1..]);
      assert forall e :: e in es <==> e == es[0] || e in es[1..];
    }
  }

  lemma {:induction false} CountObjects(es: seq<Entry>)
    ensures CountMarkers(Objects(es)) == CountMarkers(es)
  {
    if es != [] {
      var (init, e) := (es[..|es| - 1], es[|es| - 1]);
      assert es == init + [e];
      CountObjects(init);
      ObjectsAppend(init, e);
      assert (Objects(init) + [e])[..|Objects(init)|] == Objects(init) && Objects(init) + [] == Objects(init);
      assert CountMarkers(es) == CountMarkers(init) + if IsMarker(FactsOf(e)) then 1 else 0;
    }
  }

  lemma {:induction false} ObjectBlocks(es: seq<Entry>, t: TableId)
    ensures Block(BlockOf, Objects(es), ObjectBlock(t)) == Block(BlockOf, es, ObjectBlock(t))
  {
    if es != [] {
      ObjectBlocks(es[1..], t);
      var rest := Objects(es[1..]);
      assert ([es[0]] + rest)[1..] == rest && [] + rest == rest;
    }
  }

  /** The objects decide what the entries decide; table declarations have no say. */
  lemma ObjectsDecide(es: seq<Entry>)
    ensures AllRulesOk(es) <==> forall e | e in Objects(es) :: RuleOk(es, e)
    ensures AllNormalise(es) <==> AllNormalise(Objects(es))
    ensures NamesOk(es) <==> NamesOk(Objects(es))
    ensures OneMarker(es) <==> CountMarkers(Objects(es)) == 1
  {
    ObjectsMembers(es);
    CountObjects(es);
    CountMarkersOne(es);
  }

  function DeclBlock(t: TableId): nat { if t == Main then 0 else 2 }

  lemma {:induction false} NoDeclBlock(es: seq<Entry>, t: TableId)
    requires forall e | e in es :: !Declares(FactsOf(e), t)
    ensures Block(BlockOf, es, DeclBlock(t)) == []
  {
    if es != [] {
      assert es[0] in es;
      NoDeclBlock(es[1..], t);
    }
  }

  /** A scanned table has exactly one declaration. */
  lemma {:induction false} OneDeclBlock(es: seq<Entry>, head: Entry, t: TableId)
    requires AllFit(es) && head in es && Declares(FactsOf(head), t)
    ensures Block(BlockOf, es, DeclBlock(t)) == [head]
  {
    AllFitNoClash(es);
    var i :| 0 <= i < |es| && es[i] == head;
    var (p, s) := (es[..i], es[i + 1..]);
    assert es == p + [head] + s;
    NoOtherDecl(es, i, t);
    NoDeclBlock(p, t);
    NoDeclBlock(s, t);
    BlockOfThree(BlockOf, p, [head], s, DeclBlock(t));
    assert Block(BlockOf, [head], DeclBlock(t)) == [head] + Block(BlockOf, [], DeclBlock(t));
  }

  lemma NoOtherDecl(es: seq<Entry>, i: int, t: TableId)
    requires 0 <= i < |es| && Declares(FactsOf(es[i]), t)
    requires forall i, j | 0 <= i < j < |es| :: !ScanClash(FactsOf(es[i]), FactsOf(es[j]))
    ensures forall e | e in es[..i] :: !Declares(FactsOf(e), t)
    ensures forall e | e in es[i + 1..] :: !Declares(FactsOf(e), t)
  {
    forall e | e in es[..i] ensures !Declares(FactsOf(e), t) {
      var j :| 0 <= j < i && es[j] == e;
      assert !ScanClash(FactsOf(es[j]), FactsOf(es[i]));
    }
    forall e | e in es[i + 1..] ensures !Declares(FactsOf(e), t) {
      var j :| i < j < |es| && es[j] == e;
      assert !ScanClash(FactsOf(es[i]), FactsOf(es[j]));
    }
  }

  lemma ListingOfScan(items: seq<Json>, head: Entry, t: TableId)
    requires Readable(Read, items) && AllFit(Raws(items))
    requires head in Raws(items) && Declares(FactsOf(head), t)
    ensures Listing(EntriesOf(items), t) == Listed(head, Objects(Raws(items)), t)
  {
    var es := Raws(items);
    NormalEntries(items);
    BlockOfNormalAll(es, DeclBlock(t));
    BlockOfNormalAll(es, ObjectBlock(t));
    ObjectBlocks(es, t);
    ShowDecl(es, head, t);
    assert EntriesOf(items) == NormalAll(es);
  }

  lemma ShowDecl(es: seq<Entry>, head: Entry, t: TableId)
    requires AllFit(es) && head in es && Declares(FactsOf(head), t)
    ensures ShowAll(Nft(), NormalAll(Block(BlockOf, es, DeclBlock(t)))) == [ToJson(head)]
  {
    OneDeclBlock(es, head, t);
    assert NormalAll([head]) == [Normal(head)] + NormalAll([]);
    assert ShowAll(Nft(), [head]) == [ToJson(head)] + ShowAll(Nft(), []);
  }

  ghost predicate Declared(es: seq<Entry>, tables: map<TableId, Entry>) {
    Main in tables && Pause in tables && TracksTables(es, tables)
  }

  lemma DeclaredIff(es: seq<Entry>, tables: map<TableId, Entry>)
    requires TracksTables(es, tables)
    ensures Declared(es, tables) <==> HasDecl(es, Main) && HasDecl(es, Pause)
  {
  }

  /** `canonical`: the canonical form of exactly the accepted documents, an error otherwise. */
  method Canonical(document: Json) returns (r: Option<Json>)
    ensures r == match Envelope(document)
                 case None => None
                 case Some(items) => if Accepted(items) then Some(Form(items)) else None
  {
    if Envelope(document).None? { return None; }
    var items := Envelope(document).value;
    AcceptedFits(items);
    var ok, tables, objects, chains := Scan(ReadRaw, items);
    if !ok { return None; }
    r := Finish(items, tables, objects, chains);
  }

  lemma AcceptedFits(items: seq<Json>)
    ensures Accepted(items) ==> Readable(ReadRaw, items) && AllFit(Raws(items))
  {
    AcceptedRaw(items);
    if Accepted(items) {
      NoClashIff(Raws(items));
      FactSetMembers(Raws(items));
      assert forall e | e in Raws(items) :: LocalOk(FactsOf(e));
      AllFitNoClash(Raws(items));
    }
  }

  /** What the scan left decides acceptance. */
  lemma StateDecides(items: seq<Json>, tables: map<TableId, Entry>)
    requires Readable(ReadRaw, items) && AllFit(Raws(items)) && TracksTables(Raws(items), tables)
    ensures var es := Raws(items);
      Accepted(items) <==>
        && Main in tables && Pause in tables && HooksInPlace(es)
        && (forall e | e in Objects(es) :: RuleOk(es, e) && Normalises(e))
        && NamesOk(Objects(es)) && CountMarkers(Objects(es)) == 1
  {
    var es := Raws(items);
    AcceptedRaw(items);
    ChecksDecide(es);
    ObjectsDecide(es);
    DeclaredIff(es, tables);
  }

  /** The checks and the listings, from the state the scan left. */
  method Finish(items: seq<Json>, tables: map<TableId, Entry>, objects: seq<Entry>, chains: map<Key, Entry>)
    returns (r: Option<Json>)
    requires Readable(ReadRaw, items) && AllFit(Raws(items)) && objects == Objects(Raws(items))
    requires TracksTables(Raws(items), tables) && TracksChains(Raws(items), chains)
    ensures r == if Accepted(items) then Some(Form(items)) else None
  {
    ghost var es := Raws(items);
    StateDecides(items, tables);
    if Main !in tables || Pause !in tables { return None; }
    var hooked := CheckHooks(es, chains);
    if !hooked { return None; }
    ObjectsMembers(es);
    var ok, main, pause := AppendObjects(es, objects, chains, tables);
    if !ok { return None; }
    var count := Markers(objects);
    if count != Some(1) { return None; }
    FormOfScan(items, tables, objects, main, pause);
    r := Some(Obj(map["tables" := Arr([Arr(main), Arr(pause)])]));
  }

  lemma FormOfScan(
      items: seq<Json>, tables: map<TableId, Entry>, objects: seq<Entry>, main: seq<Json>, pause: seq<Json>)
    requires Accepted(items) && Readable(ReadRaw, items) && AllFit(Raws(items)) && objects == Objects(Raws(items))
    requires TracksTables(Raws(items), tables) && Main in tables && Pause in tables
    requires main == Listed(tables[Main], objects, Main) && pause == Listed(tables[Pause], objects, Pause)
    ensures Form(items) == Obj(map["tables" := Arr([Arr(main), Arr(pause)])])
  {
    AcceptedRaw(items);
    NormalEntries(items);
    ListingOfScan(items, tables[Main], Main);
    ListingOfScan(items, tables[Pause], Pause);
  }

  /** `compare`: passes exactly when the permitted differences explain the two snapshots. */
  method Compare(before: Json, after: Json) returns (same: bool)
    ensures same <==>
      && Envelope(before).Some? && Envelope(after).Some?
      && Accepted(Envelope(before).value) && Accepted(Envelope(after).value)
      && Reach(Steps(Nft()), Envelope(before).value, Envelope(after).value)
  {
    var left := Canonical(before);
    var right := Canonical(after);
    same := left.Some? && right.Some? && left == right;
    if left.Some? && right.Some? {
      TraceEquivalence(Envelope(before).value, Envelope(after).value);
    }
  }
}
