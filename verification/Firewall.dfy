/** The firewall snapshot observer: which `nft -j` listings it accepts, and the canonical form
    it compares them by. */
module Firewall {
  import opened Json
  import opened CounterReadings
  import opened Rewriting

  /** ("inet", "minimalrouter") and ("inet", "minimalrouter_pause"). */
  datatype TableId = Main | Pause

  const KINDS := {"table", "chain", "rule", "set", "map", "counter", "quota", "limit", "flowtable"}

  // ---------------------------------------------------------------------------------------
  // Reading one listed item

  /** A listed object of a known kind and table; a "table" object declares its table. */
  datatype Entry = Entry(table: TableId, kind: string, body: Fields)

  function TableOf(family: Json, name: Json): Option<TableId> {
    if family != Str("inet") then None
    else if name == Str("minimalrouter") then Some(Main)
    else if name == Str("minimalrouter_pause") then Some(Pause)
    else None
  }

  /** The object as listed, without its handle. */
  function ReadBody(kind: string, body: Fields): Reading<Entry> {
    match TableOf(Get(body, "family"), Get(body, if kind == "table" then "name" else "table"))
    case None => Rejected
    case Some(t) => Kept(Entry(t, kind, body))
  }

  function ReadRaw(item: Json): Reading<Entry> {
    if !item.Obj? || |item.fields| != 1 then Rejected
    else
      var kind := OnlyKey(item.fields);
      var value := item.fields[kind];
      if kind == "metainfo" then Ignored
      else if kind !in KINDS || !value.Obj? then Rejected
      else ReadBody(kind, value.fields - {"handle"})
  }

  predicate Normalises(e: Entry) {
    e.kind == "table" || ValidReadings(Obj(e.body), e.kind == "counter")
  }

  /** The entry without counter readings; a table declaration is kept as it is. */
  function Normal(e: Entry): Entry {
    if e.kind == "table" then e else e.(body := StripFields(e.body, e.kind == "counter"))
  }

  function Normalise(reading: Reading<Entry>): Reading<Entry> {
    if !reading.Kept? then reading
    else if Normalises(reading.entry) then Kept(Normal(reading.entry)) else Rejected
  }

  /** What one listed item contributes to the canonical form. */
  function Read(item: Json): Reading<Entry> {
    Normalise(ReadRaw(item))
  }

  function ToJson(e: Entry): Json {
    Obj(map[e.kind := Obj(e.body)])
  }

  // ---------------------------------------------------------------------------------------
  // The facts about an entry that acceptance looks at

  /** Only scalars are ever compared or hashed; a list or dictionary in their place is refused. */
  function Blur(j: Json): Json {
    if j.Arr? || j.Obj? then Arr([]) else j
  }

  datatype Facts = Facts(
    table: TableId, kind: string, name: Option<Json>, hook: Option<Json>,
    dev: Json, prio: Json, policy: Json, chain: Json)

  function FieldFact(body: Fields, key: string): Option<Json> {
    if key in body then Some(Blur(body[key])) else None
  }

  function FactsOf(e: Entry): Facts {
    Facts(e.table, e.kind, FieldFact(e.body, "name"), FieldFact(e.body, "hook"),
          Blur(Get(e.body, "dev")), Blur(Get(e.body, "prio")), Blur(Get(e.body, "policy")), Blur(Get(e.body, "chain")))
  }

  function AllFacts(es: seq<Entry>): seq<Facts> {
    seq(|es|, i requires 0 <= i < |es| => FactsOf(es[i]))
  }

  function OrNull(j: Option<Json>): Json {
    if j.Some? then j.value else Null
  }

  predicate IsChain(f: Facts) { f.kind == "chain" }
  predicate IsRule(f: Facts) { f.kind == "rule" }
  predicate IsDecl(f: Facts) { f.kind == "table" }
  predicate IsBase(f: Facts) { IsChain(f) && f.hook.Some? }
  predicate IsMainCounter(f: Facts) { f.kind == "counter" && f.table == Main }

  /** `mr_revision_[0-9]+`. */
  predicate IsRevisionName(s: string) {
    "mr_revision_" < s && forall c | c in s[|"mr_revision_"|..] :: '0' <= c <= '9'
  }

  predicate IsMarker(f: Facts) {
    IsMainCounter(f) && f.name.Some? && f.name.value.Str? && IsRevisionName(f.name.value.s)
  }

  function ChainKey(f: Facts): Option<Json> {
    HashKey(OrNull(f.name))
  }

  /** What a chain must satisfy by itself. */
  predicate ChainOk(f: Facts) {
    && ChainKey(f).Some?
    && (f.hook.Some? ==>
          && f.prio.Int? && f.policy in {Str("accept"), Str("drop")}
          && HashKey(f.hook.value).Some? && HashKey(f.dev).Some?)
  }

  predicate LocalOk(f: Facts) {
    && (IsChain(f) ==> ChainOk(f))
    && (IsRule(f) ==> HashKey(f.chain).Some?)
    && (IsMainCounter(f) && f.name.Some? ==> f.name.value.Str?)
  }

  predicate SameHook(x: Facts, y: Facts) {
    && IsBase(x) && IsBase(y)
    && HashKey(x.hook.value) == HashKey(y.hook.value) && HashKey(x.dev) == HashKey(y.dev) && x.prio == y.prio
  }

  /** Two entries that may not stand in one listing: a duplicate table or chain, two base
      chains whose relative order the kernel leaves undefined, two revision markers. */
  predicate Clash(x: Facts, y: Facts) {
    || (Declares(x, y.table) && IsDecl(y))
    || (IsChain(x) && IsChain(y) && x.table == y.table && ChainKey(x) == ChainKey(y))
    || SameHook(x, y)
    || (IsMarker(x) && IsMarker(y))
  }

  predicate ChainNamed(f: Facts, t: TableId, key: Option<Json>) {
    IsChain(f) && f.table == t && ChainKey(f) == key
  }

  /** A base chain on the hook `name` of the main table that drops by default. */
  predicate FailClosed(f: Facts, name: string) {
    ChainNamed(f, Main, Some(Str(name))) && f.hook == Some(Str(name)) && f.policy == Str("drop")
  }

  predicate PauseHook(f: Facts) {
    && ChainNamed(f, Pause, Some(Str("forward")))
    && f.hook == Some(Str("forward")) && f.prio == Int(-10) && f.policy == Str("accept")
  }

  predicate Declares(f: Facts, t: TableId) {
    IsDecl(f) && f.table == t
  }

  ghost predicate NoClash(fs: seq<Facts>) {
    forall i, j :: 0 <= i < j < |fs| ==> !Clash(fs[i], fs[j])
  }

  ghost predicate SomeDecl(fs: set<Facts>, t: TableId) { exists f | f in fs :: Declares(f, t) }
  ghost predicate SomeFailClosed(fs: set<Facts>, name: string) { exists f | f in fs :: FailClosed(f, name) }
  ghost predicate SomePauseHook(fs: set<Facts>) { exists f | f in fs :: PauseHook(f) }
  ghost predicate SomeMarker(fs: set<Facts>) { exists f | f in fs :: IsMarker(f) }
  ghost predicate AllLocal(fs: set<Facts>) { forall f | f in fs :: LocalOk(f) }

  ghost predicate RulesResolve(fs: set<Facts>) {
    forall r | r in fs && IsRule(r) :: exists c | c in fs :: ChainNamed(c, r.table, HashKey(r.chain))
  }

  ghost predicate Complete(fs: set<Facts>) {
    && AllLocal(fs) && RulesResolve(fs)
    && SomeDecl(fs, Main) && SomeDecl(fs, Pause)
    && SomeFailClosed(fs, "input") && SomeFailClosed(fs, "forward") && SomeFailClosed(fs, "output")
    && SomePauseHook(fs) && SomeMarker(fs)
  }

  ghost function FactSet(fs: seq<Facts>): set<Facts> {
    set f | f in fs
  }

  ghost predicate WellFormed(fs: seq<Facts>) {
    NoClash(fs) && Complete(FactSet(fs))
  }

  // ---------------------------------------------------------------------------------------
  // Acceptance and the canonical form

  function BlockOf(e: Entry): nat {
    (if e.table == Main then 0 else 2) + (if e.kind == "table" then 0 else 1)
  }

  /** The handle of one object added, removed or changed. */
  ghost predicate HandleStep(x: Json, y: Json) {
    && x.Obj? && y.Obj? && |x.fields| == 1 && |y.fields| == 1
    && var kind := OnlyKey(x.fields);
       && kind in KINDS && kind in y.fields && x.fields[kind].Obj? && y.fields[kind].Obj?
       && x.fields[kind].fields - {"handle"} == y.fields[kind].fields - {"handle"}
  }

  /** A counter reading of one object, other than a table declaration, added, removed or changed. */
  ghost predicate CounterStep(x: Json, y: Json) {
    ReadingStep(x, y, false) && !(x.Obj? && "table" in x.fields)
  }

  ghost predicate ItemStep(x: Json, y: Json) {
    HandleStep(x, y) || CounterStep(x, y)
  }

  /** Neighbours commute when they belong to different tables or one of them declares a table;
      one item may change its handle or a counter reading; metainfo comes and goes. */
  ghost function Nft(): Rules<Json, Entry> {
    Rules(Read, BlockOf, ToJson, (x, y) => ItemStep(x, y))
  }

  ghost function EntriesOf(items: seq<Json>): seq<Entry> {
    Entries(Read, items)
  }

  ghost predicate Accepted(items: seq<Json>) {
    Readable(Read, items) && WellFormed(AllFacts(EntriesOf(items)))
  }

  ghost function Listing(es: seq<Entry>, t: TableId): seq<Json> {
    var k := if t == Main then 0 else 2;
    ShowAll(Nft(), Block(BlockOf, es, k)) + ShowAll(Nft(), Block(BlockOf, es, k + 1))
  }

  /** `{"tables": [main listing, pause listing]}`, each listing its declaration first. */
  ghost function Form(items: seq<Json>): Json {
    var es := EntriesOf(items);
    Obj(map["tables" := Arr([Arr(Listing(es, Main)), Arr(Listing(es, Pause))])])
  }

  /** The listed objects of a ruleset document, if its envelope is right. */
  function Envelope(document: Json): Option<seq<Json>> {
    if document.Obj? && document.fields.Keys == {"nftables"} && document.fields["nftables"].Arr?
    then Some(document.fields["nftables"].items) else None
  }
}
