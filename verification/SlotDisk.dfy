/** What the A/B slot manager keeps on disk, and how it reads it back. */
module SlotDisk {
  import Json
  import Versions

  datatype Result<+T> = Ok(value: T) | Err

  /** Which strings are release versions, and which of two is lower. */
  datatype Precedence = Precedence(release: string -> bool, less: (string, string) -> bool)

  /** A strict weak order on the releases. */
  ghost predicate Lawful(p: Precedence) {
    && (forall a :: !p.less(a, a))
    && (forall a, b :: p.less(a, b) ==> !p.less(b, a))
    && (forall a, b, c | p.release(a) && p.release(b) && p.release(c) ::
          !p.less(b, a) && !p.less(c, b) ==> !p.less(c, a))
    && !p.release("")
  }

  function ReleasePrecedence(): Precedence {
    Precedence(v => Versions.Parse(v).Some?, (a, b) => Versions.Compare(a, b) == Json.Some(Versions.Less))
  }

  /** The precedence of release versions is such an order. */
  lemma ReleasePrecedenceLawful()
    ensures Lawful(ReleasePrecedence())
  {
    var p := ReleasePrecedence();
    forall a ensures !p.less(a, a) {
      Versions.CompareFlip(a, a);
    }
    forall a, b | p.less(a, b) ensures !p.less(b, a) {
      Versions.CompareFlip(a, b);
    }
    forall a, b, c | p.release(a) && p.release(b) && p.release(c) && !p.less(b, a) && !p.less(c, b)
      ensures !p.less(c, a)
    {
      Versions.CompareComposes(c, b, a);
    }
  }

  /** The empty string stands for "none" in every version field. */
  datatype SlotState = SlotState(current: string, previous: string, pending: string, minimum: string, installing: bool)

  const NO_STATE := SlotState("", "", "", "", false)

  datatype Kind = Install | Activation | Rollback

  datatype Operation = Operation(kind: Kind, before: SlotState, next: SlotState)

  datatype Link = NoLink | To(version: string) | Unsafe

  /** A file that may be missing or not decode. */
  datatype File<+T> = Absent | Garbage | Holding(value: T)

  /** `slots/`, the two pointers, state.json, operation.json and the floor in installation.json. */
  datatype Disk = Disk(
    slots: set<string>, current: Link, previous: Link,
    state: File<SlotState>, journal: File<Operation>, intent: File<string>)

  predicate HasSlot(p: Precedence, d: Disk, version: string) { p.release(version) && version in d.slots }

  predicate OptionalRelease(p: Precedence, version: string) { version == "" || p.release(version) }

  predicate OptionalSlot(p: Precedence, d: Disk, version: string) { version == "" || HasSlot(p, d, version) }

  /** The version of an installed baseline is derived from its contents and carries no precedence. */
  predicate IsBootstrap(version: string) {
    "0.0.0+bootstrap." <= version || "v0.0.0+bootstrap." <= version
  }

  // ---------------------------------------------------------------------------------------
  // The version floor

  datatype Floor = Known(version: string) | Unknown | Invalid

  function Higher(p: Precedence, a: string, b: string): string { if p.less(b, a) then a else b }

  /** `upgrade_floor`. */
  function UpgradeFloor(p: Precedence, s: SlotState): Floor {
    if !OptionalRelease(p, s.minimum) then Invalid
    else if IsBootstrap(s.current) then (if s.minimum == "" then Unknown else Known(s.minimum))
    else if s.current == "" then Known(s.minimum)
    else if !p.release(s.current) then Invalid
    else if s.minimum == "" then Known(s.current)
    else Known(Higher(p, s.current, s.minimum))
  }

  /** The floor as a version; an unknown floor is none. */
  function FloorOf(p: Precedence, s: SlotState): string {
    if UpgradeFloor(p, s).Known? then UpgradeFloor(p, s).version else ""
  }

  /** Floors are ordered by precedence, and no floor is below every floor. */
  predicate FloorAtMost(p: Precedence, a: string, b: string) {
    a == "" || (b != "" && !p.less(b, a))
  }

  /** `validate_forward_upgrade`. */
  predicate Forward(p: Precedence, candidate: string, floor: string) {
    floor == "" || p.less(floor, candidate)
  }

  /** `installation_minimum`: what a full installation may record as the new floor. */
  function InstallationMinimum(p: Precedence, s: SlotState, proposed: string): Result<string> {
    if UpgradeFloor(p, s).Invalid? || !OptionalRelease(p, proposed) then Err
    else if FloorAtMost(p, FloorOf(p, s), proposed) then Ok(proposed) else Err
  }

  // ---------------------------------------------------------------------------------------
  // Reading the disk

  /** `link_version`: the version a pointer selects, "" without a pointer. */
  function LinkVersion(p: Precedence, d: Disk, link: Link): Result<string> {
    match link
    case NoLink => Ok("")
    case Unsafe => Err
    case To(version) => if HasSlot(p, d, version) then Ok(version) else Err
  }

  function LinkFor(version: string): Link {
    if version == "" then NoLink else To(version)
  }

  function StateFile(d: Disk): Result<SlotState> {
    match d.state
    case Absent => Ok(NO_STATE)
    case Garbage => Err
    case Holding(s) => Ok(s)
  }

  /** `apply_installation_floor`: an unfinished installation raises the floor. */
  function WithIntent(p: Precedence, intent: File<string>, s: SlotState): Result<SlotState> {
    match intent
    case Absent => Ok(s.(installing := false))
    case Garbage => Err
    case Holding(floor) =>
      if floor == "" then Ok(s.(installing := true))
      else if !p.release(floor) || !OptionalRelease(p, s.minimum) then Err
      else Ok(s.(installing := true, minimum := if s.minimum == "" then floor else Higher(p, floor, s.minimum)))
  }

  /** The pointers override the state file, and a pending version that became current is dropped. */
  function Overlay(s: SlotState, current: string, previous: string): SlotState {
    var pending := if s.pending == current then "" else s.pending;
    var s1 := if current == "" then s else s.(current := current, pending := pending);
    if previous == "" then s1 else s1.(previous := previous)
  }

  function Links(p: Precedence, d: Disk): Result<(string, string)> {
    match (LinkVersion(p, d, d.current), LinkVersion(p, d, d.previous))
    case (Ok(current), Ok(previous)) => Ok((current, previous))
    case _ => Err
  }

  /** What the state file and the pointers say. */
  function BasePlain(p: Precedence, d: Disk): Result<SlotState> {
    match (StateFile(d), Links(p, d))
    case (Ok(s), Ok(links)) => Ok(Overlay(s, links.0, links.1))
    case _ => Err
  }

  function Raised(p: Precedence, d: Disk, base: Result<SlotState>): Result<SlotState> {
    if base.Err? then Err else WithIntent(p, d.intent, base.value)
  }

  /** `state_without_operation`. */
  function ReadPlain(p: Precedence, d: Disk): Result<SlotState> {
    Raised(p, d, BasePlain(p, d))
  }

  predicate ValidJournalState(p: Precedence, d: Disk, s: SlotState) {
    && OptionalRelease(p, s.minimum)
    && OptionalSlot(p, d, s.current) && OptionalSlot(p, d, s.previous) && OptionalSlot(p, d, s.pending)
    && (s.current == "" || s.current != s.previous)
  }

  predicate ValidKind(op: Operation) {
    match op.kind
    case Install => op.next.current != "" && op.next.previous == ""
    case Activation =>
      op.next.current != "" && op.next.current != op.before.current && op.next.previous == op.before.current
    case Rollback =>
      op.before.previous != "" && op.next.current == op.before.previous && op.next.previous == op.before.current
  }

  /** The floor a transition must keep; only an installation may start from an unknown floor. */
  predicate KeepsFloor(p: Precedence, op: Operation) {
    && !UpgradeFloor(p, op.before).Invalid? && (UpgradeFloor(p, op.before).Unknown? ==> op.kind == Install)
    && FloorAtMost(p, FloorOf(p, op.before), op.next.minimum)
    && (op.kind == Activation ==> Forward(p, op.next.current, FloorOf(p, op.before)))
  }

  /** `validate_operation`. */
  predicate ValidOperation(p: Precedence, d: Disk, op: Operation) {
    && ValidJournalState(p, d, op.before) && ValidJournalState(p, d, op.next)
    && op.next.pending == "" && ValidKind(op) && KeepsFloor(p, op)
  }

  /** `project_operation_state`: the current pointer alone decides which state survives. */
  function Project(p: Precedence, d: Disk, op: Operation): Result<SlotState> {
    match LinkVersion(p, d, d.current)
    case Err => Err
    case Ok(current) =>
      if !ValidOperation(p, d, op) then Err
      else if current != "" && current == op.next.current then Ok(op.next)
      else if current == op.before.current then Ok(op.before)
      else Err
  }

  /** The journalled transition's surviving state if there is one, the plain state otherwise. */
  function BaseState(p: Precedence, d: Disk): Result<SlotState> {
    match d.journal
    case Absent => BasePlain(p, d)
    case Garbage => Err
    case Holding(op) => Project(p, d, op)
  }

  /** `state`. */
  function ReadState(p: Precedence, d: Disk): Result<SlotState> {
    Raised(p, d, BaseState(p, d))
  }

  // ---------------------------------------------------------------------------------------
  // Soundness

  /** A version waiting to be activated is not the current one. */
  predicate Normal(s: SlotState) { s.pending == "" || s.pending != s.current }

  predicate ReleasesOnly(p: Precedence, s: SlotState) {
    OptionalRelease(p, s.current) && OptionalRelease(p, s.previous) && OptionalRelease(p, s.minimum)
  }

  /** Without a pointer the state file names no version. */
  predicate FileAgrees(p: Precedence, d: Disk, s: SlotState) {
    && (d.current == NoLink ==> s.current == "") && (d.previous == NoLink ==> s.previous == "")
    && OptionalRelease(p, s.minimum)
  }

  predicate AtRest(p: Precedence, d: Disk) {
    && d.journal == Absent && StateFile(d).Ok? && FileAgrees(p, d, StateFile(d).value) && Links(p, d).Ok?
  }

  /** A journalled transition has moved the current pointer or not, and nothing else matters. */
  predicate UnderWay(p: Precedence, d: Disk, op: Operation) {
    && d.journal == Holding(op) && ValidOperation(p, d, op) && Normal(op.before)
    && (d.current == LinkFor(op.before.current) || d.current == LinkFor(op.next.current))
  }

  predicate IntentOk(p: Precedence, d: Disk) {
    d.intent == Absent || (d.intent.Holding? && OptionalRelease(p, d.intent.value))
  }

  /** The disks the manager's own writes can leave behind, however they are interrupted. */
  predicate Sound(p: Precedence, d: Disk) {
    IntentOk(p, d) && (AtRest(p, d) || (d.journal.Holding? && UnderWay(p, d, d.journal.value)))
  }

  /** The pointers and state.json all say `s`, and no journal is left. */
  predicate Settled(d: Disk, s: SlotState) {
    && d.journal == Absent && d.state == Holding(s)
    && d.current == LinkFor(s.current) && d.previous == LinkFor(s.previous)
  }

  lemma WithIntentReads(p: Precedence, d: Disk, s: SlotState)
    requires IntentOk(p, d) && OptionalRelease(p, s.minimum)
    ensures WithIntent(p, d.intent, s).Ok?
    ensures var t := WithIntent(p, d.intent, s).value;
      t == s.(minimum := t.minimum, installing := t.installing) && OptionalRelease(p, t.minimum)
  {
  }

  lemma AtRestReads(p: Precedence, d: Disk)
    requires Lawful(p) && IntentOk(p, d) && AtRest(p, d)
    ensures ReadPlain(p, d).Ok?
    ensures var s := ReadPlain(p, d).value;
      && Normal(s) && ReleasesOnly(p, s) && d.current == LinkFor(s.current) && d.previous == LinkFor(s.previous)
      && WithIntent(p, d.intent, s) == Ok(s)
  {
    var s := Overlay(StateFile(d).value, Links(p, d).value.0, Links(p, d).value.1);
    WithIntentReads(p, d, s);
    WithIntentTwice(p, d.intent, s);
  }

  lemma UnderWayReads(p: Precedence, d: Disk, op: Operation)
    requires UnderWay(p, d, op)
    ensures Project(p, d, op) == Ok(if d.current == LinkFor(op.next.current) then op.next else op.before)
  {
  }

  /** Every sound disk can be read. */
  lemma SoundReads(p: Precedence, d: Disk)
    requires Lawful(p) && Sound(p, d)
    ensures ReadState(p, d).Ok? && Normal(ReadState(p, d).value) && ReleasesOnly(p, ReadState(p, d).value)
    ensures WithIntent(p, d.intent, ReadState(p, d).value) == ReadState(p, d)
  {
    if d.journal == Absent {
      AtRestReads(p, d);
    } else {
      var op := d.journal.value;
      var s := Project(p, d, op).value;
      UnderWayReads(p, d, op);
      assert ValidJournalState(p, d, s) && Normal(s);
      WithIntentReads(p, d, s);
      WithIntentTwice(p, d.intent, s);
    }
  }

  lemma SettledReads(p: Precedence, d: Disk, s: SlotState)
    requires Settled(d, s) && ValidJournalState(p, d, s) && Normal(s)
    ensures AtRest(p, d) && BaseState(p, d) == Ok(s)
  {
    assert Overlay(s, s.current, s.previous) == s;
  }

  lemma WithIntentTwice(p: Precedence, intent: File<string>, s: SlotState)
    requires Lawful(p) && WithIntent(p, intent, s).Ok?
    ensures WithIntent(p, intent, WithIntent(p, intent, s).value) == WithIntent(p, intent, s)
  {
    if intent.Holding? && intent.value != "" {
      assert !p.less(intent.value, intent.value);
    }
  }
}
