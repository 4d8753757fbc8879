/** The slot manager: journalled pointer swaps that survive a failure or a crash at any write. */
module Slots {
  import opened SlotDisk

  /** Every write is one atomic rename or removal. It can fail or the process can die, in both
      cases with or without the write having reached the disk. */
  datatype Outcome = Done | Failed | Crashed

  // ---------------------------------------------------------------------------------------
  // What each command is meant to reach

  function Activated(s: SlotState, version: string): SlotState {
    s.(current := version, previous := s.current, pending := "", minimum := version)
  }

  function Activating(s: SlotState, version: string): Operation {
    Operation(Activation, s, Activated(s, version))
  }

  function ActivateTarget(p: Precedence, d: Disk, version: string): Result<SlotState> {
    if d.intent != Absent || ReadState(p, d).Err? || !HasSlot(p, d, version) then Err
    else
      var s := ReadState(p, d).value;
      if s.current == version then Ok(s.(pending := ""))
      else if !UpgradeFloor(p, s).Known? || !Forward(p, version, FloorOf(p, s)) then Err
      else if !ValidOperation(p, d, Activating(s, version)) then Err
      else Ok(Activated(s, version))
  }

  function RolledBack(p: Precedence, s: SlotState): SlotState {
    s.(current := s.previous, previous := s.current, pending := "", minimum := FloorOf(p, s))
  }

  function RollingBack(p: Precedence, s: SlotState): Operation {
    Operation(Rollback, s, RolledBack(p, s))
  }

  function RollbackTarget(p: Precedence, d: Disk): Result<SlotState> {
    if d.intent != Absent || ReadState(p, d).Err? then Err
    else
      var s := ReadState(p, d).value;
      if !HasSlot(p, d, s.previous) || !UpgradeFloor(p, s).Known? then Err
      else if !ValidOperation(p, d, RollingBack(p, s)) then Err
      else Ok(RolledBack(p, s))
  }

  function StageTarget(p: Precedence, d: Disk, version: string): Result<SlotState> {
    if d.intent != Absent || ReadState(p, d).Err? || !p.release(version) then Err
    else
      var s := ReadState(p, d).value;
      if !UpgradeFloor(p, s).Known? || !Forward(p, version, FloorOf(p, s)) || version in d.slots then Err
      else Ok(s.(pending := version))
  }

  /** The floor that a full installation announces before its first change. */
  function BeginTarget(p: Precedence, d: Disk, minimum: string): Result<SlotState> {
    if ReadState(p, d).Err? || InstallationMinimum(p, ReadState(p, d).value, minimum).Err? then Err
    else WithIntent(p, Holding(minimum), BaseState(p, d).value)
  }

  function Installed(version: string, minimum: string): SlotState {
    SlotState(version, "", "", minimum, false)
  }

  function InstallTarget(p: Precedence, d: Disk, version: string, minimum: string): Result<SlotState> {
    if ReadState(p, d).Err? || InstallationMinimum(p, ReadState(p, d).value, minimum).Err? then Err
    else Ok(Installed(version, minimum))
  }

  datatype Command =
    | Stage(version: string)
    | Activate(version: string)
    | RollBack
    | BeginInstall(minimum: string)
    | InstallBaseline(version: string, minimum: string)

  /** The state a command is meant to leave. */
  function Target(p: Precedence, d: Disk, c: Command): Result<SlotState> {
    match c
    case Stage(version) => StageTarget(p, d, version)
    case Activate(version) => ActivateTarget(p, d, version)
    case RollBack => RollbackTarget(p, d)
    case BeginInstall(minimum) => BeginTarget(p, d, minimum)
    case InstallBaseline(version, minimum) => InstallTarget(p, d, version, minimum)
  }

  /** An installed baseline whose fence is still up. */
  function Fenced(p: Precedence, d: Disk, target: SlotState): Result<SlotState> {
    WithIntent(p, d.intent, target)
  }

  /** No command removes a slot that was there, and only the one it names is added. */
  predicate SlotsKept(c: Command, d: Disk, d': Disk) {
    match c
    case Stage(version) => d.slots <= d'.slots <= d.slots + {version}
    case InstallBaseline(version, _) => d.slots <= d'.slots <= d.slots + {version}
    case _ => d'.slots == d.slots
  }

  /** Everything a command can leave behind, whatever fails and wherever it is interrupted: the
      state before, the target, or for an installation the target behind its fence. */
  predicate Leaves(p: Precedence, c: Command, d: Disk, d': Disk) {
    && Sound(p, d') && SlotsKept(c, d, d')
    && (|| ReadState(p, d') == ReadState(p, d)
        || (Target(p, d, c).Ok? && ReadState(p, d') == Target(p, d, c))
        || (c.InstallBaseline? && Target(p, d, c).Ok? && ReadState(p, d') == Fenced(p, d, Target(p, d, c).value)))
  }

  /** What a command leaves when it reports success. */
  predicate Succeeds(p: Precedence, c: Command, d: Disk, d': Disk) {
    Target(p, d, c).Ok? && ReadState(p, d') == Target(p, d, c)
  }

  /** Settling first changes nothing of what a command is meant to reach. */
  lemma LeavesFrom(p: Precedence, c: Command, d: Disk, settled: Disk, d': Disk)
    requires SameGround(d, settled)
    requires ReadState(p, settled) == ReadState(p, d) && BaseState(p, settled) == BaseState(p, d)
    ensures Leaves(p, c, d, d') <==> Leaves(p, c, settled, d')
    ensures Succeeds(p, c, d, d') <==> Succeeds(p, c, settled, d')
  {
    assert Target(p, d, c) == Target(p, settled, c) by {
      if c.Activate? { SameActivation(p, d, settled, c.version); }
      if c.RollBack? { SameRollback(p, d, settled); }
    }
  }

  lemma SameActivation(p: Precedence, d: Disk, d': Disk, version: string)
    requires SameGround(d, d') && ReadState(p, d') == ReadState(p, d)
    ensures ActivateTarget(p, d, version) == ActivateTarget(p, d', version)
  {
  }

  lemma SameRollback(p: Precedence, d: Disk, d': Disk)
    requires SameGround(d, d') && ReadState(p, d') == ReadState(p, d)
    ensures RollbackTarget(p, d) == RollbackTarget(p, d')
  {
  }

  // ---------------------------------------------------------------------------------------
  // The writes of a staging

  /** One write: it may reach the disk or not, and only an error or a crash leaves that open. */
  predicate Writes(d: Disk, target: Disk, d': Disk, o: Outcome) {
    (d' == d || d' == target) && (o == Done ==> d' == target)
  }

  predicate AddsSlot(d: Disk, version: string, d': Disk, o: Outcome) {
    Writes(d, d.(slots := d.slots + {version}), d', o)
  }

  /** The state file is written only once the slot is there. */
  predicate SavesPending(d: Disk, slot: Outcome, s: SlotState, version: string, d': Disk, o: Outcome) {
    if slot == Done then Writes(d, d.(state := Holding(s.(pending := version))), d', o) else d' == d && o == slot
  }

  /** An error on the way removes the slot again. */
  predicate RemovesSlot(d: Disk, so: Outcome, version: string, d': Disk, removed: Outcome, o: Outcome) {
    if so == Failed
    then Writes(d, d.(slots := d.slots - {version}), d', removed) && o == if removed == Crashed then Crashed else Failed
    else d' == d && o == so
  }

  /** The writes of one staging, from the disk it starts on to the disk it leaves. */
  ghost predicate StagingWrites(d: Disk, s: SlotState, version: string, d': Disk, o: Outcome) {
    exists d1, o1, d2, o2, o3 ::
      && AddsSlot(d, version, d1, o1) && SavesPending(d1, o1, s, version, d2, o2)
      && RemovesSlot(d2, o2, version, d', o3, o)
  }

  lemma StagingKeepsSlots(d: Disk, s: SlotState, version: string, d': Disk, o: Outcome)
    requires StagingWrites(d, s, version, d', o) && version !in d.slots
    ensures d.slots <= d'.slots <= d.slots + {version}
  {
    var d1, o1, d2, o2, o3 :|
      && AddsSlot(d, version, d1, o1) && SavesPending(d1, o1, s, version, d2, o2)
      && RemovesSlot(d2, o2, version, d', o3, o);
  }

  // ---------------------------------------------------------------------------------------
  // Steps of a journalled transition

  predicate SameGround(a: Disk, b: Disk) { a.slots == b.slots && a.intent == b.intent }

  /** Writing the journal turns a resting disk into the transition's starting point. */
  lemma JournalStarts(p: Precedence, d: Disk, op: Operation)
    requires Lawful(p) && AtRest(p, d) && IntentOk(p, d) && ReadPlain(p, d) == Ok(op.before) && ValidOperation(p, d, op)
    ensures UnderWay(p, d.(journal := Holding(op)), op)
  {
    AtRestReads(p, d);
  }

  /** The versions that its pointers would select have slots. */
  predicate Slotted(p: Precedence, d: Disk, s: SlotState) {
    OptionalSlot(p, d, s.current) && OptionalSlot(p, d, s.previous)
  }

  /** The pointers and state.json all say `s`. */
  predicate Moved(d: Disk, s: SlotState) {
    d.state == Holding(s) && d.current == LinkFor(s.current) && d.previous == LinkFor(s.previous)
  }

  /** After one failed write of a transition: the journal alone was written or not, the old state is back, or the new
      one is complete and only its journal is not removed. */
  predicate Undone(d: Disk, d': Disk, op: Operation) {
    || d' == d || d' == d.(journal := Holding(op)) || Settled(d', op.before)
    || (d'.journal == Holding(op) && Moved(d', op.next)) || Settled(d', op.next)
  }

  /** A baseline can be journalled over what is there. */
  predicate Installable(p: Precedence, d: Disk, version: string, minimum: string) {
    && InstallTarget(p, d, version, minimum).Ok?
    && ValidOperation(p, d.(slots := d.slots + {version}),
                      Operation(Install, ReadState(p, d).value, Installed(version, minimum)))
  }

  lemma SameInstallation(p: Precedence, d: Disk, d': Disk, version: string, minimum: string)
    requires SameGround(d, d') && ReadState(p, d') == ReadState(p, d)
    ensures InstallTarget(p, d, version, minimum) == InstallTarget(p, d', version, minimum)
    ensures Installable(p, d, version, minimum) <==> Installable(p, d', version, minimum)
  {
  }

  class SlotManager {
    const p: Precedence
    var disk: Disk
    /** Writes that did not report success. */
    ghost var failures: nat
    /** The process died at its last write. */
    ghost var dead: bool

    constructor (p: Precedence, d: Disk)
      ensures this.p == p && disk == d && failures == 0 && !dead
    {
      this.p := p;
      disk, failures, dead := d, 0, false;
    }

    /** Nothing is written after a crash. */
    method Write(target: Disk) returns (o: Outcome)
      requires !dead
      modifies this
      ensures Writes(old(disk), target, disk, o)
      ensures failures == (old(failures) + if o == Done then 0 else 1) && (dead <==> o == Crashed)
    {
      o := *;
      var reached: bool := *;
      if reached || o == Done { disk := target; }
      if o != Done { failures := failures + 1; }
      dead := o == Crashed;
    }

    /** A step that may be taken succeeds exactly when no write of it failed; one that may not never does. */
    ghost predicate Counted(may: bool, o: Outcome, before: nat)
      reads this
    {
      before <= failures && (o == Done <==> may && failures == before) && (dead <==> o == Crashed)
    }

    method SwapLink(target: Disk, version: string) returns (o: Outcome)
      requires !dead
      modifies this
      ensures disk == old(disk) || (HasSlot(p, old(disk), version) && disk == target)
      ensures o == Done ==> disk == target
      ensures Counted(HasSlot(p, old(disk), version), o, old(failures))
    {
      if !HasSlot(p, disk, version) { return Failed; }
      o := Write(target);
    }

    /** Point the current pointer at a version, or remove it for none. */
    method SetCurrent(version: string) returns (o: Outcome)
      requires !dead
      modifies this
      ensures disk == old(disk) || disk == old(disk).(current := LinkFor(version))
      ensures o == Done ==> disk.current == LinkFor(version)
      ensures Counted(OptionalSlot(p, old(disk), version), o, old(failures))
    {
      if version == "" {
        o := Write(disk.(current := NoLink));
      } else {
        o := SwapLink(disk.(current := To(version)), version);
      }
    }

    method SetPrevious(version: string) returns (o: Outcome)
      requires !dead
      modifies this
      ensures disk == old(disk) || disk == old(disk).(previous := LinkFor(version))
      ensures o == Done ==> disk.previous == LinkFor(version)
      ensures Counted(OptionalSlot(p, old(disk), version), o, old(failures))
    {
      if version == "" {
        o := Write(disk.(previous := NoLink));
      } else {
        o := SwapLink(disk.(previous := To(version)), version);
      }
    }

    /** `restore_links`: both pointers are tried even when the first one fails. */
    method RestoreLinks(s: SlotState) returns (o: Outcome)
      requires !dead
      modifies this
      ensures disk == old(disk).(current := disk.current, previous := disk.previous)
      ensures disk.current == old(disk.current) || disk.current == LinkFor(s.current)
      ensures o == Done ==> disk.current == LinkFor(s.current) && disk.previous == LinkFor(s.previous)
      ensures Counted(Slotted(p, old(disk), s), o, old(failures))
    {
      var first := SetCurrent(s.current);
      if first == Crashed { return Crashed; }
      var second := SetPrevious(s.previous);
      o := if second == Done then first else second;
    }

    /** `restore_links`, `save_state` and `clear_operation` towards one state. */
    method SettleTo(s: SlotState) returns (o: Outcome)
      requires !dead
      modifies this
      ensures SameGround(disk, old(disk))
      ensures disk.journal == old(disk.journal) || Settled(disk, s)
      ensures disk.current == old(disk.current) || disk.current == LinkFor(s.current)
      ensures o == Done ==> Settled(disk, s)
      ensures Counted(Slotted(p, old(disk), s), o, old(failures))
    {
      o := RestoreLinks(s);
      if o != Done { return; }
      o := Write(disk.(state := Holding(s)));
      if o != Done { return; }
      o := Write(disk.(journal := Absent));
    }

    /** `recover_operation`: an unreadable or contradictory journal is left as it is. */
    method Recover() returns (o: Outcome)
      requires !dead && Lawful(p)
      modifies this
      ensures SameGround(disk, old(disk))
      ensures old(disk.journal) != Absent && old(ReadState(p, disk)).Err? && old(IntentOk(p, disk)) ==>
        o == Failed && disk == old(disk)
      ensures old(disk.journal) == Absent ==> disk == old(disk)
      ensures old(Sound(p, disk)) ==> Sound(p, disk) && BaseState(p, disk) == old(BaseState(p, disk))
      ensures old(Sound(p, disk)) && o == Done ==> AtRest(p, disk)
      ensures old(failures) <= failures && (old(Sound(p, disk)) ==> Counted(true, o, old(failures)))
      ensures dead <==> o == Crashed
    {
      if disk.journal == Absent { return Done; }
      if disk.journal == Garbage { return Failed; }
      ghost var d := disk;
      var op := disk.journal.value;
      var target := Project(p, disk, op);
      if target.Err? { return Failed; }
      if IntentOk(p, disk) { WithIntentReads(p, disk, target.value); }
      SurvivorSlotted(p, disk, op);
      o := SettleTo(target.value);
      if Sound(p, d) { RecoverKeeps(p, d, disk, op, target.value); }
    }

    /** Every command first settles an interrupted transition and reads the state. */
    method Settle() returns (o: Outcome, s: SlotState)
      requires !dead && Lawful(p) && Sound(p, disk)
      modifies this
      ensures SameGround(disk, old(disk)) && Sound(p, disk) && ReadState(p, disk) == old(ReadState(p, disk))
      ensures BaseState(p, disk) == old(BaseState(p, disk))
      ensures o == Done ==> AtRest(p, disk) && ReadPlain(p, disk) == ReadState(p, disk) == Ok(s)
      ensures o == Done ==> Normal(s) && ReleasesOnly(p, s) && WithIntent(p, disk.intent, s) == Ok(s)
      ensures o == Done ==> disk.current == LinkFor(s.current) && disk.previous == LinkFor(s.previous)
      ensures Counted(true, o, old(failures))
    {
      s := NO_STATE;
      o := Recover();
      if o != Done { return; }
      AtRestReads(p, disk);
      s := ReadPlain(p, disk).value;
    }

    /** A state file that only changes the pending version or the floor keeps a disk at rest. */
    method SaveState(s: SlotState) returns (o: Outcome)
      requires !dead
      modifies this
      ensures disk == old(disk) || disk == old(disk).(state := Holding(s))
      ensures o == Done ==> disk.state == Holding(s)
      ensures Counted(true, o, old(failures))
    {
      o := Write(disk.(state := Holding(s)));
    }

    /** The pointer moves of a transition, in the order its kind prescribes. */
    method MoveLinks(op: Operation) returns (o: Outcome)
      requires !dead
      modifies this
      ensures disk == old(disk).(current := disk.current, previous := disk.previous)
      ensures disk.current == old(disk.current) || disk.current == LinkFor(op.next.current)
      ensures o == Done ==> disk.current == LinkFor(op.next.current) && disk.previous == LinkFor(op.next.previous)
      ensures Counted(Slotted(p, old(disk), op.next), o, old(failures))
      ensures if op.kind == Rollback
        then disk.previous == old(disk.previous) || disk.current == LinkFor(op.next.current)
        else disk.current == old(disk.current) || disk.previous == LinkFor(op.next.previous)
    {
      if op.kind == Rollback {
        o := SetCurrent(op.next.current);
        if o != Done { return; }
        o := SetPrevious(op.next.previous);
      } else {
        o := SetPrevious(op.next.previous);
        if o != Done { return; }
        o := SetCurrent(op.next.current);
      }
    }

    /** `commit_operation` with `abort_operation`: journal, pointers, state file, journal removed;
        an error on the way puts the old state back as far as it can. */
    method Commit(op: Operation) returns (o: Outcome)
      requires !dead && Lawful(p) && IntentOk(p, disk) && AtRest(p, disk) && ReadPlain(p, disk) == Ok(op.before)
      modifies this
      ensures SameGround(disk, old(disk)) && Sound(p, disk)
      ensures !ValidOperation(p, old(disk), op) ==> o == Failed && disk == old(disk)
      ensures ReadState(p, disk) == Ok(op.before) || ReadState(p, disk) == WithIntent(p, disk.intent, op.next)
      ensures o == Done ==> Settled(disk, op.next) && ReadState(p, disk) == WithIntent(p, disk.intent, op.next)
      ensures Counted(ValidOperation(p, old(disk), op), o, old(failures))
      ensures o == Failed && failures == old(failures) + 1 ==> Undone(old(disk), disk, op)
    {
      AtRestReads(p, disk);
      if !ValidOperation(p, disk, op) { return Failed; }
      JournalStarts(p, disk, op);
      o := Write(disk.(journal := Holding(op)));
      if o != Done {
        if disk.journal != Absent { MidwayReads(p, disk, op); }
        return;
      }
      o := Advance(op);
    }

    method Advance(op: Operation) returns (o: Outcome)
      requires !dead && Lawful(p) && IntentOk(p, disk) && UnderWay(p, disk, op)
      requires WithIntent(p, disk.intent, op.before) == Ok(op.before)
      modifies this
      ensures SameGround(disk, old(disk)) && Sound(p, disk)
      ensures ReadState(p, disk) == Ok(op.before) || ReadState(p, disk) == WithIntent(p, disk.intent, op.next)
      ensures o == Done ==> Settled(disk, op.next) && ReadState(p, disk) == WithIntent(p, disk.intent, op.next)
      ensures Counted(true, o, old(failures))
      ensures o == Failed && failures == old(failures) + 1 ==>
        Settled(disk, op.before) || (disk.journal == Holding(op) && Moved(disk, op.next)) || Settled(disk, op.next)
    {
      o := MoveLinks(op);
      if o == Done { o := SaveState(op.next); }
      if o == Done {
        o := Conclude(op);
      } else {
        MidwayReads(p, disk, op);
        if o == Failed { o := Abort(op); }
      }
    }

    /** The journal of a completed transition is removed. */
    method Conclude(op: Operation) returns (o: Outcome)
      requires !dead && Lawful(p) && IntentOk(p, disk) && UnderWay(p, disk, op) && Moved(disk, op.next)
      modifies this
      ensures SameGround(disk, old(disk)) && Sound(p, disk) && Moved(disk, op.next)
      ensures disk.journal == Holding(op) || Settled(disk, op.next)
      ensures ReadState(p, disk) == WithIntent(p, disk.intent, op.next)
      ensures o == Done ==> Settled(disk, op.next)
      ensures Counted(true, o, old(failures))
    {
      UnderWayReads(p, disk, op);
      o := Write(disk.(journal := Absent));
      if disk.journal == Absent { SettledReads(p, disk, op.next); }
    }

    /** `abort_operation`: the old state is put back as far as possible. */
    method Abort(op: Operation) returns (o: Outcome)
      requires !dead && Lawful(p) && IntentOk(p, disk) && UnderWay(p, disk, op)
      requires WithIntent(p, disk.intent, op.before) == Ok(op.before)
      modifies this
      ensures SameGround(disk, old(disk)) && Sound(p, disk)
      ensures ReadState(p, disk) == Ok(op.before) || ReadState(p, disk) == WithIntent(p, disk.intent, op.next)
      ensures o == Failed || o == Crashed
      ensures old(failures) <= failures && (failures == old(failures) ==> o == Failed && Settled(disk, op.before))
      ensures dead <==> o == Crashed
    {
      var restored := SettleTo(op.before);
      if Settled(disk, op.before) { SettledReads(p, disk, op.before); } else { MidwayReads(p, disk, op); }
      o := if restored == Crashed then Crashed else Failed;
    }

    /** `activate`. */
    method ActivateSlot(version: string) returns (o: Outcome)
      requires Lawful(p) && Sound(p, disk)
      modifies this
      ensures SameGround(disk, old(disk)) && Leaves(p, Activate(version), old(disk), disk)
      ensures o == Done ==> Succeeds(p, Activate(version), old(disk), disk)
      ensures Counted(Target(p, old(disk), Activate(version)).Ok?, o, old(failures))
    {
      dead := false;
      if disk.intent != Absent { return Failed; }
      var s;
      o, s := Settle();
      if o != Done { return; }
      ghost var settled := disk;
      o := ActivateSettled(s, version);
      LeavesFrom(p, Activate(version), old(disk), settled, disk);
    }

    method ActivateSettled(s: SlotState, version: string) returns (o: Outcome)
      requires !dead && Lawful(p) && Sound(p, disk) && AtRest(p, disk) && disk.intent == Absent
      requires ReadPlain(p, disk) == ReadState(p, disk) == Ok(s)
      modifies this
      ensures SameGround(disk, old(disk)) && Leaves(p, Activate(version), old(disk), disk)
      ensures o == Done ==> Succeeds(p, Activate(version), old(disk), disk)
      ensures Counted(Target(p, old(disk), Activate(version)).Ok?, o, old(failures))
    {
      AtRestReads(p, disk);
      if !HasSlot(p, disk, version) { return Failed; }
      if s.current == version {
        o := SaveState(s.(pending := ""));
        if disk.state == Holding(s.(pending := "")) { SavedReads(p, disk, s.(pending := "")); }
        return;
      }
      if !UpgradeFloor(p, s).Known? || !Forward(p, version, FloorOf(p, s)) { return Failed; }
      o := Commit(Activating(s, version));
    }

    /** `rollback`. */
    method RollBackSlot() returns (o: Outcome)
      requires Lawful(p) && Sound(p, disk)
      modifies this
      ensures SameGround(disk, old(disk)) && Leaves(p, RollBack, old(disk), disk)
      ensures o == Done ==> Succeeds(p, RollBack, old(disk), disk)
      ensures Counted(Target(p, old(disk), RollBack).Ok?, o, old(failures))
    {
      dead := false;
      if disk.intent != Absent { return Failed; }
      var s;
      o, s := Settle();
      if o != Done { return; }
      ghost var settled := disk;
      if !HasSlot(p, disk, s.previous) || !UpgradeFloor(p, s).Known? { return Failed; }
      o := Commit(RollingBack(p, s));
      LeavesFrom(p, RollBack, old(disk), settled, disk);
    }

    /** `stage`: a verified release becomes a slot and the pending version. */
    method StageSlot(version: string, authentic: bool) returns (o: Outcome)
      requires Lawful(p) && Sound(p, disk)
      modifies this
      ensures Leaves(p, Stage(version), old(disk), disk)
      ensures o == Done ==> authentic && Succeeds(p, Stage(version), old(disk), disk) && version in disk.slots
      ensures Counted(authentic && Target(p, old(disk), Stage(version)).Ok?, o, old(failures))
    {
      dead := false;
      if disk.intent != Absent { return Failed; }
      var s;
      o, s := Settle();
      if o != Done { return; }
      ghost var settled := disk;
      o := StageSettled(s, version, authentic);
      LeavesFrom(p, Stage(version), old(disk), settled, disk);
    }

    method StageSettled(s: SlotState, version: string, authentic: bool) returns (o: Outcome)
      requires !dead && Lawful(p) && Sound(p, disk) && AtRest(p, disk) && disk.intent == Absent
      requires ReadPlain(p, disk) == ReadState(p, disk) == Ok(s)
      modifies this
      ensures Leaves(p, Stage(version), old(disk), disk)
      ensures o == Done ==> authentic && Succeeds(p, Stage(version), old(disk), disk) && version in disk.slots
      ensures Counted(authentic && Target(p, old(disk), Stage(version)).Ok?, o, old(failures))
    {
      if !authentic || !p.release(version) { return Failed; }
      if !UpgradeFloor(p, s).Known? || !Forward(p, version, FloorOf(p, s)) || version in disk.slots { return Failed; }
      AtRestReads(p, disk);
      o := StageOnto(s, version);
    }

    method StageOnto(s: SlotState, version: string) returns (o: Outcome)
      requires !dead && Lawful(p) && IntentOk(p, disk) && AtRest(p, disk) && ReadPlain(p, disk) == Ok(s)
      requires disk.intent == Absent && version !in disk.slots && version != s.current
      modifies this
      ensures StagingWrites(old(disk), s, version, disk, o)
      ensures disk.intent == Absent && AtRest(p, disk) && disk.slots <= old(disk.slots) + {version}
      ensures ReadState(p, disk) == Ok(s) || ReadState(p, disk) == Ok(s.(pending := version))
      ensures o == Done ==> ReadState(p, disk) == Ok(s.(pending := version)) && version in disk.slots
      ensures Counted(true, o, old(failures))
      ensures o == Failed && failures == old(failures) + 1 ==> disk.slots == old(disk.slots)
    {
      AtRestReads(p, disk);
      ghost var d0 := disk;
      MoreSlots(p, d0, version);
      o := Write(disk.(slots := disk.slots + {version}));
      ghost var d1, o1 := disk, o;
      if o == Done {
        o := SaveState(s.(pending := version));
        if disk.state == Holding(s.(pending := version)) { SavedReads(p, disk, s.(pending := version)); }
      }
      ghost var d2, o2 := disk, o;
      assert AddsSlot(d0, version, d1, o1) && SavesPending(d1, o1, s, version, d2, o2);
      var removed := Done;
      if o == Failed {
        removed := Write(disk.(slots := disk.slots - {version}));
        assert d0.slots + {version} - {version} == d0.slots && d0.slots - {version} == d0.slots;
        if disk.state == Holding(s.(pending := version)) { SavedReads(p, disk, s.(pending := version)); }
        if removed == Crashed { o := Crashed; }
      }
      assert RemovesSlot(d2, o2, version, disk, removed, o);
      StagingKeepsSlots(d0, s, version, disk, o);
    }

    /** `begin_installation`: the fence goes up before the installer's first change. */
    method RaiseFence(minimum: string) returns (o: Outcome)
      requires Lawful(p) && Sound(p, disk)
      modifies this
      ensures Leaves(p, BeginInstall(minimum), old(disk), disk)
      ensures o == Done ==> Succeeds(p, BeginInstall(minimum), old(disk), disk) && disk.intent == Holding(minimum)
      ensures Counted(Target(p, old(disk), BeginInstall(minimum)).Ok?, o, old(failures))
    {
      dead := false;
      var s;
      o, s := Settle();
      if o != Done { return; }
      if InstallationMinimum(p, s, minimum).Err? { return Failed; }
      FenceUp(p, disk, minimum);
      o := Write(disk.(intent := Holding(minimum)));
    }

    /** `install_baseline`: the copied payload becomes the only slot pointer, then the fence comes down. */
    method InstallSlot(version: string, minimum: string) returns (o: Outcome)
      requires Lawful(p) && Sound(p, disk)
      modifies this
      ensures Leaves(p, InstallBaseline(version, minimum), old(disk), disk)
      ensures o == Done ==> Succeeds(p, InstallBaseline(version, minimum), old(disk), disk) && disk.intent == Absent
      ensures Counted(Installable(p, old(disk), version, minimum), o, old(failures))
      ensures InstallTarget(p, old(disk), version, minimum).Err? ==> disk.slots == old(disk.slots)
    {
      dead := false;
      var s;
      o, s := Settle();
      if o != Done { return; }
      ghost var settled := disk;
      SameInstallation(p, old(disk), settled, version, minimum);
      o := InstallSettled(s, version, minimum);
      LeavesFrom(p, InstallBaseline(version, minimum), old(disk), settled, disk);
    }

    method InstallSettled(s: SlotState, version: string, minimum: string) returns (o: Outcome)
      requires !dead
      requires Lawful(p) && Sound(p, disk) && AtRest(p, disk) && ReadPlain(p, disk) == ReadState(p, disk) == Ok(s)
      modifies this
      ensures Leaves(p, InstallBaseline(version, minimum), old(disk), disk)
      ensures o == Done ==> Succeeds(p, InstallBaseline(version, minimum), old(disk), disk) && disk.intent == Absent
      ensures Counted(Installable(p, old(disk), version, minimum), o, old(failures))
      ensures InstallTarget(p, old(disk), version, minimum).Err? ==> disk == old(disk)
    {
      if InstallationMinimum(p, s, minimum).Err? { return Failed; }
      MoreSlots(p, disk, version);
      o := Write(disk.(slots := disk.slots + {version}));
      if o != Done { return; }
      o := Commit(Operation(Install, s, Installed(version, minimum)));
      if o != Done { return; }
      o := Write(disk.(intent := Absent));
      FenceDown(p, disk, Installed(version, minimum));
    }
  }

  lemma SurvivorSlotted(p: Precedence, d: Disk, op: Operation)
    requires Project(p, d, op).Ok?
    ensures Slotted(p, d, Project(p, d, op).value)
  {
  }

  lemma FenceUp(p: Precedence, d: Disk, minimum: string)
    requires Lawful(p) && IntentOk(p, d) && AtRest(p, d) && ReadPlain(p, d).Ok?
    requires InstallationMinimum(p, ReadPlain(p, d).value, minimum).Ok?
    ensures var d' := d.(intent := Holding(minimum));
      Sound(p, d') && ReadState(p, d') == BeginTarget(p, d, minimum) && BeginTarget(p, d, minimum).Ok?
  {
    var d' := d.(intent := Holding(minimum));
    AtRestReads(p, d');
  }

  /** A settled disk reads as its state with or without the fence. */
  lemma FenceDown(p: Precedence, d: Disk, s: SlotState)
    requires Settled(d, s) && ValidJournalState(p, d, s) && Normal(s) && !s.installing
    ensures AtRest(p, d) && ReadState(p, d) == WithIntent(p, d.intent, s)
    ensures d.intent == Absent ==> ReadState(p, d) == Ok(s)
  {
    SettledReads(p, d, s);
  }

  lemma MoreSlots(p: Precedence, d: Disk, version: string)
    requires AtRest(p, d)
    ensures var d' := d.(slots := d.slots + {version}); AtRest(p, d') && BaseState(p, d') == BaseState(p, d)
  {
  }

  lemma MidwayReads(p: Precedence, d: Disk, op: Operation)
    requires Lawful(p) && IntentOk(p, d) && UnderWay(p, d, op)
    ensures Sound(p, d)
    ensures ReadState(p, d) == WithIntent(p, d.intent, op.before) || ReadState(p, d) == WithIntent(p, d.intent, op.next)
  {
    UnderWayReads(p, d, op);
  }

  /** A saved state that names what the pointers name is what is read back. */
  lemma SavedReads(p: Precedence, d: Disk, s: SlotState)
    requires Lawful(p) && IntentOk(p, d) && d.journal == Absent && Links(p, d).Ok? && d.state == Holding(s)
    requires d.current == LinkFor(s.current) && d.previous == LinkFor(s.previous)
    requires Normal(s) && ReleasesOnly(p, s) && WithIntent(p, d.intent, s) == Ok(s)
    ensures AtRest(p, d) && ReadState(p, d) == Ok(s)
  {
    assert Overlay(s, s.current, s.previous) == s;
  }

  /** Wherever recovery is interrupted, the disk still reads as before. */
  lemma RecoverKeeps(p: Precedence, d: Disk, d': Disk, op: Operation, s: SlotState)
    requires IntentOk(p, d) && UnderWay(p, d, op) && Project(p, d, op) == Ok(s)
    requires SameGround(d, d') && (d'.journal == d.journal || Settled(d', s))
    requires d'.current == d.current || d'.current == LinkFor(s.current)
    ensures Sound(p, d') && BaseState(p, d') == BaseState(p, d)
    ensures Settled(d', s) ==> AtRest(p, d')
  {
    UnderWayReads(p, d, op);
    if Settled(d', s) {
      SettledReads(p, d', s);
    } else {
      UnderWayReads(p, d', op);
    }
  }
}
