/** Runs of slot commands in which any write may fail or be the last one before a crash. */
module SlotRuns {
  import opened Reachability
  import opened SlotDisk
  import opened Slots

  function FloorRead(p: Precedence, d: Disk): string {
    if ReadState(p, d).Ok? then FloorOf(p, ReadState(p, d).value) else ""
  }

  lemma FloorTransitive(p: Precedence, a: string, b: string, c: string)
    requires Lawful(p) && OptionalRelease(p, a) && OptionalRelease(p, b) && OptionalRelease(p, c)
    requires FloorAtMost(p, a, b) && FloorAtMost(p, b, c)
    ensures FloorAtMost(p, a, c)
  {
  }

  lemma FloorIsRelease(p: Precedence, s: SlotState)
    requires ReleasesOnly(p, s)
    ensures OptionalRelease(p, FloorOf(p, s)) && !UpgradeFloor(p, s).Invalid?
  {
  }

  lemma HigherIsHigher(p: Precedence, a: string, b: string)
    requires Lawful(p)
    ensures !p.less(Higher(p, a, b), a) && !p.less(Higher(p, a, b), b)
  {
    assert p.less(b, a) ==> !p.less(a, b);
  }

  /** The recorded minimum never exceeds the floor. */
  lemma MinimumBelowFloor(p: Precedence, s: SlotState)
    requires Lawful(p) && ReleasesOnly(p, s)
    ensures FloorAtMost(p, s.minimum, FloorOf(p, s))
  {
    HigherIsHigher(p, s.current, s.minimum);
    assert !p.less(s.minimum, s.minimum);
  }

  lemma ActivatedFloor(p: Precedence, s: SlotState, version: string)
    requires Lawful(p) && p.release(version) && Forward(p, version, FloorOf(p, s))
    ensures FloorOf(p, Activated(s, version)) == version && FloorAtMost(p, FloorOf(p, s), version)
  {
    assert !p.less(version, version);
  }

  lemma RolledBackFloor(p: Precedence, s: SlotState)
    requires Lawful(p) && ReleasesOnly(p, s)
    ensures FloorAtMost(p, FloorOf(p, s), FloorOf(p, RolledBack(p, s)))
  {
    FloorIsRelease(p, s);
    MinimumBelowFloor(p, RolledBack(p, s));
  }

  lemma WithIntentFloor(p: Precedence, intent: File<string>, s: SlotState, floor: string)
    requires Lawful(p) && ReleasesOnly(p, s) && OptionalRelease(p, floor) && WithIntent(p, intent, s).Ok?
    requires intent.Holding? && OptionalRelease(p, intent.value) && FloorAtMost(p, floor, intent.value)
    ensures FloorAtMost(p, floor, FloorOf(p, WithIntent(p, intent, s).value))
  {
    var t := WithIntent(p, intent, s).value;
    if intent.value != "" {
      HigherIsHigher(p, intent.value, s.minimum);
      assert !p.less(intent.value, intent.value);
      FloorTransitive(p, floor, intent.value, t.minimum);
      MinimumBelowFloor(p, t);
      FloorIsRelease(p, t);
      FloorTransitive(p, floor, t.minimum, FloorOf(p, t));
    }
  }

  /** What a base state must satisfy for its floor to be read. */
  lemma BaseReleases(p: Precedence, d: Disk)
    requires Lawful(p) && Sound(p, d)
    ensures BaseState(p, d).Ok? && ReleasesOnly(p, BaseState(p, d).value)
  {
    if d.journal == Absent {
      AtRestReads(p, d);
    } else {
      UnderWayReads(p, d, d.journal.value);
    }
  }

  lemma InstallFloor(p: Precedence, d: Disk, version: string, minimum: string)
    requires Lawful(p) && Sound(p, d) && InstallTarget(p, d, version, minimum).Ok?
    ensures FloorAtMost(p, FloorRead(p, d), minimum)
  {
    SoundReads(p, d);
  }

  /** No command, successful, failed or interrupted anywhere, lowers the version floor. */
  lemma FloorNeverFalls(p: Precedence, c: Command, d: Disk, d': Disk)
    requires Lawful(p) && Sound(p, d) && Leaves(p, c, d, d')
    ensures FloorAtMost(p, FloorRead(p, d), FloorRead(p, d'))
  {
    SoundReads(p, d);
    SoundReads(p, d');
    var s := ReadState(p, d).value;
    FloorIsRelease(p, s);
    if ReadState(p, d') == ReadState(p, d) {
      assert !p.less(FloorOf(p, s), FloorOf(p, s));
    } else {
      TargetFloor(p, c, d, d');
    }
  }

  lemma TargetFloor(p: Precedence, c: Command, d: Disk, d': Disk)
    requires Lawful(p) && Sound(p, d) && Sound(p, d') && Target(p, d, c).Ok?
    requires ReadState(p, d) == Ok(ReadState(p, d).value) && ReleasesOnly(p, ReadState(p, d).value)
    requires ReadState(p, d') == Target(p, d, c)
      || (c.InstallBaseline? && ReadState(p, d') == Fenced(p, d, Target(p, d, c).value))
    ensures FloorAtMost(p, FloorRead(p, d), FloorRead(p, d'))
  {
    var s := ReadState(p, d).value;
    match c
    case Stage(version) => StagedFloor(p, s, version);
    case Activate(version) =>
      if s.current == version { StagedFloor(p, s, ""); } else { ActivatedFloor(p, s, version); }
    case RollBack => RolledBackFloor(p, s);
    case BeginInstall(minimum) =>
      BaseReleases(p, d);
      FloorIsRelease(p, s);
      WithIntentFloor(p, Holding(minimum), BaseState(p, d).value, FloorOf(p, s));
    case InstallBaseline(version, minimum) => InstallBaselineFloor(p, d, d', version, minimum);
  }

  lemma StagedFloor(p: Precedence, s: SlotState, version: string)
    requires Lawful(p)
    ensures FloorAtMost(p, FloorOf(p, s), FloorOf(p, s.(pending := version)))
  {
    assert FloorOf(p, s.(pending := version)) == FloorOf(p, s);
    assert !p.less(FloorOf(p, s), FloorOf(p, s));
  }

  lemma InstallBaselineFloor(p: Precedence, d: Disk, d': Disk, version: string, minimum: string)
    requires Lawful(p) && Sound(p, d) && Sound(p, d') && InstallTarget(p, d, version, minimum).Ok?
    requires ReadState(p, d') == Ok(Installed(version, minimum))
      || ReadState(p, d') == Fenced(p, d, Installed(version, minimum))
    ensures FloorAtMost(p, FloorRead(p, d), FloorRead(p, d'))
  {
    SoundReads(p, d);
    SoundReads(p, d');
    var t := ReadState(p, d').value;
    InstallFloor(p, d, version, minimum);
    FloorIsRelease(p, ReadState(p, d).value);
    FloorIsRelease(p, t);
    MinimumBelowFloor(p, t);
    assert FloorAtMost(p, minimum, t.minimum) by {
      if d.intent.Holding? { HigherIsHigher(p, d.intent.value, minimum); }
      assert !p.less(minimum, minimum);
    }
    FloorTransitive(p, FloorRead(p, d), minimum, t.minimum);
    FloorTransitive(p, FloorRead(p, d), t.minimum, FloorRead(p, d'));
  }

  // ---------------------------------------------------------------------------------------
  // Runs

  ghost function Commands(p: Precedence): (Disk, Disk) -> bool {
    (d, d') => exists c :: Leaves(p, c, d, d')
  }

  /** Over every run of commands with any failures and crashes, the disk can always be read back
      and the version floor never falls. */
  lemma RunsKeepFloor(p: Precedence, d: Disk, d': Disk)
    requires Lawful(p) && Sound(p, d) && Reach(Commands(p), d, d')
    ensures Sound(p, d') && ReadState(p, d').Ok? && FloorAtMost(p, FloorRead(p, d), FloorRead(p, d'))
  {
    var floor := FloorRead(p, d);
    SoundReads(p, d);
    FloorIsRelease(p, ReadState(p, d).value);
    var inv := (x: Disk) => Sound(p, x) && FloorAtMost(p, floor, FloorRead(p, x));
    forall x, y | inv(x) && Commands(p)(x, y) ensures inv(y) {
      var c :| Leaves(p, c, x, y);
      FloorNeverFalls(p, c, x, y);
      SoundReads(p, x);
      SoundReads(p, y);
      FloorIsRelease(p, ReadState(p, x).value);
      FloorIsRelease(p, ReadState(p, y).value);
      FloorTransitive(p, floor, FloorRead(p, x), FloorRead(p, y));
    }
    assert !p.less(floor, floor);
    Invariant(Commands(p), inv, d, d');
    SoundReads(p, d');
  }

  // ---------------------------------------------------------------------------------------
  // Activation and rollback

  /** After an activation that moved the pointer, rollback is possible and returns to the slot
      before it, with the floor kept at the activated version. */
  lemma RollbackUndoesActivation(p: Precedence, d: Disk, d': Disk, version: string)
    requires Lawful(p) && Sound(p, d) && Sound(p, d') && SameGround(d, d') && Succeeds(p, Activate(version), d, d')
    requires ReadState(p, d).value.current != version && ReadState(p, d).value.current != ""
    ensures RollbackTarget(p, d').Ok?
    ensures var s := RollbackTarget(p, d').value;
      s.current == ReadState(p, d).value.current && s.previous == version && s.minimum == version
  {
    var s := ReadState(p, d).value;
    var t := Activated(s, version);
    ActivatedFloor(p, s, version);
    assert !p.less(version, version);
    assert ValidOperation(p, d', RollingBack(p, t));
  }

  /** A pending version that has no slot blocks the journal of every transition. */
  predicate PendingIntact(p: Precedence, d: Disk, s: SlotState) {
    s.pending == "" || HasSlot(p, d, s.pending)
  }

  /** A baseline that was installed without a release version. */
  predicate Baseline(version: string) {
    var body := if version != "" && version[0] == 'v' then version[1..] else version;
    |body| >= 16 && body[..16] == "0.0.0+bootstrap."
  }

  /** Nothing says which releases would be a step back. */
  predicate Unversioned(s: SlotState) {
    Baseline(s.current) && s.minimum == ""
  }

  /** A release above the recorded minimum and above the current version, unless that is a baseline; after a baseline
      without a minimum none is. */
  predicate Above(p: Precedence, s: SlotState, version: string) {
    && !Unversioned(s) && (s.minimum != "" ==> p.less(s.minimum, version))
    && (s.current != "" && !Baseline(s.current) ==> p.less(s.current, version))
  }

  lemma BaselineIff(version: string)
    ensures IsBootstrap(version) <==> Baseline(version)
  {
    var prefix := "0.0.0+bootstrap.";
    assert |prefix| == 16 && "v0.0.0+bootstrap." == ['v'] + prefix;
    if version != "" && version[0] == 'v' {
      assert version == ['v'] + version[1..];
      assert "v0.0.0+bootstrap." <= version <==> prefix <= version[1..];
    }
  }

  /** The floor is exactly this. */
  lemma AboveIff(p: Precedence, s: SlotState, version: string)
    requires Lawful(p) && ReleasesOnly(p, s)
    ensures UpgradeFloor(p, s).Known? <==> !Unversioned(s)
    ensures p.release(version) ==>
      (UpgradeFloor(p, s).Known? && Forward(p, version, FloorOf(p, s)) <==> Above(p, s, version))
  {
    BaselineIff(s.current);
    if p.release(version) && p.release(s.current) && p.release(s.minimum) {
      assert p.less(s.minimum, s.current) ==> !p.less(s.current, s.minimum);
      assert p.less(s.current, s.minimum) ==> !p.less(s.minimum, s.current);
    }
  }

  /** Not below the recorded minimum nor below the current version, unless that is a baseline. */
  predicate Upholds(p: Precedence, s: SlotState, minimum: string) {
    && (s.minimum != "" ==> minimum != "" && !p.less(minimum, s.minimum))
    && (s.current != "" && !Baseline(s.current) ==> minimum != "" && !p.less(minimum, s.current))
  }

  lemma UpholdsIff(p: Precedence, s: SlotState, minimum: string)
    requires Lawful(p) && ReleasesOnly(p, s) && OptionalRelease(p, minimum)
    ensures FloorAtMost(p, FloorOf(p, s), minimum) <==> Upholds(p, s, minimum)
  {
    BaselineIff(s.current);
    if p.release(minimum) && p.release(s.current) && p.release(s.minimum) {
      assert p.less(s.minimum, s.current) ==> !p.less(s.current, s.minimum);
    }
  }

  /** A state that a journal may name: every version in it has a slot, and the pointers differ. */
  predicate Nameable(p: Precedence, d: Disk, s: SlotState) {
    && (forall v | v in {s.current, s.previous, s.pending} && v != "" :: p.release(v) && v in d.slots)
    && (s.minimum != "" ==> p.release(s.minimum)) && !(s.current != "" && s.current == s.previous)
  }

  /** What each kind of transition does to the pointers and demands of the version it moves to. */
  predicate Fits(p: Precedence, op: Operation) {
    var (a, b) := (op.before, op.next);
    match op.kind
    case Install => b.current != "" && b.previous == ""
    case Activation => b.current !in {"", a.current} && b.previous == a.current && Above(p, a, b.current)
    case Rollback => a.previous != "" && b.current == a.previous && b.previous == a.current && !Unversioned(a)
  }

  /** For every disk and every journal: it is trusted if and only if both its states can be there, the later one
      has nothing pending and upholds the floor, and the move is one of the three. */
  lemma JournalTrusted(p: Precedence, d: Disk, op: Operation)
    requires Lawful(p)
    ensures ValidOperation(p, d, op) <==>
      && Nameable(p, d, op.before) && Nameable(p, d, op.next) && op.next.pending == ""
      && Upholds(p, op.before, op.next.minimum) && Fits(p, op)
  {
    assert ValidJournalState(p, d, op.before) <==> Nameable(p, d, op.before);
    assert ValidJournalState(p, d, op.next) <==> Nameable(p, d, op.next);
    if ValidJournalState(p, d, op.before) && ValidJournalState(p, d, op.next) {
      UpholdsIff(p, op.before, op.next.minimum);
      AboveIff(p, op.before, op.next.current);
      FloorIsRelease(p, op.before);
    }
  }

  // ---------------------------------------------------------------------------------------
  // What a disk reads as

  /** A pointer selects nothing, or a release that has a slot. */
  predicate Selects(p: Precedence, d: Disk, link: Link, version: string) {
    if version == "" then link == NoLink
    else link == To(version) && p.release(version) && version in d.slots
  }

  predicate Stored(d: Disk, s: SlotState) {
    d.state == Holding(s) || (d.state == Absent && s == SlotState("", "", "", "", false))
  }

  /** The pointers go before what the state file says, and the current version no longer waits. */
  predicate Merged(file: SlotState, current: string, previous: string, s: SlotState) {
    && s.current == (if current == "" then file.current else current)
    && s.previous == (if previous == "" then file.previous else previous)
    && s.pending == (if current != "" && file.pending == current then "" else file.pending)
    && s.minimum == file.minimum && s.installing == file.installing
  }

  /** What the disk says before the installation fence is looked at: the journal's later state once the current
      pointer has moved there, its earlier one while it has not; without a journal the state file and pointers. */
  predicate Says(p: Precedence, d: Disk, file: SlotState, current: string, previous: string, s: SlotState) {
    && Selects(p, d, d.current, current)
    && match d.journal
       case Garbage => false
       case Absent => Selects(p, d, d.previous, previous) && Stored(d, file) && Merged(file, current, previous, s)
       case Holding(op) =>
         && ValidOperation(p, d, op)
         && if current != "" && op.next.current == current then s == op.next
            else op.before.current == current && s == op.before
  }

  /** An unfinished installation raises the minimum. */
  predicate Fences(p: Precedence, intent: File<string>, base: SlotState, s: SlotState) {
    match intent
    case Garbage => false
    case Absent => s == base.(installing := false)
    case Holding(floor) =>
      var raises := floor != "" && (base.minimum == "" || p.less(base.minimum, floor));
      && (floor != "" ==> p.release(floor) && (base.minimum != "" ==> p.release(base.minimum)))
      && s == base.(installing := true, minimum := if raises then floor else base.minimum)
  }

  /** For every disk, sound or not: it reads as a state if and only if it says so. */
  lemma ReadIff(p: Precedence, d: Disk, s: SlotState)
    requires Lawful(p)
    ensures ReadState(p, d) == Ok(s) <==>
      exists base, file, current, previous ::
        Says(p, d, file, current, previous, base) && Fences(p, d.intent, base, s)
  {
    forall base ensures Fences(p, d.intent, base, s) <==> WithIntent(p, d.intent, base) == Ok(s) {
    }
    forall base, file, current, previous | Says(p, d, file, current, previous, base)
      ensures BaseState(p, d) == Ok(base)
    {
      SaidIsRead(p, d, file, current, previous, base);
    }
    if BaseState(p, d).Ok? { var _, _, _ := ReadIsSaid(p, d); }
  }

  lemma SaidIsRead(p: Precedence, d: Disk, file: SlotState, current: string, previous: string, s: SlotState)
    requires Lawful(p) && Says(p, d, file, current, previous, s)
    ensures BaseState(p, d) == Ok(s)
  {
    assert LinkVersion(p, d, d.current) == Ok(current);
  }

  lemma ReadIsSaid(p: Precedence, d: Disk) returns (file: SlotState, current: string, previous: string)
    requires Lawful(p) && BaseState(p, d).Ok?
    ensures Says(p, d, file, current, previous, BaseState(p, d).value)
  {
    current := LinkVersion(p, d, d.current).value;
    previous := if d.journal == Absent then LinkVersion(p, d, d.previous).value else "";
    file := if d.journal == Absent then StateFile(d).value else SlotState("", "", "", "", false);
  }

  // ---------------------------------------------------------------------------------------
  // Which commands are accepted

  /** On a readable disk a rollback is accepted exactly when no installation is under way, there is another
      previous slot, the current slot is no baseline without a minimum, and a pending version still has its slot. */
  lemma RollbackAccepted(p: Precedence, d: Disk)
    requires Lawful(p) && Sound(p, d)
    ensures var s := ReadState(p, d).value;
      RollbackTarget(p, d).Ok? <==>
        && d.intent == Absent && HasSlot(p, d, s.previous) && s.previous != s.current && !Unversioned(s)
        && PendingIntact(p, d, s)
  {
    SoundReads(p, d);
    SlotsOfState(p, d);
    AboveIff(p, ReadState(p, d).value, "");
    FloorIsRelease(p, ReadState(p, d).value);
    assert !p.less(FloorOf(p, ReadState(p, d).value), FloorOf(p, ReadState(p, d).value));
  }

  lemma FloorUpheld(p: Precedence, s: SlotState)
    requires Lawful(p) && ReleasesOnly(p, s)
    ensures FloorOf(p, s) in {"", s.current, s.minimum} && Upholds(p, s, FloorOf(p, s))
  {
    FloorIsRelease(p, s);
    UpholdsIff(p, s, FloorOf(p, s));
    assert !p.less(FloorOf(p, s), FloorOf(p, s));
  }

  /** It exchanges the two slots, drops what was pending, and records a minimum that is not below either what was
      installed or the minimum before. */
  lemma RollbackReaches(p: Precedence, d: Disk)
    requires Lawful(p) && Sound(p, d) && RollbackTarget(p, d).Ok?
    ensures ReadState(p, d).Ok?
    ensures var (s, t) := (ReadState(p, d).value, RollbackTarget(p, d).value);
      && t == SlotState(s.previous, s.current, "", t.minimum, false)
      && t.minimum in {"", s.current, s.minimum} && Upholds(p, s, t.minimum)
  {
    SoundReads(p, d);
    FloorUpheld(p, ReadState(p, d).value);
  }

  /** An activation is accepted exactly when no installation is under way, the version has a slot and it is
      current, or above what is installed while the pointers differ and a pending version still has its slot. */
  lemma ActivationAccepted(p: Precedence, d: Disk, version: string)
    requires Lawful(p) && Sound(p, d)
    ensures var s := ReadState(p, d).value;
      ActivateTarget(p, d, version).Ok? <==>
        && d.intent == Absent && HasSlot(p, d, version)
        && (s.current == version || (Above(p, s, version) && PointersDiffer(s) && PendingIntact(p, d, s)))
    ensures ActivateTarget(p, d, version).Ok? ==>
      var s := ReadState(p, d).value;
      ActivateTarget(p, d, version).value ==
        if s.current == version then s.(pending := "") else SlotState(version, s.current, "", version, false)
  {
    SoundReads(p, d);
    SlotsOfState(p, d);
    ActivatedFloorKept(p, ReadState(p, d).value, version);
    AboveIff(p, ReadState(p, d).value, version);
  }

  /** And a staging exactly when no installation is under way and a release without a slot is above both. */
  lemma StagingAccepted(p: Precedence, d: Disk, version: string)
    requires Lawful(p) && Sound(p, d)
    ensures var s := ReadState(p, d).value;
      StageTarget(p, d, version).Ok? <==>
        d.intent == Absent && p.release(version) && version !in d.slots && Above(p, s, version)
    ensures StageTarget(p, d, version).Ok? ==>
      StageTarget(p, d, version).value == ReadState(p, d).value.(pending := version)
  {
    SoundReads(p, d);
    AboveIff(p, ReadState(p, d).value, version);
  }

  /** A full installation may be announced, and its baseline installed, exactly when the proposed minimum is no
      release below what is installed. */
  lemma InstallationAccepted(p: Precedence, d: Disk, version: string, minimum: string)
    requires Lawful(p) && Sound(p, d)
    ensures var may := (minimum != "" ==> p.release(minimum)) && Upholds(p, ReadState(p, d).value, minimum);
      (BeginTarget(p, d, minimum).Ok? <==> may) && (InstallTarget(p, d, version, minimum).Ok? <==> may)
    ensures InstallTarget(p, d, version, minimum).Ok? ==>
      InstallTarget(p, d, version, minimum).value == SlotState(version, "", "", minimum, false)
    ensures BeginTarget(p, d, minimum).Ok? ==>
      var t := BeginTarget(p, d, minimum).value;
      t.installing && t == BaseState(p, d).value.(installing := true, minimum := t.minimum)
  {
    SoundReads(p, d);
    BaseReleases(p, d);
    FloorIsRelease(p, ReadState(p, d).value);
    if OptionalRelease(p, minimum) { UpholdsIff(p, ReadState(p, d).value, minimum); }
  }

  predicate PointersDiffer(s: SlotState) {
    s.current == "" || s.current != s.previous
  }

  lemma ActivatedFloorKept(p: Precedence, s: SlotState, version: string)
    requires Lawful(p)
    ensures p.release(version) && Forward(p, version, FloorOf(p, s)) ==> FloorAtMost(p, FloorOf(p, s), version)
  {
  }

  /** The current and previous versions that are read always have their slots. */
  lemma SlotsOfState(p: Precedence, d: Disk)
    requires Lawful(p) && Sound(p, d)
    ensures ReadState(p, d).Ok?
    ensures OptionalSlot(p, d, ReadState(p, d).value.current) && OptionalSlot(p, d, ReadState(p, d).value.previous)
  {
    SoundReads(p, d);
    if d.journal == Absent {
      AtRestReads(p, d);
    } else {
      UnderWayReads(p, d, d.journal.value);
    }
  }

  /** So a baseline that was installed without a minimum refuses every staging, every activation of another version
      and every rollback. */
  lemma BaselineRefuses(p: Precedence, d: Disk, version: string)
    requires Lawful(p) && Sound(p, d) && ReadState(p, d).Ok?
    requires "0.0.0+bootstrap." <= ReadState(p, d).value.current != version && ReadState(p, d).value.minimum == ""
    ensures StageTarget(p, d, version).Err? && ActivateTarget(p, d, version).Err? && RollbackTarget(p, d).Err?
  {
    assert ReadState(p, d).value.current[..16] == "0.0.0+bootstrap.";
    StagingAccepted(p, d, version);
    ActivationAccepted(p, d, version);
    RollbackAccepted(p, d);
  }

  /** So a pending version without a slot shuts out every rollback and every activation of another version. */
  lemma StrandedPending(p: Precedence, d: Disk, version: string)
    requires Lawful(p) && Sound(p, d)
    requires var s := ReadState(p, d); s.Ok? && !PendingIntact(p, d, s.value) && s.value.current != version
    ensures ActivateTarget(p, d, version).Err? && RollbackTarget(p, d).Err?
  {
    RollbackAccepted(p, d);
    ActivationAccepted(p, d, version);
  }

  /** Staging's own writes can end with a pending version that has no slot: the slot is added, the state
      file reaches the disk although its write reports an error, and the slot is removed again. */
  lemma StagingStrands(p: Precedence, d: Disk, version: string)
    requires Lawful(p) && IntentOk(p, d) && AtRest(p, d) && StageTarget(p, d, version).Ok?
    ensures var s := ReadState(p, d).value;
      var d' := d.(state := Holding(s.(pending := version)));
      && StagingWrites(d, s, version, d', Failed)
      && Sound(p, d') && ReadState(p, d') == Ok(s.(pending := version)) && !PendingIntact(p, d', s.(pending := version))
  {
    AtRestReads(p, d);
    var s := ReadPlain(p, d).value;
    var d1 := d.(slots := d.slots + {version});
    var d2 := d1.(state := Holding(s.(pending := version)));
    var d' := d.(state := Holding(s.(pending := version)));
    assert AddsSlot(d, version, d1, Done) && SavesPending(d1, Done, s, version, d2, Failed);
    assert d1.slots - {version} == d.slots;
    assert RemovesSlot(d2, Failed, version, d', Done, Failed);
    SavedReads(p, d', s.(pending := version));
  }
}
