/** The updater: layout checks, activation with the service pair restarted from one slot, and
    automatic rollback. Service commands may fail, leaving a service as it was, stopped, or
    started; no supervisor respawns a service between two commands. */
module Update {
  import opened SlotDisk
  import opened Slots
  import SlotRuns
  import Json

  // ---------------------------------------------------------------------------------------
  // The installed layout

  datatype LayoutFile = LayoutFile(slotPath: string, systemPath: string, mode: int)

  datatype Installed = Installed(content: seq<int>, mode: int, regular: bool)

  /** The integration files of a slot tree and of the running system. */
  datatype Layout = Layout(
    files: seq<LayoutFile>, slots: map<(string, string), seq<int>>, system: map<string, Installed>, leaseDir: bool)

  predicate FileMatches(l: Layout, version: string, f: LayoutFile) {
    && (version, f.slotPath) in l.slots && f.systemPath in l.system
    && l.slots[(version, f.slotPath)] == l.system[f.systemPath].content
    && l.system[f.systemPath].regular && l.system[f.systemPath].mode == f.mode
  }

  predicate Compatible(l: Layout, version: string) {
    (forall f | f in l.files :: FileMatches(l, version, f)) && l.leaseDir
  }

  /** `verify_runtime_layout_compatibility`. */
  method VerifyLayout(l: Layout, version: string) returns (ok: bool)
    ensures ok <==> Compatible(l, version)
    ensures ok <==> l.leaseDir && forall i | 0 <= i < |l.files| ::
      var f := l.files[i];
      && (version, f.slotPath) in l.slots && f.systemPath in l.system
      && l.system[f.systemPath] == Installed(l.slots[(version, f.slotPath)], f.mode, true)
  {
    for i := 0 to |l.files|
      invariant forall j | 0 <= j < i :: FileMatches(l, version, l.files[j])
    {
      if !FileMatches(l, version, l.files[i]) { return false; }
    }
    return l.leaseDir;
  }

  /** Two slots that both pass the check agree byte for byte on every integration file. */
  lemma CompatibleSlotsAgree(l: Layout, a: string, b: string, f: LayoutFile)
    requires Compatible(l, a) && Compatible(l, b) && f in l.files
    ensures (a, f.slotPath) in l.slots && (b, f.slotPath) in l.slots
    ensures l.slots[(a, f.slotPath)] == l.slots[(b, f.slotPath)]
  {
    assert FileMatches(l, a, f) && FileMatches(l, b, f);
  }

  const DISPATCHER := "/usr/libexec/minimalrouter/slot-exec"
  const DISPATCHED := [
    "/usr/bin/routerd", "/usr/sbin/router-applyd", "/usr/sbin/router-recovery", "/usr/sbin/router-update"]

  // ---------------------------------------------------------------------------------------
  // The service pair

  datatype Process = Stopped | Running(slot: string)

  datatype Pair = Pair(routerd: Process, applyd: Process)

  /** The two services never run from different slots. */
  predicate Unmixed(p: Pair) {
    p.routerd.Running? && p.applyd.Running? ==> p.routerd.slot == p.applyd.slot
  }

  /** The tree a service is started from: the current pointer's, or the bootstrap tree without one. */
  function Selected(d: Disk): string {
    if d.current.To? then d.current.version else ""
  }

  lemma SelectedIsCurrent(p: Precedence, d: Disk)
    requires Lawful(p) && Sound(p, d)
    ensures ReadState(p, d).Ok? && Selected(d) == ReadState(p, d).value.current
  {
    SoundReads(p, d);
    if d.journal == Absent {
      AtRestReads(p, d);
    } else {
      UnderWayReads(p, d, d.journal.value);
    }
  }

  /** The version is current, and if that is a change the one before it can be returned to. */
  ghost predicate Reversible(p: Precedence, d: Disk, before: SlotState, version: string) {
    && ReadState(p, d).Ok? && ReadState(p, d).value.current == version
    && (version != before.current ==> ReadState(p, d).value.previous == before.current && RollbackTarget(p, d).Ok?)
  }

  lemma AfterActivation(p: Precedence, d: Disk, d': Disk, before: SlotState, version: string)
    requires Lawful(p) && Sound(p, d) && Sound(p, d') && SameGround(d, d') && Succeeds(p, Activate(version), d, d')
    requires ReadState(p, d) == Ok(before) && before.current != ""
    ensures Reversible(p, d', before, version)
  {
    if version != before.current { SlotRuns.RollbackUndoesActivation(p, d, d', version); }
  }

  datatype Report = Succeeded | Refused | NotActivated | AutomaticallyRolledBack | RollbackFailed | NotRestarted

  class Updater {
    const manager: SlotManager
    const layout: Layout
    var links: map<string, string>
    var pair: Pair
    ghost var history: seq<Pair>
    /** Service commands that failed, and dispatcher links that could not be set. */
    ghost var failures: nat
    ghost var unlinked: nat

    constructor (manager: SlotManager, layout: Layout, links: map<string, string>, pair: Pair)
      ensures this.manager == manager && this.layout == layout && this.links == links && this.pair == pair
      ensures history == [pair] && failures == unlinked == 0
    {
      this.manager, this.layout, this.links, this.pair := manager, layout, links, pair;
      history, failures, unlinked := [pair], 0, 0;
    }

    ghost predicate Valid()
      reads this, manager
    {
      Lawful(manager.p) && Sound(manager.p, manager.disk) && Unmixed(pair)
    }

    /** Every pair of services seen since the history was `before` is unmixed. */
    ghost predicate UnmixedSince(before: seq<Pair>)
      reads this
    {
      before <= history && forall i | |before| <= i < |history| :: Unmixed(history[i])
    }

    /** A service command has been carried out, successfully or not. */
    method Observe(next: Pair, ok: bool)
      requires Unmixed(next)
      modifies this
      ensures pair == next && links == old(links) && history == old(history) + [next] && unlinked == old(unlinked)
      ensures Tallied(ok, old(failures))
    {
      pair, history := next, history + [next];
      if !ok { failures := failures + 1; }
    }

    /** The failures since there were `before` are none, or the one that ended it. */
    ghost predicate Tallied(ok: bool, before: nat)
      reads this
    {
      failures == before + if ok then 0 else 1
    }

    method StopRouterd() returns (ok: bool)
      requires Unmixed(pair)
      modifies this
      ensures Unmixed(pair) && links == old(links) && pair.applyd == old(pair.applyd)
      ensures pair.routerd == Stopped || (!ok && pair.routerd == old(pair.routerd))
      ensures history == old(history) + [pair] && unlinked == old(unlinked) && Tallied(ok, old(failures))
    {
      var reached: bool := *;
      ok := *;
      ok := ok && reached;
      Observe(if reached then pair.(routerd := Stopped) else pair, ok);
    }

    method RestartApplyd() returns (ok: bool)
      requires pair.routerd == Stopped
      modifies this
      ensures Unmixed(pair) && links == old(links) && pair.routerd == Stopped
      ensures ok ==> pair.applyd == Running(Selected(manager.disk))
      ensures history == old(history) + [pair] && unlinked == old(unlinked) && Tallied(ok, old(failures))
    {
      ok := *;
      var stopped: bool, started: bool := *, *;
      var next := if ok || started then Running(Selected(manager.disk)) else if stopped then Stopped else pair.applyd;
      Observe(pair.(applyd := next), ok);
    }

    method StartRouterd() returns (ok: bool)
      requires pair.routerd == Stopped && pair.applyd == Running(Selected(manager.disk))
      modifies this
      ensures Unmixed(pair) && links == old(links) && pair.applyd == old(pair.applyd)
      ensures ok ==> pair.routerd == Running(Selected(manager.disk))
      ensures history == old(history) + [pair] && unlinked == old(unlinked) && Tallied(ok, old(failures))
    {
      ok := *;
      var started: bool := *;
      Observe(pair.(routerd := if ok || started then Running(Selected(manager.disk)) else Stopped), ok);
    }

    /** Both services are asked for their status; one that died meanwhile is found stopped. */
    method CheckStatus() returns (ok: bool)
      requires Unmixed(pair) && pair.applyd.Running? && pair.routerd.Running?
      modifies this
      ensures Unmixed(pair) && links == old(links)
      ensures ok ==> pair == old(pair)
      ensures history == old(history) + [pair] && unlinked == old(unlinked) && Tallied(ok, old(failures))
    {
      var applydDied: bool, routerdDied: bool, failed: bool := *, *, *;
      var next := Pair(if routerdDied then Stopped else pair.routerd, if applydDied then Stopped else pair.applyd);
      ok := !applydDied && !routerdDied && !failed;
      Observe(next, ok);
    }

    /** `restart_runtime_pair`: stop, restart, start, and look whether both still run. */
    method RestartPair() returns (ok: bool)
      requires Unmixed(pair)
      modifies this
      ensures Unmixed(pair) && links == old(links) && UnmixedSince(old(history))
      ensures ok ==> pair == Pair(Running(Selected(manager.disk)), Running(Selected(manager.disk)))
      ensures ok ==>
        history == old(history) + [Pair(Stopped, old(pair.applyd)), Pair(Stopped, pair.applyd), pair, pair]
      ensures unlinked == old(unlinked) && Tallied(ok, old(failures))
    {
      ok := StopRouterd();
      if !ok { return; }
      ok := RestartApplyd();
      if !ok { return; }
      ok := StartRouterd();
      if !ok { return; }
      ok := CheckStatus();
    }

    /** `ensure_runtime_dispatcher_links`. */
    method EnsureDispatcherLinks() returns (ok: bool)
      modifies this
      ensures pair == old(pair) && history == old(history) && failures == old(failures)
      ensures unlinked == old(unlinked) + if ok then 0 else 1
      ensures (forall path | path in DISPATCHED :: path in old(links) && old(links)[path] == DISPATCHER) ==>
        ok && links == old(links)
      ensures ok ==> forall path | path in DISPATCHED ::
        path in links && links[path] == "/usr/libexec/minimalrouter/slot-exec"
      ensures forall path | path !in DISPATCHED ::
        (path in links <==> path in old(links)) && (path in links ==> links[path] == old(links)[path])
    {
      for i := 0 to |DISPATCHED|
        invariant pair == old(pair) && history == old(history) && failures == old(failures) && unlinked == old(unlinked)
        invariant forall j | 0 <= j < i :: DISPATCHED[j] in links && links[DISPATCHED[j]] == DISPATCHER
        invariant forall path | path !in DISPATCHED ::
          (path in links <==> path in old(links)) && (path in links ==> links[path] == old(links)[path])
        invariant (forall path | path in DISPATCHED :: path in old(links) && old(links)[path] == DISPATCHER) ==>
          links == old(links)
      {
        var path := DISPATCHED[i];
        if path in links && links[path] == DISPATCHER { continue; }
        var fails: bool := *;
        if fails {
          unlinked := unlinked + 1;
          return false;
        }
        links := links[path := DISPATCHER];
      }
      return true;
    }

    /** Whether an activation gets as far as the slot manager, but for the dispatcher links. */
    ghost predicate Passes(version: string)
      requires Valid()
      reads this, manager
    {
      SoundReads(manager.p, manager.disk);
      var current := ReadState(manager.p, manager.disk).value.current;
      current != "" && Compatible(layout, version) && Compatible(layout, current)
    }

    /** `activate_and_restart`: what each report means, by what failed. */
    method ActivateAndRestart(version: string) returns (r: Report)
      requires Valid()
      modifies this, manager
      ensures Valid() && UnmixedSince(old(history)) && SameGround(manager.disk, old(manager.disk))
      ensures r == Refused <==> !old(Passes(version)) || unlinked > old(unlinked)
      ensures r == Refused ==> manager.disk == old(manager.disk) && pair == old(pair)
      ensures r == NotActivated ==>
        && pair == old(pair) && failures == old(failures)
        && (Target(manager.p, old(manager.disk), Activate(version)).Err? || manager.failures > old(manager.failures))
      ensures old(Passes(version)) && unlinked == old(unlinked) && manager.failures == old(manager.failures) ==>
        && (r == NotActivated <==> Target(manager.p, old(manager.disk), Activate(version)).Err?)
        && (r == Succeeded <==> r != NotActivated && failures == old(failures))
      ensures r == Succeeded ==>
        && failures == old(failures) && manager.failures == old(manager.failures)
        && Selected(manager.disk) == version && pair == Pair(Running(version), Running(version))
        && Compatible(layout, version) && Compatible(layout, old(Selected(manager.disk)))
      ensures r == AutomaticallyRolledBack ==>
        && failures == old(failures) + 1 && manager.failures == old(manager.failures)
        && pair == Pair(Running(Selected(manager.disk)), Running(Selected(manager.disk)))
        && (Selected(manager.disk) == old(Selected(manager.disk)) <==> version != old(Selected(manager.disk)))
      ensures r == RollbackFailed && version != old(Selected(manager.disk)) ==>
        failures == old(failures) + 2 || manager.failures > old(manager.failures)
    {
      SelectedIsCurrent(manager.p, manager.disk);
      var before := ReadState(manager.p, manager.disk).value;
      if before.current == "" { return Refused; }
      var candidate := VerifyLayout(layout, version);
      if !candidate { return Refused; }
      var baseline := VerifyLayout(layout, before.current);
      if !baseline { return Refused; }
      var linked := EnsureDispatcherLinks();
      if !linked { return Refused; }
      r := Activation(before, version);
    }

    /** The activation itself, after its checks. */
    method Activation(ghost before: SlotState, version: string) returns (r: Report)
      requires Valid() && ReadState(manager.p, manager.disk) == Ok(before) && before.current != ""
      modifies this, manager
      ensures Valid() && UnmixedSince(old(history)) && SameGround(manager.disk, old(manager.disk))
      ensures r != Refused && unlinked == old(unlinked) && old(manager.failures) <= manager.failures
      ensures r == NotActivated ==>
        && pair == old(pair) && failures == old(failures)
        && (Target(manager.p, old(manager.disk), Activate(version)).Err? || manager.failures > old(manager.failures))
      ensures r != NotActivated ==> Target(manager.p, old(manager.disk), Activate(version)).Ok?
      ensures r == Succeeded <==> r != NotActivated && failures == old(failures)
      ensures r == Succeeded ==>
        && manager.failures == old(manager.failures)
        && Selected(manager.disk) == version && pair == Pair(Running(version), Running(version))
      ensures r == AutomaticallyRolledBack ==>
        && failures == old(failures) + 1 && manager.failures == old(manager.failures)
        && pair == Pair(Running(Selected(manager.disk)), Running(Selected(manager.disk)))
        && (Selected(manager.disk) == before.current <==> version != before.current)
      ensures r == RollbackFailed && version != before.current ==>
        failures == old(failures) + 2 || manager.failures > old(manager.failures)
    {
      var o := manager.ActivateSlot(version);
      if o != Done { return NotActivated; }
      AfterActivation(manager.p, old(manager.disk), manager.disk, before, version);
      r := Restarting(before, version);
    }

    /** The services are restarted from the slot that was activated. */
    method Restarting(ghost before: SlotState, ghost version: string) returns (r: Report)
      requires Valid() && Reversible(manager.p, manager.disk, before, version)
      modifies this, manager
      ensures Valid() && UnmixedSince(old(history)) && SameGround(manager.disk, old(manager.disk))
      ensures r == Succeeded || r == AutomaticallyRolledBack || r == RollbackFailed
      ensures unlinked == old(unlinked) && old(manager.failures) <= manager.failures
      ensures r == Succeeded <==> failures == old(failures)
      ensures r == Succeeded ==>
        manager.failures == old(manager.failures) && Selected(manager.disk) == version
        && pair == Pair(Running(version), Running(version))
      ensures r == AutomaticallyRolledBack ==>
        && failures == old(failures) + 1 && manager.failures == old(manager.failures)
        && pair == Pair(Running(Selected(manager.disk)), Running(Selected(manager.disk)))
        && (Selected(manager.disk) == before.current <==> version != before.current)
      ensures r == RollbackFailed && version != before.current ==>
        failures == old(failures) + 2 || manager.failures > old(manager.failures)
    {
      SelectedIsCurrent(manager.p, manager.disk);
      var ok := RestartPair();
      if ok { return Succeeded; }
      r := AutomaticRollback(before, version);
    }

    /** After a failed restart: rolled back if and only if that is accepted and nothing fails again. */
    method AutomaticRollback(ghost before: SlotState, ghost version: string) returns (r: Report)
      requires Valid() && ReadState(manager.p, manager.disk).Ok?
      requires var s := ReadState(manager.p, manager.disk).value;
        s.current == version && (version != before.current ==> s.previous == before.current)
      modifies this, manager
      ensures Valid() && UnmixedSince(old(history)) && SameGround(manager.disk, old(manager.disk))
      ensures unlinked == old(unlinked) && old(manager.failures) <= manager.failures
      ensures r == AutomaticallyRolledBack || r == RollbackFailed
      ensures r == AutomaticallyRolledBack <==>
        && RollbackTarget(manager.p, old(manager.disk)).Ok?
        && manager.failures == old(manager.failures) && failures == old(failures)
      ensures old(failures) <= failures <= old(failures) + 1
      ensures r == RollbackFailed && RollbackTarget(manager.p, old(manager.disk)).Ok? ==>
        failures == old(failures) + 1 || manager.failures > old(manager.failures)
      ensures r == AutomaticallyRolledBack ==>
        && pair == Pair(Running(Selected(manager.disk)), Running(Selected(manager.disk)))
        && (Selected(manager.disk) == before.current <==> version != before.current)
    {
      SoundReads(manager.p, manager.disk);
      var o := manager.RollBackSlot();
      if o != Done { return RollbackFailed; }
      SelectedIsCurrent(manager.p, manager.disk);
      var ok := RestartPair();
      return if ok then AutomaticallyRolledBack else RollbackFailed;
    }

    /** `rollback_and_restart`. */
    method RollbackAndRestart() returns (r: Report)
      requires Valid()
      modifies this, manager
      ensures Valid() && UnmixedSince(old(history)) && SameGround(manager.disk, old(manager.disk))
      ensures var s := old(ReadState(manager.p, manager.disk)).value;
        r == Refused <==> s.previous == "" || !Compatible(layout, s.previous)
      ensures r == Succeeded ==>
        var target := old(ReadState(manager.p, manager.disk)).value.previous;
        Selected(manager.disk) == target && pair == Pair(Running(target), Running(target))
      ensures r == NotActivated ==> pair == old(pair) && failures == old(failures)
      ensures r != Refused && manager.failures == old(manager.failures) ==>
        && (r == NotActivated <==> RollbackTarget(manager.p, old(manager.disk)).Err?)
        && (r == Succeeded <==> r != NotActivated && failures == old(failures))
      ensures r == Succeeded || r == NotRestarted ==> manager.failures == old(manager.failures)
    {
      SoundReads(manager.p, manager.disk);
      var s := ReadState(manager.p, manager.disk).value;
      if s.previous == "" { return Refused; }
      var compatible := VerifyLayout(layout, s.previous);
      if !compatible { return Refused; }
      var o := manager.RollBackSlot();
      if o != Done { return NotActivated; }
      SelectedIsCurrent(manager.p, manager.disk);
      var ok := RestartPair();
      return if ok then Succeeded else NotRestarted;
    }
  }

  // ---------------------------------------------------------------------------------------
  // Activation and rollback together

  /** After an activation that moved the pointer, with the system files unchanged, rollback passes
      its layout check, is accepted, and returns to the slot that was running before. */
  lemma RollbackStaysOpen(p: Precedence, l: Layout, d: Disk, d': Disk, version: string)
    requires Lawful(p) && Sound(p, d) && Sound(p, d') && SameGround(d, d') && Succeeds(p, Activate(version), d, d')
    requires Compatible(l, Selected(d)) && Selected(d) != "" && Selected(d) != version
    ensures ReadState(p, d').value.previous == Selected(d) && Compatible(l, ReadState(p, d').value.previous)
    ensures RollbackTarget(p, d').Ok? && RollbackTarget(p, d').value.current == Selected(d)
  {
    SelectedIsCurrent(p, d);
    SlotRuns.RollbackUndoesActivation(p, d, d', version);
  }

  /** Activating the version that is already current moves no pointer, so a failed restart rolls
      back past it, to the slot before: a different one, whose layout was never checked. */
  lemma ReactivationRollsPast(p: Precedence, d: Disk, d': Disk)
    requires Lawful(p) && Sound(p, d) && Sound(p, d') && SameGround(d, d')
    requires Succeeds(p, Activate(Selected(d)), d, d') && RollbackTarget(p, d').Ok?
    ensures RollbackTarget(p, d').value.current == ReadState(p, d).value.previous != Selected(d)
  {
    SelectedIsCurrent(p, d);
  }

  // ---------------------------------------------------------------------------------------
  // The full installer's trust decision

  /** A distribution tree: a development tree without a key, or a signed release. */
  datatype Tree = Unsigned(hasManifest: bool) | Signed(version: string, valid: bool)

  /** `inspect_installation`: the minimum version to record, given the VERSION file of an
      installation that predates recorded floors. */
  function Inspect(p: Precedence, s: SlotState, tree: Tree, versionFile: Json.Option<string>): Result<string> {
    match tree
    case Unsigned(hasManifest) =>
      if hasManifest then Err
      else Ok(if UpgradeFloor(p, s).Known? then UpgradeFloor(p, s).version else s.minimum)
    case Signed(version, valid) =>
      if !valid || version == "" then Err
      else if UpgradeFloor(p, s).Known? then (if NotBelow(p, version, FloorOf(p, s)) then Ok(version) else Err)
      else if versionFile.None? || !p.release(versionFile.value) then Err
      else if NotBelow(p, version, versionFile.value) then Ok(version) else Err
  }

  /** A version is only compared, and so only has to parse, when there is a floor. */
  predicate NotBelow(p: Precedence, version: string, floor: string) {
    floor == "" || (p.release(version) && !p.less(version, floor))
  }

  /** The higher of the current version and the recorded minimum; a baseline's version does not count. */
  function HigherInstalled(p: Precedence, s: SlotState): string {
    if s.current != "" && !SlotRuns.Baseline(s.current) && (s.minimum == "" || p.less(s.minimum, s.current))
    then s.current else s.minimum
  }

  /** A distribution is installed over any slots if and only if: without a key, it has no manifest either, and
      then it keeps the higher of what is installed; signed, it is valid and names a version that is not below
      that, or not below the VERSION file of a baseline without a minimum. */
  lemma InspectionExact(p: Precedence, d: Disk, tree: Tree, versionFile: Json.Option<string>, minimum: string)
    requires Lawful(p) && Sound(p, d)
    ensures ReadState(p, d).Ok?
    ensures var s := ReadState(p, d).value;
      Inspect(p, s, tree, versionFile) == Ok(minimum) <==>
        match tree
        case Unsigned(hasManifest) => !hasManifest && minimum == HigherInstalled(p, s)
        case Signed(version, valid) =>
          && valid && version == minimum != "" && (SlotRuns.Unversioned(s) ==> versionFile.Some?)
          && var floor := if SlotRuns.Unversioned(s) then versionFile.value else HigherInstalled(p, s);
             && (SlotRuns.Unversioned(s) ==> p.release(floor))
             && (floor != "" ==> p.release(version) && !p.less(version, floor))
  {
    SoundReads(p, d);
    var s := ReadState(p, d).value;
    SlotRuns.BaselineIff(s.current);
    SlotRuns.AboveIff(p, s, "");
    assert FloorOf(p, s) == if SlotRuns.Unversioned(s) then "" else HigherInstalled(p, s);
  }

  /** Whatever the inspection returns keeps the floor, for signed and unsigned trees alike, and
      both installer commands accept it exactly when it is a release version or none. */
  lemma InspectionKeepsFloor(p: Precedence, d: Disk, tree: Tree, versionFile: Json.Option<string>, baseline: string)
    requires Lawful(p) && Sound(p, d) && Inspect(p, ReadState(p, d).value, tree, versionFile).Ok?
    ensures var s := ReadState(p, d).value; var minimum := Inspect(p, s, tree, versionFile).value;
      && FloorAtMost(p, FloorOf(p, s), minimum)
      && (Target(p, d, BeginInstall(minimum)).Ok? <==> OptionalRelease(p, minimum))
      && (Target(p, d, InstallBaseline(baseline, minimum)).Ok? <==> OptionalRelease(p, minimum))
  {
    SoundReads(p, d);
    var s := ReadState(p, d).value;
    SlotRuns.FloorIsRelease(p, s);
    SlotRuns.BaseReleases(p, d);
    assert !p.less(FloorOf(p, s), FloorOf(p, s));
  }
}
