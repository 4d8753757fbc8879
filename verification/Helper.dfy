/** The privileged helper: what it activates, its last-good and pending records, and the journal that
    lets a repeated request take effect once. */
module Helper {
  import opened Json

  datatype Config = Config(revision: nat, stamp: string, lan: string, shaped: bool, rest: string)

  /** APPLY_ALL with or without keeping the last-good record, COMMIT_CONFIRMED and RECONCILE. */
  datatype Operation = Provisional | Final | CommitConfirmed | Reconcile

  datatype Request = Request(id: string, operation: Operation, config: Config)

  /** Validated answers; `Unknown` is none at all. */
  datatype Outcome = Verified | Refused | RolledBack | Broken | Unknown

  /** The last transaction: begun, or finished with its answer. */
  datatype Journal = Empty | Started(request: Request) | Finished(request: Request, outcome: Outcome)

  /** When the helper dies, if at all: with the intent written, with the request executed, or with the answer recorded
      and not yet sent. */
  datatype Death = Never | Early | Midway | Late

  /** What goes wrong with one delivery: a helper that is down stays down; the journal cannot be read; the
      intent or the answer cannot be written, although it may reach the disk; the helper dies. */
  datatype Faults = Faults(
    stays: bool, unreadable: bool, unwritten: bool, unpersisted: bool, reached: bool, dies: Death)

  const NO_FAULTS := Faults(false, false, false, false, false, Never)

  /** How an execution goes: whether the records it starts from can be read, the request is valid, the candidate is
      activated and verified, its record is saved and the pending record cleared, and whether a restoration
      succeeds; `left` is what is active when it does not. */
  datatype Course = Course(
    readable: bool, valid: bool, activates: bool, verifies: bool, saves: bool, clears: bool, restores: bool,
    left: Option<Config>)

  const SMOOTH := Course(true, true, true, true, true, true, true, None)

  /** The circumstances: how executions go and what goes wrong with each delivery, None when anything may, including
      the loss of a message; and whether the store accepts. */
  class Conditions {
    var course: Option<Course>
    var faults: Option<Faults>
    var stores: Option<bool>

    constructor (course: Option<Course>, faults: Option<Faults>, stores: Option<bool>)
      ensures this.course == course && this.faults == faults && this.stores == stores
    {
      this.course, this.faults, this.stores := course, faults, stores;
    }
  }

  predicate Holds(j: Journal, r: Request) {
    !j.Empty? && j.request == r
  }

  predicate HasId(j: Journal, id: string) {
    !j.Empty? && j.request.id == id
  }

  /** A transaction of another id whose effect nobody knows. */
  predicate Unresolved(j: Journal, id: string) {
    !j.Empty? && j.request.id != id && (j.Started? || j.outcome == Broken)
  }

  /** `replay_transaction_response`: the answer a record gives, if any. */
  function Replay(j: Journal, r: Request): Option<Outcome> {
    if j.Empty? then None
    else if j.request.id != r.id then
      if Unresolved(j, r.id) && r.operation != Reconcile then Some(Broken) else None
    else if j.request != r then Some(Refused)
    else if j.Started? then Some(Broken)
    else Some(j.outcome)
  }

  /** The pending record that a verified request leaves. */
  function Awaited(r: Request): Option<Config> {
    if r.operation == Provisional then Some(r.config) else None
  }

  // ---------------------------------------------------------------------------------------
  // What the helper is, at one moment

  /** `runtime` is what is really active, None a mixture; `awaiting` is the provisional configuration that a commit
      must name; `memory` and `disk` are the last transaction as the serving process and the disk have it.
      `executions` counts requests that were executed, `boots` the starts of the helper. */
  datatype View = View(
    down: bool, runtime: Option<Config>, lastGood: Config, awaiting: Option<Config>, memory: Journal, disk: Journal,
    executions: nat, boots: nat)
  {
    /** What a verified answer should mean: the configuration is active and recorded. */
    predicate Settled(r: Request) {
      runtime == Some(r.config) && (r.operation != Provisional ==> lastGood == r.config) && awaiting == Awaited(r)
    }

    /** Back on the last-good configuration with nothing pending, or not serving. */
    predicate Fallen() {
      down || (runtime == Some(lastGood) && awaiting == None)
    }

    predicate True(j: Journal) {
      j.Finished? ==>
        && j.outcome != Unknown && (j.outcome == Verified ==> Settled(j.request))
        && (j.outcome == RolledBack && j.request.operation == Provisional ==> runtime == Some(lastGood))
    }

    /** What the serving process remembers is true. Without a memory the helper has fallen back since it last
        executed anything, and the record on disk is true of the last-good configuration only. */
    predicate Truthful() {
      && (memory.Empty? ==> Fallen()) && (down ==> memory.Empty?) && True(memory)
      && (disk.Finished? ==>
            && disk.outcome != Unknown
            && (disk.outcome == Verified && disk.request.operation != Provisional ==> lastGood == disk.request.config)
            && (!memory.Empty? ==> disk.request == memory.request && True(disk)))
    }

    /** The answer that the records give. */
    function Answer(r: Request): Option<Outcome> {
      if Replay(memory, r).Some? then Replay(memory, r) else Replay(disk, r)
    }

    /** What a verified answer means: the request is settled, unless it was a provisional apply of an earlier
        process; then the helper has fallen back. */
    predicate Described(r: Request) {
      (Settled(r) <==> r.operation != Provisional || !memory.Empty?) && (memory.Empty? ==> Fallen())
    }

    /** A request that is not executed whatever can be read. */
    predicate OnRecord(r: Request) {
      Replay(memory, r).Some? || (Replay(disk, r).Some? && r.operation != Reconcile)
    }

    /** An id that no record holds. */
    predicate NewId(id: string) {
      !HasId(memory, id) && !HasId(disk, id)
    }

    /** Everything but a reconciliation is blocked under this id. */
    predicate Blocked(id: string) {
      Unresolved(memory, id) || (!HasId(memory, id) && Unresolved(disk, id))
    }

    /** And remains so when the helper restarts. */
    predicate Stuck(id: string) {
      !HasId(memory, id) && Unresolved(disk, id)
    }

    ghost predicate BlocksOthers(id: string) {
      forall other | other != id :: Blocked(other)
    }

    /** A request whose execution succeeds if every step of it does. */
    predicate Feasible(r: Request) {
      r.operation == CommitConfirmed ==> !down && awaiting == Some(r.config) && runtime == Some(r.config)
    }

    /** When a request is executed and not answered from a record or refused. */
    predicate Executed(r: Request, f: Faults) {
      && !(down && f.stays) && Replay(memory, r).None?
      && (if f.unreadable then r.operation == Reconcile else Replay(disk, r).None?)
      && !f.unwritten && !f.dies.Early?
    }

    /** The last transaction, everywhere, is a verified one of this id. */
    predicate Records(id: string) {
      memory == disk && memory.Finished? && memory.outcome == Verified && memory.request.id == id
    }

    /** As it is once it serves. */
    function Up(): View {
      if down then this.(down := false, runtime := Some(lastGood), awaiting := None) else this
    }

    predicate SameState(v: View) {
      runtime == v.runtime && lastGood == v.lastGood && awaiting == v.awaiting
    }
  }

  /** Nothing was executed: the state is what it was or, after a start, the last-good configuration. */
  predicate Kept(a: View, b: View) {
    && b.lastGood == a.lastGood && a.boots <= b.boots
    && if b.boots == a.boots then b.SameState(a) && (a.down ==> b.down) else b.Fallen()
  }

  /** What an executed request leaves: its record, and a kept state if the record says that it was refused. */
  predicate Performed(a: View, b: View, r: Request) {
    && Holds(b.disk, r) && (b.memory.Empty? || b.memory == b.disk || b.memory == Finished(r, Broken))
    && (b.disk == Finished(r, Refused) ==> Kept(a, b))
  }

  predicate Unperformed(a: View, b: View, r: Request) {
    Kept(a, b) && (b.memory == a.memory || b.memory.Empty?) && (b.disk == a.disk || b.disk == Started(r))
  }

  predicate LastGoodMoves(a: View, b: View, r: Request) {
    b.lastGood == a.lastGood || (r.operation != Provisional && b.lastGood == r.config)
  }

  /** What an answer means for the state it is given in. */
  predicate Meaning(a: View, b: View, r: Request, o: Outcome) {
    && b.Truthful() && (o != Unknown ==> !b.down)
    && (o == Verified ==> b.Answer(r) == Some(Verified) && b.Described(r))
    && (o == RolledBack && r.operation == Provisional ==> b.runtime == Some(b.lastGood))
    && (o == Refused ==> Kept(a, b))
  }

  /** What one delivery of a request does. */
  predicate Effect(a: View, b: View, r: Request, f: Faults) {
    && LastGoodMoves(a, b, r) && b.executions == a.executions + (if a.Executed(r, f) then 1 else 0)
    && if a.Executed(r, f) then Performed(a, b, r) && (!f.dies.Never? ==> b.down && b.memory.Empty?)
       else Unperformed(a, b, r)
  }

  /** A request on record is answered from it, or as broken when only the disk has it and cannot be read. */
  predicate FromRecord(a: View, b: View, r: Request, o: Outcome) {
    a.OnRecord(r) ==>
      && b.disk == a.disk
      && (o == a.Answer(r).value || o == Unknown || (o == Broken && Replay(a.memory, r).None?))
  }

  /** One delivery of a request that reaches the helper. An execution that is answered as broken, or is cut short,
      blocks every other request. */
  ghost predicate Delivered(a: View, b: View, r: Request, f: Faults, o: Outcome) {
    && Meaning(a, b, r, o) && Effect(a, b, r, f) && FromRecord(a, b, r, o)
    && (a.Executed(r, f) && (o == Broken || f.dies.Midway?) ==> b.BlocksOthers(r.id))
  }

  /** The candidate runs and its record is kept. */
  predicate Lands(k: Course) {
    k.activates && k.verifies && k.saves
  }

  /** `apply_all`: a candidate that does not land is rolled back. */
  function Applying(k: Course, provisional: bool): Outcome {
    if !k.readable then Broken
    else if !k.valid then Refused
    else if !Lands(k) then (if k.restores then RolledBack else Broken)
    else if provisional || k.clears then Verified
    else Broken
  }

  /** `commit_confirmed_apply`. */
  function Committing(v: View, k: Course, c: Config): Outcome {
    if !k.readable then Broken
    else if v.awaiting != Some(c) then Refused
    else if k.verifies && v.runtime == Some(c) && k.saves && k.clears then Verified
    else Broken
  }

  function OutcomeOf(v: View, r: Request, k: Course): Outcome {
    if r.operation == CommitConfirmed then Committing(v, k, r.config) else Applying(k, r.operation == Provisional)
  }

  /** What is active after an execution. */
  function RuntimeOf(v: View, r: Request, k: Course): Option<Config> {
    if r.operation == CommitConfirmed || !k.readable || !k.valid then v.runtime
    else if Lands(k) then Some(r.config)
    else if k.restores then Some(v.lastGood)
    else k.left
  }

  /** When the candidate fails and the restoration succeeds, the last-good configuration runs again; nobody knows
      what runs only if a record was unreadable, the restoration failed, or the pending record could not be
      cleared. */
  lemma FailedCandidateRestored(v: View, r: Request, k: Course)
    requires r.operation != CommitConfirmed
    ensures k.readable && k.valid && !(k.activates && k.verifies) && k.restores ==>
      OutcomeOf(v, r, k) == RolledBack && RuntimeOf(v, r, k) == Some(v.lastGood)
    ensures OutcomeOf(v, r, k) == Broken ==>
      !k.readable || !k.restores || (k.activates && k.verifies && k.saves && !k.clears)
    ensures OutcomeOf(v, r, k) == Verified <==>
      && k.readable && k.valid && k.activates && k.verifies && k.saves
      && (r.operation == Provisional || k.clears)
    ensures OutcomeOf(v, r, k) == Verified ==> RuntimeOf(v, r, k) == Some(r.config)
    ensures OutcomeOf(v, r, k) == Refused <==> k.readable && !k.valid
    ensures OutcomeOf(v, r, k) == Refused ==> RuntimeOf(v, r, k) == v.runtime
  {
  }

  /** What an execution leaves, by what goes wrong and how it goes. */
  predicate Ends(a: View, b: View, r: Request, f: Faults, k: Course) {
    && b.runtime == RuntimeOf(a.Up(), r, k)
    && (f.dies.Midway? || (f.unpersisted && !f.reached) ==> b.disk == Started(r))
    && (!f.dies.Midway? && !f.unpersisted ==> b.disk == Finished(r, OutcomeOf(a.Up(), r, k)))
  }

  /** And what the process that executed it remembers and answers. */
  predicate Remembers(a: View, b: View, r: Request, f: Faults, o: Outcome, k: Course) {
    b.memory == Finished(r, o) && o == if f.unpersisted then Broken else OutcomeOf(a.Up(), r, k)
  }

  /** What the serving process does with a request before it answers; Unknown when it dies on the way. */
  predicate Served(a: View, b: View, r: Request, f: Faults, o: Outcome, k: Course) {
    && Meaning(a, b, r, o) && LastGoodMoves(a, b, r) && FromRecord(a, b, r, o) && b.boots == a.boots
    && b.executions == a.executions + (if a.Executed(r, f) then 1 else 0)
    && (o == Unknown ==> b.memory == b.disk == Started(r) && (f.dies.Early? || f.dies.Midway?))
    && (!a.Executed(r, f) ==>
          b.SameState(a) && (b.memory == a.memory || o == Unknown) && (b.disk == a.disk || b.disk == Started(r)))
    && (a.Executed(r, f) ==>
          && Performed(a, b, r) && Ends(a, b, r, f, k)
          && if f.dies.Midway? then o == Unknown else Remembers(a, b, r, f, o, k))
    && (!f.unreadable && a.Answer(r).Some? ==> o == a.Answer(r).value)
  }

  /** One delivery and how it ends, by what goes wrong and how the steps of an execution go. */
  ghost predicate Handled(a: View, b: View, r: Request, f: Faults, o: Outcome, k: Course) {
    && Delivered(a, b, r, f, o)
    && (a.Executed(r, f) ==> Ends(a, b, r, f, k) && (f.dies.Never? ==> Remembers(a, b, r, f, o, k)))
    && (f == NO_FAULTS && a.Answer(r).Some? ==> o == a.Answer(r).value)
    && (f.dies.Never? && !f.stays ==> o != Unknown)
  }

  function Dead(v: View): View {
    v.(down := true, memory := Empty)
  }

  lemma DiedServing(a: View, b: View, r: Request, f: Faults, o: Outcome, k: Course)
    requires !a.down && !b.down && Served(a, b, r, f, o, k) && (f.dies.Late? || o == Unknown)
    ensures Handled(a, Dead(b), r, f, Unknown, k)
  {
  }

  lemma LivedServing(a: View, b: View, r: Request, f: Faults, o: Outcome, k: Course)
    requires !a.down && !b.down && Served(a, b, r, f, o, k) && !f.dies.Late? && o != Unknown
    ensures Handled(a, b, r, f, o, k)
  {
  }

  /** A helper that has started, or tried to. */
  predicate Booted(a: View, b: View, fails: bool) {
    && a.Truthful() && b.Truthful() && b.Fallen() && b.memory.Empty? && b.down == fails && b.boots == a.boots + 1
    && b.lastGood == a.lastGood && b.disk == a.disk && b.executions == a.executions
  }

  lemma StayedDown(a: View, b: View, r: Request, f: Faults, k: Course)
    requires a.down && b.down && f.stays && Booted(a, b, true)
    ensures Handled(a, b, r, f, Unknown, k)
  {
  }

  lemma StartedFirst(a: View, b: View, c: View, r: Request, f: Faults, o: Outcome, k: Course)
    requires a.down && !f.stays && Booted(a, b, false) && Handled(b, c, r, f, o, k)
    ensures Handled(a, c, r, f, o, k)
  {
  }

  class Helper {
    const conditions: Conditions
    var down: bool
    var runtime: Option<Config>
    var lastGood: Config
    var awaiting: Option<Config>
    var memory: Journal
    var disk: Journal
    ghost var executions: nat
    ghost var boots: nat
    /** Times that a request was sent to the helper. */
    ghost var attempts: nat

    constructor (lastGood: Config, conditions: Conditions)
      ensures Now() == View(true, None, lastGood, None, Empty, Empty, 0, 0) && this.conditions == conditions
    {
      this.lastGood, this.conditions, down := lastGood, conditions, true;
      runtime, awaiting, memory, disk, executions, boots, attempts := None, None, Empty, Empty, 0, 0, 0;
    }

    ghost function Now(): View
      reads this
    {
      View(down, runtime, lastGood, awaiting, memory, disk, executions, boots)
    }

    /** Every execution goes smoothly and nothing goes wrong with a delivery. */
    ghost predicate Cooperative()
      reads conditions
    {
      conditions.course == Some(SMOOTH) && conditions.faults == Some(NO_FAULTS)
    }

    // -------------------------------------------------------------------------------------
    // Primitive steps

    /** Installing, activating and verifying a configuration can fail half-way. */
    method Activate(c: Config, k: Course) returns (ok: bool)
      modifies this`runtime
      ensures ok == (k.activates && k.verifies) && (ok ==> runtime == Some(c))
    {
      runtime := *;
      if k.activates && k.verifies { runtime := Some(c); }
      return k.activates && k.verifies;
    }

    /** A record that cannot be saved may reach the disk all the same. */
    method SaveLastGood(c: Config, k: Course) returns (ok: bool)
      modifies this`lastGood
      ensures ok == k.saves && (lastGood == c || (!ok && lastGood == old(lastGood)))
    {
      var reached: bool := *;
      if k.saves || reached { lastGood := c; }
      return k.saves;
    }

    method SaveAwaiting(c: Option<Config>, saves: bool) returns (ok: bool)
      modifies this`awaiting
      ensures ok == saves && (awaiting == c || (!ok && awaiting == old(awaiting)))
    {
      var reached: bool := *;
      if saves || reached { awaiting := c; }
      return saves;
    }

    // -------------------------------------------------------------------------------------
    // Operations

    /** `rollback`: succeeds only with the previous configuration active again. */
    method RollBack(previous: Config, k: Course) returns (o: Outcome)
      modifies this`runtime
      ensures o == (if k.restores then RolledBack else Broken)
      ensures runtime == if k.restores then Some(previous) else k.left
    {
      runtime := if k.restores then Some(previous) else k.left;
      return if k.restores then RolledBack else Broken;
    }

    /** `apply_all`: validate, activate, verify, record; any later failure restores the last-good
        configuration or says that nobody knows. */
    method ApplyAll(c: Config, provisional: bool, k: Course) returns (o: Outcome)
      modifies this`runtime, this`lastGood, this`awaiting
      ensures o == Applying(k, provisional)
      ensures runtime == (if !k.readable || !k.valid then old(runtime) else if Lands(k) then Some(c)
                          else if k.restores then Some(old(lastGood)) else k.left)
      ensures o == Verified ==> (!provisional ==> lastGood == c) && awaiting == if provisional then Some(c) else None
      ensures o == Refused ==> lastGood == old(lastGood) && awaiting == old(awaiting)
      ensures lastGood == old(lastGood) || (!provisional && lastGood == c)
    {
      if !k.readable { return Broken; }
      if !k.valid { return Refused; }
      var previous := lastGood;
      var active := Activate(c, k);
      if !active {
        o := RollBack(previous, k);
        return;
      }
      if provisional {
        var recorded := SaveAwaiting(Some(c), k.saves);
        if !recorded {
          o := RollBack(previous, k);
          return;
        }
      } else {
        var adopted := SaveLastGood(c, k);
        if !adopted {
          o := RollBack(previous, k);
          return;
        }
        var cleared := SaveAwaiting(None, k.clears);
        if !cleared { return Broken; }
      }
      return Verified;
    }

    /** `commit_confirmed_apply`: only the awaited configuration, and only while it is active. */
    method CommitConfirmedApply(c: Config, k: Course) returns (o: Outcome)
      modifies this`lastGood, this`awaiting
      ensures o == Committing(old(Now()), k, c)
      ensures o == Verified ==> lastGood == c && awaiting == None
      ensures o == Refused ==> lastGood == old(lastGood) && awaiting == old(awaiting)
      ensures lastGood == old(lastGood) || lastGood == c
    {
      if !k.readable { return Broken; }
      if awaiting != Some(c) { return Refused; }
      if !k.verifies || runtime != Some(c) { return Broken; }
      var adopted := SaveLastGood(c, k);
      if !adopted { return Broken; }
      var cleared := SaveAwaiting(None, k.clears);
      if !cleared { return Broken; }
      return Verified;
    }

    /** `reconcile_startup`: a new process restores the last-good configuration and drops the pending record, or
        does not serve; it remembers nothing. */
    method Boot(fails: bool)
      requires Now().Truthful()
      modifies this`down, this`runtime, this`awaiting, this`memory, this`boots
      ensures Booted(old(Now()), Now(), fails)
      ensures !fails ==> runtime == Some(lastGood) && awaiting == None
    {
      down, memory, boots := fails, Empty, boots + 1;
      runtime := *;
      var cleared: bool := *;
      if cleared || !fails { awaiting := None; }
      if !fails { runtime := Some(lastGood); }
    }

    // -------------------------------------------------------------------------------------
    // Requests

    method Execute(r: Request, k: Course) returns (o: Outcome)
      modifies this`runtime, this`lastGood, this`awaiting, this`executions
      ensures executions == old(executions) + 1
      ensures o == OutcomeOf(old(Now()), r, k) && runtime == RuntimeOf(old(Now()), r, k)
      ensures LastGoodMoves(old(Now()), Now(), r)
      ensures o == Verified ==> Now().Settled(r)
      ensures o == Refused ==> Now().SameState(old(Now()))
    {
      executions := executions + 1;
      if r.operation == CommitConfirmed {
        o := CommitConfirmedApply(r.config, k);
      } else {
        o := ApplyAll(r.config, r.operation == Provisional, k);
      }
    }

    /** `process_request` and the sending of its answer; Unknown when there is none. A verified answer describes
        the state the helper is in, unless it is the recorded answer of a provisional apply that an earlier
        process executed: then the last-good configuration runs. A request on record is not executed again,
        except a reconciliation when the record can neither be read nor remembered. */
    method Handle(r: Request, f: Faults, k: Course) returns (o: Outcome)
      requires Now().Truthful()
      modifies this
      ensures attempts == old(attempts)
      ensures Handled(old(Now()), Now(), r, f, o, k)
    {
      ghost var a := Now();
      if down {
        Boot(f.stays);
        if down {
          StayedDown(a, Now(), r, f, k);
          return Unknown;
        }
      }
      ghost var b := Now();
      o := Serve(r, f, k);
      ghost var c := Now();
      if f.dies.Late? || o == Unknown {
        DiedServing(b, c, r, f, o, k);
        down, memory := true, Empty;
        o := Unknown;
      } else {
        LivedServing(b, c, r, f, o, k);
      }
      if a.down { StartedFirst(a, b, Now(), r, f, o, k); }
    }

    /** The serving process: answer from the record, or carry out. */
    method Serve(r: Request, f: Faults, k: Course) returns (o: Outcome)
      requires Now().Truthful() && !down
      modifies this`runtime, this`lastGood, this`awaiting, this`executions, this`memory, this`disk
      ensures Served(old(Now()), Now(), r, f, o, k)
    {
      var answer := Replay(memory, r);
      if answer.None? {
        answer := if !f.unreadable then Replay(disk, r) else if r.operation != Reconcile then Some(Broken) else None;
      }
      if answer.Some? { return answer.value; }
      if f.unwritten {
        if f.reached { disk := Started(r); }
        return Refused;
      }
      o := Carry(r, f, k);
    }

    /** The intent, the execution and the record of its answer; Unknown when the helper dies in between. */
    method Carry(r: Request, f: Faults, k: Course) returns (o: Outcome)
      requires Now().Truthful() && !down && !f.unwritten
      modifies this`runtime, this`lastGood, this`awaiting, this`executions, this`memory, this`disk
      ensures Meaning(old(Now()), Now(), r, o) && LastGoodMoves(old(Now()), Now(), r)
      ensures executions == old(executions) + if f.dies.Early? then 0 else 1
      ensures o == Unknown <==> f.dies.Early? || f.dies.Midway?
      ensures o == Unknown ==> memory == disk == Started(r)
      ensures f.dies.Early? ==> Now().SameState(old(Now()))
      ensures !f.dies.Early? ==>
        && Performed(old(Now()), Now(), r) && Ends(old(Now()), Now(), r, f, k)
        && (!f.dies.Midway? ==> Remembers(old(Now()), Now(), r, f, o, k))
    {
      memory, disk := Started(r), Started(r);
      if f.dies.Early? { return Unknown; }
      o := Execute(r, k);
      if f.dies.Midway? { return Unknown; }
      if !f.unpersisted || f.reached { disk := Finished(r, o); }
      if f.unpersisted { o := Broken; }
      memory := Finished(r, o);
    }
  }

  /** Two deliveries of one request, whatever goes wrong: it is executed a second time if and only if it is a
      reconciliation, the helper died after executing it and the restarted helper cannot read its record. */
  method DeliverTwice(helper: Helper, r: Request, f: Faults, g: Faults, k: Course, l: Course)
    requires helper.Now().Truthful()
    modifies helper
    ensures helper.Now().Truthful()
    ensures helper.executions == old(helper.executions) + 2 <==>
      && old(helper.Now()).Executed(r, f) && r.operation == Reconcile && !f.dies.Never?
      && !g.stays && g.unreadable && !g.unwritten && !g.dies.Early?
  {
    var _ := helper.Handle(r, f, k);
    var _ := helper.Handle(r, g, l);
  }

  /** A helper that dies between recording a verified answer and sending it, and restarts: the repeated request
      is answered as verified, and what it asked for runs and is recorded if and only if it was no provisional
      apply. Otherwise the last-good configuration runs and nothing awaits confirmation. */
  method AnsweredAfterDeath(helper: Helper, r: Request) returns (o: Outcome)
    requires helper.Now().Truthful() && helper.Now().Answer(r).None? && helper.Now().Feasible(r)
    modifies helper
    ensures o == Verified && (helper.Now().Settled(r) <==> r.operation != Provisional)
    ensures r.operation == Provisional ==>
      helper.runtime == Some(helper.lastGood) && helper.lastGood == old(helper.lastGood) && helper.awaiting == None
  {
    var _ := helper.Handle(r, NO_FAULTS.(dies := Late), SMOOTH);
    o := helper.Handle(r, NO_FAULTS, SMOOTH);
  }

  // ---------------------------------------------------------------------------------------
  // Asking the helper

  const ATTEMPTS := 2

  /** The answer cannot be recorded, and nothing else goes wrong. */
  const UNRECORDED := NO_FAULTS.(unpersisted := true)

  /** What has happened after `n` attempts without an answer. */
  predicate Sent(a: View, b: View, r: Request, n: nat) {
    && b.Truthful() && LastGoodMoves(a, b, r)
    && a.executions <= b.executions <= a.executions + (if r.operation == Reconcile || n == 0 then n else 1)
    && (b.executions == a.executions ==> Unperformed(a, b, r))
    && (b.executions > a.executions ==> Again(a, b, r))
    && (a.Stuck(r.id) && r.operation != Reconcile ==> b.executions == a.executions && b.disk == a.disk)
  }

  /** The record of an executed request; that of a reconciliation executed twice says nothing about a refusal. */
  predicate Again(a: View, b: View, r: Request) {
    && Holds(b.disk, r) && (b.memory.Empty? || b.memory == b.disk || b.memory == Finished(r, Broken))
    && (r.operation != Reconcile && b.disk == Finished(r, Refused) ==> Kept(a, b))
  }

  /** What an answer means to the one who asked. A request is executed at most once, a reconciliation at most once
      per attempt; a refusal of anything else changed nothing; a broken answer given by the process that
      executed the request blocks every other id; an unresolved record lets nothing through. */
  ghost predicate Asked(a: View, b: View, r: Request, o: Outcome) {
    && b.Truthful() && (o != Unknown ==> !b.down) && LastGoodMoves(a, b, r)
    && (o == Verified ==> b.Answer(r) == Some(Verified) && b.Described(r))
    && (o == RolledBack && r.operation == Provisional ==> b.runtime == Some(b.lastGood))
    && (o == Refused && r.operation != Reconcile ==> Kept(a, b))
    && a.executions <= b.executions <= a.executions + (if r.operation == Reconcile then 2 else 1)
    && (b.executions == a.executions ==> Kept(a, b))
    && (b.executions > a.executions ==> Holds(b.disk, r) && (b.memory.Empty? || Holds(b.memory, r)))
    && (o == Verified && !Holds(a.memory, r) && !Holds(a.disk, r) ==> b.executions > a.executions)
    && (o == Broken && b.executions > a.executions && !b.memory.Empty? ==> b.BlocksOthers(r.id))
    && (a.Stuck(r.id) && r.operation != Reconcile ==> Untouched(a, b, o))
  }

  predicate Untouched(a: View, b: View, o: Outcome) {
    && (o == Broken || o == Unknown) && b.executions == a.executions && b.disk == a.disk
    && (b.memory == a.memory || b.memory.Empty?)
  }

  lemma SentAgain(a: View, b: View, c: View, r: Request, f: Faults, o: Outcome, n: nat)
    requires Sent(a, b, r, n) && Delivered(b, c, r, f, o)
    ensures Sent(a, c, r, n + 1)
  {
  }

  lemma AnswerMeans(a: View, b: View, c: View, r: Request, f: Faults, o: Outcome, n: nat)
    requires n < ATTEMPTS && Sent(a, b, r, n) && Delivered(b, c, r, f, o)
    ensures Asked(a, c, r, o)
  {
    SentAgain(a, b, c, r, f, o, n);
  }

  /** What becomes of a request under given circumstances. When nothing goes wrong with its delivery, a request that
      nothing blocks is executed and answered as its course says; if that is smooth, a new one is verified if and
      only if nothing blocks it. One whose answer cannot be recorded is answered as broken. */
  predicate Certain(a: View, b: View, r: Request, o: Outcome, course: Option<Course>, faults: Option<Faults>) {
    && (course.Some? && faults == Some(NO_FAULTS) && a.Executed(r, NO_FAULTS) ==>
          && o == OutcomeOf(a.Up(), r, course.value) && b.runtime == RuntimeOf(a.Up(), r, course.value)
          && b.memory == b.disk == Finished(r, o))
    && (faults == Some(NO_FAULTS) && a.NewId(r.id) ==>
          (a.Executed(r, NO_FAULTS) <==> !a.Blocked(r.id) || r.operation == Reconcile)
          && (!a.Executed(r, NO_FAULTS) ==>
                o == Broken && b.disk == a.disk && (b.memory == a.memory || b.memory.Empty?)))
    && (faults == Some(UNRECORDED) && a.Executed(r, UNRECORDED) ==>
          o == Broken && b.disk == Started(r) && b.memory == Finished(r, Broken))
    && (faults == Some(NO_FAULTS) || faults == Some(UNRECORDED) ==> o != Unknown)
  }

  /** One delivery, or none when the message is lost; a lost answer is Unknown. */
  method Deliver(helper: Helper, r: Request) returns (o: Outcome, ghost f: Faults, ghost answer: Outcome)
    requires helper.Now().Truthful()
    modifies helper
    ensures helper.attempts == old(helper.attempts) + 1
    ensures o == answer || o == Unknown
    ensures helper.Now() != old(helper.Now()) || o != Unknown ==>
      Delivered(old(helper.Now()), helper.Now(), r, f, answer)
    ensures Certain(old(helper.Now()), helper.Now(), r, o, helper.conditions.course, helper.conditions.faults)
  {
    var lostOnTheWay: bool, lostOnReturn: bool, faults: Faults, k: Course := *, *, *, *;
    if helper.conditions.faults.Some? {
      lostOnTheWay, lostOnReturn, faults := false, false, helper.conditions.faults.value;
    }
    if helper.conditions.course.Some? { k := helper.conditions.course.value; }
    helper.attempts := helper.attempts + 1;
    o, f, answer := Unknown, faults, Unknown;
    if lostOnTheWay { return; }
    o := helper.Handle(r, faults, k);
    answer := o;
    if lostOnReturn { o := Unknown; }
  }

  /** `apply_privileged`: one request, sent again while the answer is missing. */
  method Ask(helper: Helper, r: Request) returns (o: Outcome)
    requires helper.Now().Truthful()
    modifies helper
    ensures Asked(old(helper.Now()), helper.Now(), r, o)
    ensures Certain(old(helper.Now()), helper.Now(), r, o, helper.conditions.course, helper.conditions.faults)
    ensures helper.attempts <= old(helper.attempts) + 2
    ensures o == Unknown ==> helper.attempts == old(helper.attempts) + 2
  {
    o := Unknown;
    ghost var a := helper.Now();
    ghost var faults := helper.conditions.faults;
    for i := 0 to ATTEMPTS
      invariant o == Unknown && Sent(a, helper.Now(), r, i) && (i == 0 ==> helper.Now() == a)
      invariant helper.attempts == old(helper.attempts) + i
      invariant faults == Some(NO_FAULTS) || faults == Some(UNRECORDED) ==> i == 0
    {
      ghost var b := helper.Now();
      ghost var f, answer;
      o, f, answer := Deliver(helper, r);
      if helper.Now() != b || o != Unknown { SentAgain(a, b, helper.Now(), r, f, answer, i); }
      if o != Unknown {
        AnswerMeans(a, b, helper.Now(), r, f, o, i);
        return;
      }
    }
  }
}
