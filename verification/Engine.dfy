/** The configuration transaction engine: canonical configuration, provisional changes, the durable
    store, and recovery through the privileged helper. */
module Engine {
  import opened Json
  import opened Helper

  datatype State = AwaitingConfirmation | Committed | Restored | RecoveryRequired | Rejected

  datatype Pending = Pending(id: string, candidate: Config, previous: Config, attempts: nat, committed: bool)

  /** The request ids are the ones the engine derives for the helper calls of that command. */
  datatype Command =
    | Change(id: string, request: Config, stamp: string, risky: bool)
    | Confirmation(id: string, tunnelUp: bool, call: string)
    | Deadline(id: string, call: string)
    | Recovery(call: string)
    | Measurement(call: string)
    | Respawn(call: string)
    | HelperRestart(fails: bool)

  const MAXIMUM_ROLLBACK_ATTEMPTS := 5
  const MAXIMUM_REVISION := 0x7fff_ffff_ffff_ffff
  /** Revisions that the store keeps. */
  const RETAINED := 100

  /** The request as the engine commits it: one revision on, with the engine's time stamp. */
  function Stamped(request: Config, stamp: string): Config {
    request.(revision := request.revision + 1, stamp := stamp)
  }

  function Newest<T>(s: seq<T>, n: nat): seq<T> {
    if |s| <= n then s else s[|s| - n..]
  }

  /** `next` is one revision after `previous` and was admitted as a change of it. */
  ghost predicate Succeeds(admit: (Config, Config) -> bool, previous: Config, next: Config) {
    next.revision == previous.revision + 1 && Admitted(admit, previous, next)
  }

  /** Admission looked at the request, before the engine stamped it. */
  ghost predicate Admitted(admit: (Config, Config) -> bool, previous: Config, next: Config) {
    exists stamp :: admit(previous, next.(revision := previous.revision, stamp := stamp))
  }

  ghost predicate History(admit: (Config, Config) -> bool, history: seq<Config>) {
    forall i | 0 <= i < |history| - 1 :: Succeeds(admit, history[i], history[i + 1])
  }

  lemma HistoryGrows(admit: (Config, Config) -> bool, history: seq<Config>, next: Config)
    requires History(admit, history) && (history != [] ==> Succeeds(admit, history[|history| - 1], next))
    ensures History(admit, history + [next])
  {
  }

  /** Keeping the newest entries of a grown store keeps the newest entries of the grown history. */
  lemma NewestGrows<T>(history: seq<T>, next: T, n: nat)
    requires n > 0
    ensures Newest(Newest(history, n) + [next], n) == Newest(history + [next], n)
  {
  }

  /** Two entries of a history carry the revisions their positions say. */
  lemma {:induction false} RevisionsCount(admit: (Config, Config) -> bool, history: seq<Config>, i: nat, j: nat)
    requires History(admit, history) && i <= j < |history|
    ensures history[j].revision == history[i].revision + (j - i)
    decreases j
  {
    if i < j {
      RevisionsCount(admit, history, i, j - 1);
      assert Succeeds(admit, history[j - 1], history[j]);
    }
  }

  /** How a change ends when nothing goes wrong with the messages and nothing blocks it: what the helper could not
      apply is taken back or reported; what it applied awaits confirmation if that is required; otherwise it is
      committed if the store accepts it and taken back if not. */
  predicate Decided(state: State, risky: bool, course: Option<Course>, faults: Option<Faults>, stores: Option<bool>) {
    faults == Some(NO_FAULTS) && course.Some? ==>
      match Applying(course.value, true)
      case RolledBack => state.Restored?
      case Refused => state.Rejected?
      case Broken => state.RecoveryRequired?
      case _ =>
        && (risky ==> state.AwaitingConfirmation?)
        && (!risky && course == Some(SMOOTH) && stores == Some(true) ==> state.Committed?)
        && (!risky && course == Some(SMOOTH) && stores == Some(false) ==> state.Restored?)
  }

  /** A command that needs the helper and is no reconciliation, under an id that finds another transaction
      unresolved on disk; or a restart of the helper. */
  predicate Fruitless(v: View, command: Command) {
    match command
    case Change(id, _, _, _) => v.Stuck(id)
    case Confirmation(_, _, call) => v.Stuck(call)
    case Deadline(_, call) => v.Stuck(call)
    case HelperRestart(_) => true
    case _ => false
  }

  /** The helper has executed nothing, and its record on disk is what it was. */
  predicate Idle(a: View, b: View) {
    && Kept(a, b) && b.executions == a.executions && b.disk == a.disk
    && (b.memory == a.memory || b.memory.Empty?)
  }

  lemma IdleStill(a: View, b: View, c: View)
    requires Idle(a, b) && Idle(b, c)
    ensures Idle(a, c)
  {
  }

  class Engine {
    /** Every check on a candidate other than its revision. */
    const admit: (Config, Config) -> bool
    const helper: Helper
    var current: Config
    var pending: Option<Pending>
    var recovery: bool
    /** The durable configurations that are kept, oldest first. */
    var store: seq<Config>
    /** Every configuration that was ever stored. */
    ghost var history: seq<Config>

    ghost predicate Durable()
      reads this`store, this`history
    {
      store != [] && history != [] && store == Newest(history, RETAINED) && History(admit, history)
    }

    function Latest(): Config
      requires store != []
      reads this`store
    {
      store[|store| - 1]
    }

    ghost predicate InSync()
      reads this`current, helper
    {
      helper.runtime == Some(current) && helper.lastGood == current
    }

    ghost predicate PendingValid()
      reads this`current, this`pending, this`recovery, helper
    {
      pending.Some? ==>
        var p := pending.value;
        if p.committed then recovery && current == p.candidate
        else
          && p.previous == current == helper.lastGood && Succeeds(admit, current, p.candidate)
          && p.attempts <= MAXIMUM_ROLLBACK_ATTEMPTS
    }

    /** The helper falls back to the canonical configuration and, if it serves, runs it. */
    ghost predicate Backed()
      reads this`current, helper
    {
      helper.lastGood == current && (helper.down || helper.runtime == Some(current))
    }

    /** Memory and store agree, and whenever changes are admitted the router would fall back to the newest
        stored configuration and runs exactly that, unless the helper is down. */
    ghost predicate Valid()
      reads this, helper
    {
      && helper.Now().Truthful() && Durable() && current == Latest() && PendingValid()
      && (pending.None? && !recovery ==> Backed())
    }

    constructor (initial: Config, helper: Helper, admit: (Config, Config) -> bool)
      ensures Durable() && store == history == [initial] && this.admit == admit && this.helper == helper
      ensures current == initial && pending.None? && !recovery
    {
      this.admit, this.helper := admit, helper;
      current, pending, recovery, store, history := initial, None, false, [initial], [initial];
    }

    /** `save_config`: only the next revision is stored, all but the newest revisions are deleted in
        the same transaction, and a refusal stores nothing. */
    method Save(c: Config) returns (ok: bool)
      requires Durable() && Admitted(admit, Latest(), c)
      modifies this`store, this`history
      ensures Durable()
      ensures ok ==> Latest() == c && c.revision == old(Latest()).revision + 1 && history == old(history) + [c]
      ensures ok ==> store == Newest(old(store) + [c], RETAINED)
      ensures !ok ==> store == old(store) && history == old(history)
      ensures |store| <= 100 && (|history| <= 100 ==> store == history)
      ensures helper.conditions.stores.Some? ==>
        (ok <==> helper.conditions.stores.value && c.revision == old(Latest()).revision + 1)
    {
      ok := *;
      if helper.conditions.stores.Some? { ok := helper.conditions.stores.value; }
      if c.revision != Latest().revision + 1 {
        ok := false;
      } else if ok {
        assert Latest() == history[|history| - 1];
        HistoryGrows(admit, history, c);
        NewestGrows(history, c, RETAINED);
        store := Newest(store + [c], RETAINED);
        history := history + [c];
      }
    }

    // -------------------------------------------------------------------------------------
    // Operations

    /** Whether `process` goes as far as the helper. */
    predicate Admits(request: Config)
      reads this`current, this`pending, this`recovery
    {
      && !recovery && pending.None? && request.revision == current.revision
      && request.revision < 9_223_372_036_854_775_807 && admit(current, request)
    }

    /** A candidate whose provisional apply was answered as verified: it runs and is awaited if the process that
        applied it still serves; otherwise the canonical configuration runs and nothing is awaited. */
    ghost predicate Applied(candidate: Config)
      reads this`current, helper
    {
      if helper.memory.Empty? then helper.runtime == Some(current) && helper.awaiting == None
      else helper.runtime == helper.awaiting == Some(candidate)
    }

    method Process(id: string, request: Config, stamp: string, risky: bool) returns (state: State)
      requires Valid()
      modifies this, helper
      ensures Valid()
      ensures !old(Admits(request)) ==>
        && current == old(current) && store == old(store) && pending == old(pending) && recovery == old(recovery)
        && helper.Now() == old(helper.Now())
        && state == if old(recovery) then RecoveryRequired else Rejected
      ensures state.Committed? ==>
        && old(Admits(request)) && InSync() && current == Stamped(request, stamp)
        && history == old(history) + [current]
      ensures state.AwaitingConfirmation? ==>
        && old(Admits(request)) && store == old(store)
        && Applied(Stamped(request, stamp))
        && pending == Some(Pending(id, Stamped(request, stamp), current, 0, false))
      ensures state.Rejected? || state.Restored? ==>
        store == old(store) && recovery == old(recovery) && pending == old(pending)
      ensures state.RecoveryRequired? ==> recovery
      ensures history == old(history) || (old(Admits(request)) && history == old(history) + [Stamped(request, stamp)])
      ensures old(helper.Now()).Stuck(id) ==> Idle(old(helper.Now()), helper.Now()) && pending == old(pending)
      ensures (state.AwaitingConfirmation? ==> risky) && (state.Committed? ==> !risky)
      ensures old(Admits(request)) && old(helper.Now()).NewId(id) && !old(helper.Now()).Blocked(id) ==>
        Decided(state, risky, helper.conditions.course, helper.conditions.faults, helper.conditions.stores)
      ensures old(Admits(request)) && old(helper.Now()).NewId(id) && !old(helper.Now()).Blocked(id) ==>
        helper.Cooperative() && risky ==> helper.Now().Records(id)
    {
      if recovery { return RecoveryRequired; }
      if pending.Some? || request.revision != current.revision { return Rejected; }
      if !admit(current, request) || request.revision >= MAXIMUM_REVISION { return Rejected; }
      var candidate := Stamped(request, stamp);
      assert Admitted(admit, current, candidate) by {
        assert candidate.(revision := current.revision, stamp := request.stamp) == request;
      }
      state := ApplyChange(id, candidate, risky);
    }

    /** An admitted change: applied provisionally, then awaiting confirmation or committed. */
    method ApplyChange(id: string, candidate: Config, risky: bool) returns (state: State)
      requires Valid() && pending.None? && !recovery && Succeeds(admit, current, candidate)
      modifies this, helper
      ensures Valid()
      ensures state.Committed? ==> InSync() && current == candidate && history == old(history) + [candidate]
      ensures state.AwaitingConfirmation? ==>
        && store == old(store) && current == old(current) && Applied(candidate)
        && pending == Some(Pending(id, candidate, current, 0, false))
      ensures state.Rejected? || state.Restored? ==> store == old(store) && !recovery && pending.None?
      ensures state.RecoveryRequired? ==> recovery
      ensures history == old(history) || history == old(history) + [candidate]
      ensures old(helper.Now()).Stuck(id) ==> Idle(old(helper.Now()), helper.Now()) && pending.None?
      ensures (state.AwaitingConfirmation? ==> risky) && (state.Committed? ==> !risky)
      ensures old(helper.Now()).NewId(id) && !old(helper.Now()).Blocked(id) ==>
        Decided(state, risky, helper.conditions.course, helper.conditions.faults, helper.conditions.stores)
      ensures old(helper.Now()).NewId(id) && !old(helper.Now()).Blocked(id) && helper.Cooperative() && risky ==>
        helper.Now().Records(id)
    {
      var o := Ask(helper, Request(id, Provisional, candidate));
      match o
      case Unknown =>
        recovery := true;
        state := RecoveryRequired;
      case Broken =>
        recovery := true;
        state := RecoveryRequired;
      case RolledBack => state := Restored;
      case Refused => state := Rejected;
      case Verified =>
        if risky {
          pending := Some(Pending(id, candidate, current, 0, false));
          state := AwaitingConfirmation;
        } else {
          state := CommitActive(id, candidate);
        }
    }

    /** A verified change that needs no confirmation: store it, then let the helper adopt it; a store
        that refuses brings the previous configuration back. */
    method CommitActive(id: string, candidate: Config) returns (state: State)
      requires helper.Now().Truthful() && Durable() && current == Latest() == helper.lastGood
      requires pending.None? && !recovery && Succeeds(admit, current, candidate)
      modifies this`current, this`store, this`history, this`recovery, helper
      ensures Valid()
      ensures state.Committed? || state.Restored? || state.RecoveryRequired?
      ensures state.Committed? ==> InSync() && current == candidate && history == old(history) + [candidate]
      ensures state.Restored? ==> store == old(store) && !recovery
      ensures state.RecoveryRequired? ==> recovery
      ensures history == old(history) || history == old(history) + [candidate]
      ensures helper.Cooperative() && helper.conditions.stores == Some(true) && old(helper.Now()).Records(id) ==>
        !old(helper.down) && old(helper.awaiting) == old(helper.runtime) == Some(candidate) ==> state.Committed?
      ensures helper.Cooperative() && helper.conditions.stores == Some(false) && old(helper.Now()).Records(id) ==>
        state.Restored?
    {
      var saved := Save(candidate);
      if !saved {
        var back := Settles(id, id + "-rollback", Final, current);
        if back { return Restored; }
        recovery := true;
        return RecoveryRequired;
      }
      current := candidate;
      var adopted := Settles(id, id + "-commit-canonical-0", CommitConfirmed, candidate);
      if adopted { return Committed; }
      recovery := true;
      return RecoveryRequired;
    }

    /** A further request of a change whose own request is the helper's last transaction. */
    method Settles(ghost id: string, call: string, operation: Operation, c: Config) returns (ok: bool)
      requires helper.Now().Truthful() && operation != Provisional && |id| < |call|
      modifies helper
      ensures helper.Now().Truthful() && (ok ==> helper.lastGood == c && helper.runtime == Some(c))
      ensures helper.Cooperative() && old(helper.Now()).Records(id) ==>
        old(helper.Now()).Feasible(Request(call, operation, c)) ==> ok
    {
      var o := Ask(helper, Request(call, operation, c));
      return o == Verified;
    }

    /** The id of the reconciliation that ends a confirmed LAN change. */
    function FinalizeId(id: string): string {
      id + "-finalize-lan"
    }

    /** The helper can adopt a candidate under a new id: it runs and is awaited. */
    ghost predicate Adoptable(p: Pending, call: string)
      reads helper, helper.conditions
    {
      && helper.Cooperative() && !helper.down && helper.awaiting == helper.runtime == Some(p.candidate)
      && helper.Now().NewId(call) && call != FinalizeId(p.id) && helper.Now().NewId(FinalizeId(p.id))
    }

    /** `tunnelUp` is the WireGuard client check, made only before the change is canonical. When every step of
        the helper succeeds and the candidate still runs, a confirmation that has stored its candidate
        succeeds if and only if no earlier helper transaction is unresolved. */
    method Confirm(id: string, tunnelUp: bool, call: string) returns (ok: bool)
      requires Valid()
      modifies this, helper
      ensures Valid()
      ensures ok ==>
        && old(pending).Some? && old(pending).value.id == id && current == old(pending).value.candidate
        && pending.None? && !recovery && InSync()
      ensures !ok && (old(pending).None? || old(pending).value.id != id) ==>
        pending == old(pending) && recovery == old(recovery) && current == old(current) && store == old(store)
      ensures history == old(history) ||
        (&& old(pending).Some? && !old(pending).value.committed
         && history == old(history) + [old(pending).value.candidate])
      ensures old(Revocable(id)) && !tunnelUp ==>
        !ok && pending == old(pending) && store == old(store) && helper.Now() == old(helper.Now())
      ensures old(Revocable(id)) && tunnelUp && helper.conditions.stores.Some? ==>
        (history == old(history) + [old(pending).value.candidate] <==> helper.conditions.stores.value)
      ensures old(helper.Now()).Stuck(call) ==>
        && !ok && Idle(old(helper.Now()), helper.Now())
        && pending.Some? == old(pending).Some? && (old(recovery) ==> recovery)
      ensures old(pending).Some? && old(pending).value.id == id && old(Adoptable(pending.value, call)) ==>
        (ok <==> current == old(pending).value.candidate && !old(helper.Now()).Blocked(call))
    {
      if pending.None? || pending.value.id != id { return false; }
      var p := pending.value;
      if !p.committed {
        if !tunnelUp { return false; }
        var saved := Save(p.candidate);
        if !saved { return false; }
        pending := Some(p.(committed := true));
        current := p.candidate;
      }
      ok := Finalize(p, call);
    }

    /** The canonical candidate is acknowledged and, when the LAN moved, reconciled once more. */
    method Finalize(p: Pending, call: string) returns (ok: bool)
      requires helper.Now().Truthful() && Durable() && current == Latest() == p.candidate
      requires pending == Some(p.(committed := true))
      modifies this`pending, this`recovery, helper
      ensures Valid()
      ensures ok ==> pending.None? && !recovery && InSync()
      ensures !ok ==> pending == old(pending) && recovery
      ensures old(helper.Now()).Stuck(call) ==> !ok && Idle(old(helper.Now()), helper.Now())
      ensures old(Adoptable(p, call)) ==> (ok <==> !old(helper.Now()).Blocked(call))
      ensures ok ==> helper.Now().Answer(
        if p.previous.lan == p.candidate.lan then Request(call, CommitConfirmed, p.candidate)
        else Request(FinalizeId(p.id), Reconcile, p.candidate)) == Some(Verified)
    {
      var adopted := Ask(helper, Request(call, CommitConfirmed, p.candidate));
      if adopted != Verified {
        recovery := true;
        return false;
      }
      ok := p.previous.lan == p.candidate.lan;
      if !ok { ok := FinalizeLan(p); }
      if !ok {
        recovery := true;
        return;
      }
      pending, recovery := None, false;
    }

    /** The last reconciliation of a change that moved the LAN. */
    method FinalizeLan(p: Pending) returns (ok: bool)
      requires helper.Now().Truthful()
      modifies helper
      ensures helper.Now().Truthful()
      ensures ok ==> helper.lastGood == p.candidate && helper.runtime == Some(p.candidate)
      ensures ok ==> helper.Now().Answer(Request(FinalizeId(p.id), Reconcile, p.candidate)) == Some(Verified)
      ensures helper.Cooperative() && old(helper.Now()).NewId(FinalizeId(p.id)) ==> ok
    {
      var o := Ask(helper, Request(FinalizeId(p.id), Reconcile, p.candidate));
      return o == Verified;
    }

    /** A change whose deadline can still bring the previous configuration back. */
    predicate Revocable(id: string)
      reads this`pending
    {
      pending.Some? && pending.value.id == id && !pending.value.committed
    }

    /** The confirmation deadline, and its retries. When nothing goes wrong with the helper, an attempt that is
        left restores the previous configuration if and only if nothing blocks it; and an attempt that was
        executed and answered as broken by one process blocks every other id. */
    method Expire(id: string, call: string) returns (ghost answer: Option<Outcome>)
      requires Valid()
      modifies this`pending, this`recovery, helper
      ensures Valid()
      ensures !old(Revocable(id)) ==>
        pending == old(pending) && recovery == old(recovery) && helper.Now() == old(helper.Now())
      ensures old(Revocable(id)) ==>
        var p := old(pending).value;
        || (pending.None? && !recovery && InSync() && !old(helper.Now()).Stuck(call))
        || (pending.None? && recovery && p.attempts == 5)
        || (pending == Some(p.(attempts := p.attempts + 1)) && recovery == old(recovery))
      ensures old(helper.Now()).Stuck(call) ==> Idle(old(helper.Now()), helper.Now())
      ensures helper.Cooperative() && old(helper.Now()).NewId(call) && old(Revocable(id)) ==>
        old(pending).value.attempts < 5 ==>
          (pending.None? <==> !old(helper.Now()).Blocked(call))
      ensures answer == Some(Broken) && helper.executions > old(helper.executions) && !helper.memory.Empty? ==>
        helper.Now().BlocksOthers(call)
      ensures helper.conditions.faults == Some(UNRECORDED) && old(Revocable(id)) ==>
        var (p, r) := (old(pending).value, Request(call, Final, old(pending).value.previous));
        p.attempts < 5 && old(helper.Now()).Executed(r, UNRECORDED) ==>
          && pending == Some(p.(attempts := p.attempts + 1)) && answer == Some(Broken)
          && helper.disk == Started(r) && helper.memory == Finished(r, Broken)
    {
      answer := None;
      if pending.None? || pending.value.id != id || pending.value.committed { return; }
      var p := pending.value.(attempts := pending.value.attempts + 1);
      if p.attempts > MAXIMUM_ROLLBACK_ATTEMPTS {
        pending, recovery := None, true;
        return;
      }
      pending := Some(p);
      var o := Ask(helper, Request(call, Final, p.previous));
      answer := Some(o);
      if o == Verified {
        pending, recovery := None, false;
      }
    }

    /** The scheduled retries, in any number and under any other ids, after an attempt that left the helper's
        record unresolved: none restores the previous configuration, even if nothing goes wrong from then on,
        and after the last attempt recovery is demanded. */
    method Retry(id: string, calls: seq<string>)
      requires Valid() && Revocable(id)
      requires forall i | 0 <= i < |calls| :: helper.Now().Stuck(calls[i])
      modifies this`pending, this`recovery, helper
      ensures Valid() && Idle(old(helper.Now()), helper.Now())
      ensures var n := old(pending).value.attempts + |calls|;
        if n <= 5 then
          pending == Some(old(pending).value.(attempts := n)) && recovery == old(recovery)
        else pending.None? && recovery
    {
      ghost var (n, a) := (pending.value.attempts, helper.Now());
      for i := 0 to |calls|
        invariant Valid() && Idle(a, helper.Now())
        invariant if n + i <= MAXIMUM_ROLLBACK_ATTEMPTS then
                    pending == Some(old(pending).value.(attempts := n + i)) && recovery == old(recovery)
                  else pending.None? && recovery
      {
        ghost var b := helper.Now();
        ghost var _ := Expire(id, calls[i]);
        IdleStill(a, b, helper.Now());
      }
    }

    /** A verified reconciliation completes a committed candidate or discards an unconfirmed one. When nothing
        goes wrong with the helper it is verified, whatever is unresolved. */
    method Reconciled(call: string) returns (ok: bool)
      requires helper.Now().Truthful() && Durable() && current == Latest() && PendingValid()
      modifies this`pending, this`recovery, helper
      ensures Valid()
      ensures ok ==> pending.None? && !recovery && InSync()
      ensures !ok ==> recovery && pending == old(pending)
      ensures helper.Cooperative() && old(helper.Now()).NewId(call) ==> ok && helper.Now().Records(call)
      ensures old(helper.executions) <= helper.executions
      ensures helper.executions == old(helper.executions) ==> Kept(old(helper.Now()), helper.Now())
      ensures helper.conditions.course.Some? && helper.conditions.faults == Some(NO_FAULTS) ==>
        var (r, k) := (Request(call, Reconcile, current), helper.conditions.course.value);
        old(helper.Now()).Executed(r, NO_FAULTS) ==>
          && (ok <==> Applying(k, false) == Verified) && !helper.down
          && helper.runtime == RuntimeOf(old(helper.Now()).Up(), r, k)
    {
      var o := Ask(helper, Request(call, Reconcile, current));
      if o != Verified {
        recovery := true;
        return false;
      }
      pending, recovery := None, false;
      return true;
    }

    /** No change, confirmation or deadline gets past an unresolved record, and no restart of the helper helps: it
        executes nothing, and an engine that waits for something keeps waiting or demands recovery. */
    method ServeBlocked(commands: seq<Command>)
      requires Valid() && forall i | 0 <= i < |commands| :: Fruitless(helper.Now(), commands[i])
      modifies this, helper
      ensures Valid() && Idle(old(helper.Now()), helper.Now())
      ensures old(pending.Some? || recovery) ==> pending.Some? || recovery
    {
      ghost var a := helper.Now();
      for i := 0 to |commands|
        invariant Valid() && Idle(a, helper.Now())
        invariant old(pending.Some? || recovery) ==> pending.Some? || recovery
      {
        ghost var b := helper.Now();
        assert Fruitless(a, commands[i]);
        match commands[i] {
          case Change(id, request, stamp, risky) => var _ := Process(id, request, stamp, risky);
          case Confirmation(id, tunnelUp, call) => var _ := Confirm(id, tunnelUp, call);
          case Deadline(id, call) => ghost var _ := Expire(id, call);
          case HelperRestart(fails) => helper.Boot(fails);
          case _ => assert false;
        }
        IdleStill(a, b, helper.Now());
      }
    }

    function BypassId(call: string): string { "speedtest-qos-bypass-" + call }

    function RestoreId(call: string): string { "speedtest-qos-restore-" + call }

    /** A measurement without traffic shaping: the canonical runtime is restored or recovery is demanded. A
        cooperative helper restores it even when the bypass itself was blocked. */
    method Bypass(call: string) returns (ok: bool)
      requires Valid()
      modifies this`recovery, helper
      ensures Valid()
      ensures old(recovery) || old(pending).Some? ==>
        !ok && helper.Now() == old(helper.Now()) && recovery == old(recovery)
      ensures ok ==> Backed() && !recovery && (old(current).shaped ==> InSync())
      ensures !old(recovery) && old(pending).None? && !current.shaped ==> ok && helper.Now() == old(helper.Now())
      ensures !old(recovery) && old(pending).None? && current.shaped && helper.Cooperative() ==>
        old(helper.Now()).NewId(BypassId(call)) && old(helper.Now()).NewId(RestoreId(call)) ==>
          !recovery && InSync() && (ok <==> !old(helper.Now()).Blocked(BypassId(call)))
    {
      if recovery || pending.Some? { return false; }
      if !current.shaped { return true; }
      assert BypassId(call)[14] != RestoreId(call)[14];
      var bypassed := Ask(helper, Request(BypassId(call), Provisional, current.(shaped := false)));
      var restored := Ask(helper, Request(RestoreId(call), Reconcile, current));
      if restored != Verified { recovery := true; }
      return bypassed == Verified && restored == Verified;
    }

    /** A new process takes the newest stored configuration as canonical. */
    method Load()
      requires Durable()
      modifies this`current, this`pending, this`recovery
      ensures current == Latest() && pending.None? && !recovery
    {
      current, pending, recovery := Latest(), None, false;
    }

    /** routerd starts again after stopping at any point: nothing is admitted before the stored
        configuration has been reconciled. */
    method Restart(call: string) returns (ok: bool)
      requires Durable() && helper.Now().Truthful()
      modifies this, helper
      ensures Valid() && store == old(store) && history == old(history) && pending.None?
      ensures ok ==> InSync() && !recovery
      ensures helper.Cooperative() && old(helper.Now()).NewId(call) ==> ok && helper.Now().Records(call)
    {
      Load();
      ok := Reconciled(call);
    }

    /** Any run of commands, with any answers lost and the helper dying or restarting anywhere: the engine stays
        valid, the newest revision never goes back, and the stored configurations are the newest of one
        history that is only extended, each admitted as a change of the one before. */
    method Serve(commands: seq<Command>)
      requires Valid()
      modifies this, helper
      ensures Valid() && old(history) <= history
      ensures Latest().revision == old(Latest()).revision + (|history| - |old(history)|)
    {
      for i := 0 to |commands|
        invariant Valid() && old(history) <= history
      {
        match commands[i]
        case Change(id, request, stamp, risky) => var _ := Process(id, request, stamp, risky);
        case Confirmation(id, tunnelUp, call) => var _ := Confirm(id, tunnelUp, call);
        case Deadline(id, call) => ghost var _ := Expire(id, call);
        case Recovery(call) => var _ := Reconciled(call);
        case Measurement(call) => var _ := Bypass(call);
        case Respawn(call) => var _ := Restart(call);
        case HelperRestart(fails) => helper.Boot(fails);
      }
      RevisionsCount(admit, history, |old(history)| - 1, |history| - 1);
      assert old(Latest()) == old(history)[|old(history)| - 1] == history[|old(history)| - 1];
      assert Latest() == history[|history| - 1];
    }
  }

  /** From the start of both processes: a change awaits confirmation and runs. */
  method ChangeAwaits(initial: Config, request: Config, stamp: string, admit: (Config, Config) -> bool)
    returns (engine: Engine)
    requires request.revision == initial.revision < MAXIMUM_REVISION && admit(initial, request)
    ensures fresh(engine) && fresh(engine.helper) && fresh(engine.helper.conditions)
    ensures engine.Valid() && engine.helper.Cooperative() && engine.helper.Now().Records("tx")
    ensures engine.pending == Some(Pending("tx", Stamped(request, stamp), initial, 0, false))
  {
    var conditions := new Conditions(Some(SMOOTH), Some(NO_FAULTS), Some(true));
    var helper := new Helper(initial, conditions);
    engine := new Engine(initial, helper, admit);
    var _ := engine.Restart("boot");
    Distinct();
    var _ := engine.Process("tx", request, stamp, true);
  }

  /** The run in which a rollback stays undone: the answer to the first attempt cannot be recorded, and nothing
      goes wrong after that. The retry does not restore the previous configuration. */
  method RollbackStuck(initial: Config, request: Config, stamp: string, admit: (Config, Config) -> bool)
    returns (engine: Engine)
    requires request.revision == initial.revision < MAXIMUM_REVISION && admit(initial, request)
    ensures engine.Valid() && engine.helper.Cooperative()
    ensures engine.pending == Some(Pending("tx", Stamped(request, stamp), initial, 2, false))
  {
    engine := ChangeAwaits(initial, request, stamp, admit);
    Distinct();
    engine.helper.conditions.faults := Some(UNRECORDED);
    ghost var _ := engine.Expire("tx", "tx-timeout-rollback-1");
    engine.helper.conditions.faults := Some(NO_FAULTS);
    ghost var _ := engine.Expire("tx", "tx-timeout-rollback-2");
  }

  lemma Distinct()
    ensures "boot" != "tx" && "tx-timeout-rollback-1" != "tx-timeout-rollback-2"
    ensures "tx" != "tx-timeout-rollback-1" && "boot" != "tx-timeout-rollback-1"
  {
    assert |"boot"| == 4 && |"tx"| == 2 && |"tx-timeout-rollback-1"| == 21;
    assert "tx-timeout-rollback-1"[20] == '1' && "tx-timeout-rollback-2"[20] == '2';
  }
}
