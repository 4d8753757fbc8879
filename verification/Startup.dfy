/** routerd's start under a supervisor: the one-shot fast path that skips reconciliation. */
module Startup {
  import opened Json
  import H = Helper
  import E = Engine

  /** One start: whether and how the helper's process restarts before it, whether an administrator exists,
      whether the consumed marker could be created had it not existed, whether the hash file can be read, the
      time, the id of its helper call, and whether listener and readiness succeed. */
  datatype Attempt = Attempt(
    restart: Option<bool>, admin: bool, creates: bool, readable: bool, now: int, call: string, listens: bool)

  datatype Outcome = Fatal | Ready(skipped: bool)

  /** What is at the path of the hash that the helper's start leaves: its kind and mode, when it was written,
      and its content. */
  datatype Handoff = Handoff(regular: bool, mode: nat, modified: int, content: string)

  const MAXIMUM_AGE := 60
  const CLOCK_SLACK := 5
  /** rw-r----- */
  const HANDOFF_MODE := 416

  /** Writable by neither group nor others. */
  predicate OwnerOnly(mode: nat) {
    mode / 16 % 2 == 0 && mode / 2 % 2 == 0
  }

  predicate Fresh(modified: int, now: int) {
    if modified <= now then now - modified <= MAXIMUM_AGE else modified - now <= CLOCK_SLACK
  }

  /** A file that only root can have written. */
  predicate Trusted(h: Handoff) {
    h.regular && OwnerOnly(h.mode)
  }

  /** `startup_runtime_verified_at`. */
  predicate Matches(h: Handoff, now: int, digest: string) {
    Trusted(h) && Fresh(h.modified, now) && h.content == digest
  }

  /** A regular file with no write bit for group or others, at most a minute old and at most five seconds ahead of
      the clock, holds this hash. */
  ghost predicate Verifies(h: Option<Handoff>, now: int, hash: string) {
    && h.Some? && h.value.regular && h.value.mode / 8 % 8 in {0, 1, 4, 5} && h.value.mode % 8 in {0, 1, 4, 5}
    && -5 <= now - h.value.modified <= 60 && h.value.content == hash
  }

  lemma Half(n: nat, h: nat, bit: nat)
    requires n == 2 * h + bit && bit < 2
    ensures n / 2 == h && n % 2 == bit
  {
  }

  /** The second bit of a number is that of its last octal digit. */
  lemma WriteBit(n: nat)
    ensures n / 2 % 2 == 0 <==> n % 8 in {0, 1, 4, 5}
  {
    var (q, d) := (n / 8, n % 8);
    var h := if d < 2 then 0 else if d < 4 then 1 else if d < 6 then 2 else 3;
    var (k, bit) := (if h < 2 then 0 else 1, if h == 0 || h == 2 then 0 else 1);
    Half(n, 4 * q + h, d - 2 * h);
    Half(4 * q + h, 2 * q + k, bit);
  }

  lemma OwnerOnlyIff(mode: nat)
    ensures OwnerOnly(mode) <==> mode / 8 % 8 in {0, 1, 4, 5} && mode % 8 in {0, 1, 4, 5}
  {
    WriteBit(mode / 8);
    WriteBit(mode);
    assert mode / 16 == mode / 8 / 2;
  }

  /** The candidate is not activated and the restoration leaves a mixture. */
  const HOPELESS := H.SMOOTH.(activates := false, restores := false)

  predicate Skipping(o: Outcome) {
    o.Ready? && o.skipped
  }

  ghost predicate Injective(digest: H.Config -> string) {
    forall a, b :: digest(a) == digest(b) ==> a == b
  }

  class Supervisor {
    const engine: E.Engine
    /** The hash of a configuration's canonical text. */
    const digest: H.Config -> string
    var handoff: Option<Handoff>
    /** The marker exists. */
    var consumed: bool
    /** Starts since the services were started that skipped reconciliation. */
    var skips: nat
    /** What the helper had executed when its hash was written. */
    ghost var published: nat

    constructor (engine: E.Engine, digest: H.Config -> string)
      requires engine.Durable() && engine.helper.Now().Truthful() && Injective(digest)
      ensures this.engine == engine && this.digest == digest && Sound() && handoff.None?
    {
      this.engine, this.digest := engine, digest;
      handoff, consumed, skips, published := None, false, 0, 0;
    }

    /** Until the helper executes something, a hash that only root can have written is that of its last-good
        configuration, and it runs that unless it is down. */
    ghost predicate Sound()
      reads this, engine, engine.helper
    {
      && engine.Durable() && engine.helper.Now().Truthful() && Injective(digest)
      && skips <= (if consumed then 1 else 0) && published <= engine.helper.executions
      && (handoff.Some? && Trusted(handoff.value) && !consumed && engine.helper.executions == published ==>
            handoff.value.content == digest(engine.helper.lastGood) && engine.helper.Now().Fallen())
    }

    /** OpenRC starts routerd's service, after the helper's if that is started too: a helper that has come up
        publishes the hash of its last-good file, and the old hash and marker are removed. */
    method StartServices(withHelper: bool, fails: bool, publishes: bool, now: int)
      requires Sound()
      modifies this, engine.helper
      ensures Sound() && !consumed && skips == 0 && published == engine.helper.executions
      ensures withHelper ==> engine.helper.down == fails && engine.helper.memory.Empty?
      ensures withHelper && !fails ==> engine.helper.runtime == Some(engine.helper.lastGood)
      ensures engine.helper.lastGood == old(engine.helper.lastGood) && engine.helper.disk == old(engine.helper.disk)
      ensures handoff == if withHelper && !fails && publishes
                         then Some(Handoff(true, 6 * 64 + 4 * 8, now, digest(engine.helper.lastGood))) else None
    {
      handoff, consumed, skips := None, false, 0;
      if withHelper {
        engine.helper.Boot(fails);
        if !fails && publishes {
          handoff := Some(Handoff(true, HANDOFF_MODE, now, digest(engine.helper.lastGood)));
        }
      }
      published := engine.helper.executions;
    }

    /** Somebody else puts something at that path. */
    method Disturb(h: Handoff)
      requires Sound() && !Trusted(h)
      modifies this`handoff
      ensures Sound() && handoff == Some(h)
    {
      handoff := Some(h);
    }

    /** Whether a start that has loaded `c` takes it as verified. */
    predicate Verified(creates: bool, readable: bool, now: int, c: H.Config)
      reads this
    {
      !consumed && creates && readable && handoff.Some? && Matches(handoff.value, now, digest(c))
    }

    /** `startup_runtime_verified`: only the start that creates the marker looks at the hash. A match means that
        the helper falls back to the loaded configuration and runs it, if it has executed nothing since. */
    method RuntimeVerified(creates: bool, readable: bool, now: int) returns (verified: bool)
      requires Sound()
      modifies this`consumed, this`skips
      ensures Sound()
      ensures verified == old(Verified(creates, readable, now, engine.current))
      ensures verified <==> !old(consumed) && creates && readable && Verifies(handoff, now, digest(engine.current))
      ensures verified && engine.helper.executions == published ==> engine.Backed()
      ensures skips == old(skips) + (if verified then 1 else 0) && (consumed <==> old(consumed) || creates)
    {
      if consumed || !creates { return false; }
      consumed := true;
      if !readable || handoff.None? { return false; }
      OwnerOnlyIff(handoff.value.mode);
      verified := Matches(handoff.value, now, digest(engine.current));
      if verified { skips := skips + 1; }
    }

    /** The helper may restart before routerd loads the newest stored configuration. */
    method Begin(restart: Option<bool>)
      requires Sound()
      modifies engine`current, engine`pending, engine`recovery, engine.helper
      ensures Sound() && engine.current == engine.Latest() && engine.pending.None? && !engine.recovery
      ensures engine.helper.executions == old(engine.helper.executions)
      ensures restart.None? ==> engine.helper.Now() == old(engine.helper.Now())
      ensures restart.Some? ==> H.Booted(old(engine.helper.Now()), engine.helper.Now(), restart.value)
    {
      if restart.Some? { engine.helper.Boot(restart.value); }
      engine.Load();
    }

    /** Ready to serve the stored configuration: the helper falls back to it and runs it, or is down. */
    ghost predicate Right()
      reads this, engine, engine.helper
    {
      engine.Valid() && engine.pending.None? && !engine.recovery && engine.Backed()
    }

    /** A start that becomes ready with an administrator has reconciled the stored configuration, or skips that
        because of the hash; the hash is right if the helper has executed nothing since. */
    method Start(a: Attempt) returns (o: Outcome)
      requires Sound()
      modifies this, engine, engine.helper
      ensures Sound() && engine.store == old(engine.store) && handoff == old(handoff) && published == old(published)
      ensures o.Ready? && a.admin && !o.skipped ==> Right() && engine.InSync()
      ensures Skipping(o) ==> a.admin && old(Verified(a.creates, a.readable, a.now, engine.Latest()))
      ensures Skipping(o) && old(engine.helper.executions) == published ==> Right()
      ensures consumed <==> old(consumed) || (a.admin && a.creates)
      ensures !a.admin || Skipping(o) ==> engine.helper.executions == old(engine.helper.executions)
      ensures a.restart.None? && a.admin && a.listens ==>
        old(Verified(a.creates, a.readable, a.now, engine.Latest())) ==>
          Skipping(o) && engine.helper.Now() == old(engine.helper.Now())
      ensures a.restart.None? && a.admin && !a.creates && old(Doomed(a.call, engine.Latest())) ==>
        o.Fatal? && !engine.helper.down && engine.helper.runtime == None
      ensures !a.listens ==> o.Fatal?
      ensures a.listens && (a.admin ==> Granted(a.call, old(engine.helper.Now()))) ==> o.Ready?
      ensures !a.admin && a.listens ==> o == Ready(false)
    {
      Begin(a.restart);
      var skipped := false;
      if a.admin {
        skipped := RuntimeVerified(a.creates, a.readable, a.now);
        if !skipped {
          var ok := Reconcile(a.call);
          if !ok { return Fatal; }
        }
      }
      if !a.listens { return Fatal; }
      return Ready(skipped);
    }

    /** The reconciliation of a start that does not skip it. */
    method Reconcile(call: string) returns (ok: bool)
      requires Sound() && engine.current == engine.Latest() && engine.pending.None?
      modifies engine`pending, engine`recovery, engine.helper
      ensures Sound() && (ok ==> Right() && engine.InSync())
      ensures Granted(call, old(engine.helper.Now())) ==> ok
      ensures old(Doomed(call, engine.current)) ==> !ok && !engine.helper.down && engine.helper.runtime == None
    {
      ok := engine.Reconciled(call);
    }

    /** A reconciliation that a cooperative helper grants. */
    ghost predicate Granted(call: string, v: H.View)
      reads engine, engine.helper, engine.helper.conditions
    {
      engine.helper.Cooperative() && v.NewId(call)
    }

    /** A reconciliation that is executed and fails at every step. */
    ghost predicate Doomed(call: string, c: H.Config)
      reads this, engine, engine.helper, engine.helper.conditions
    {
      && engine.helper.conditions.course == Some(HOPELESS) && engine.helper.conditions.faults == Some(H.NO_FAULTS)
      && engine.helper.Now().Executed(H.Request(call, H.Reconcile, c), H.NO_FAULTS)
    }

    /** Any number of respawns during one marker lifetime: at most one start skips reconciliation. If the marker
        can be created when it does not exist, every start that becomes ready with an administrator is right. */
    method Respawn(attempts: seq<Attempt>) returns (outcomes: seq<Outcome>, ghost rights: seq<bool>)
      requires Sound()
      modifies this, engine, engine.helper
      ensures Sound() && |outcomes| == |rights| == |attempts|
      ensures forall i, j | 0 <= i < j < |outcomes| :: !(Skipping(outcomes[i]) && Skipping(outcomes[j]))
      ensures old(consumed) ==> forall i | 0 <= i < |outcomes| :: !Skipping(outcomes[i])
      ensures Creatable(attempts) && old(consumed || engine.helper.executions == published) ==>
        forall i | 0 <= i < |outcomes| && attempts[i].admin && outcomes[i].Ready? :: rights[i]
    {
      outcomes, rights := [], [];
      for n := 0 to |attempts|
        invariant Sound() && |outcomes| == |rights| == n && published == old(published)
        invariant forall i, j | 0 <= i < j < n :: !(Skipping(outcomes[i]) && Skipping(outcomes[j]))
        invariant forall i | 0 <= i < n :: Skipping(outcomes[i]) ==> consumed
        invariant old(consumed) ==> consumed && forall i | 0 <= i < n :: !Skipping(outcomes[i])
        invariant Creatable(attempts) && old(consumed || engine.helper.executions == published) ==>
          && (consumed || engine.helper.executions == published)
          && forall i | 0 <= i < n && attempts[i].admin && outcomes[i].Ready? :: rights[i]
      {
        var o := Start(attempts[n]);
        outcomes, rights := outcomes + [o], rights + [Right()];
      }
    }
  }

  predicate Creatable(attempts: seq<Attempt>) {
    forall i | 0 <= i < |attempts| :: attempts[i].admin ==> attempts[i].creates
  }

  /** Both services have just started, and the steps of every execution fail from now on. */
  method FailingFromNow(initial: H.Config, admit: (H.Config, H.Config) -> bool, digest: H.Config -> string)
    returns (s: Supervisor)
    requires Injective(digest)
    ensures fresh(s) && fresh(s.engine) && fresh(s.engine.helper)
    ensures s.Sound() && !s.consumed && s.engine.Latest() == initial
    ensures s.handoff == Some(Handoff(true, HANDOFF_MODE, 0, digest(initial))) && s.digest == digest
    ensures forall call :: s.Doomed(call, initial)
  {
    var conditions := new H.Conditions(Some(HOPELESS), Some(H.NO_FAULTS), None);
    var helper := new H.Helper(initial, conditions);
    var engine := new E.Engine(initial, helper, admit);
    s := new Supervisor(engine, digest);
    s.StartServices(true, false, true, 0);
  }

  /** The run in which the hash is wrong: a start cannot create the marker and its reconciliation fails half-way;
      the next start creates the marker, finds the hash and becomes ready over a mixture. */
  method UncreatedMarker(initial: H.Config, admit: (H.Config, H.Config) -> bool, digest: H.Config -> string)
    returns (s: Supervisor, o: Outcome)
    requires Injective(digest)
    ensures o == Ready(true) && !s.engine.helper.down && s.engine.helper.runtime == None && !s.Right()
  {
    s := FailingFromNow(initial, admit, digest);
    assert s.Doomed("first", initial);
    var _ := s.Start(Attempt(None, true, false, true, 0, "first", true));
    o := s.Start(Attempt(None, true, true, true, 0, "second", true));
  }
}
