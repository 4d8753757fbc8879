/** Optimistic editing by many sessions: every write is computed from a configuration the page has
    read, and the router takes it only at the revision it was computed from. */
module Editing {
  import opened Json

  /** How an editor sees its section of a configuration, and how it writes a draft back. */
  datatype Lens<!C, !D> = Lens(read: C -> D, write: (C, D) -> C)

  /** A write as the pages make it: a section draft, or a read-modify-write that may throw. */
  datatype Change<!C, !D> =
    | SectionWrite(lens: Lens<C, D>, base: D, draft: D)
    | Mutation(mutate: C -> Option<C>)

  /** The configuration at a revision. */
  datatype Version<+C> = Version(revision: nat, config: C)

  /** A write on its way to the router. */
  datatype Attempt<!C, !D> = Attempt(change: Change<C, D>, based: Version<C>, candidate: C)

  /** A section editor: the newest configuration its page has seen, the value it started from, the
      draft, and a write in flight. */
  datatype Editor<!C, !D> = Editor(
    lens: Lens<C, D>, snapshot: Version<C>, base: D, draft: D, inFlight: Option<Attempt<C, D>>)

  /** `past[r]` is the configuration at revision r and the last one is current; `log[r]` is the change
      that made revision r + 1; `pending` is a provisional change awaiting confirmation. */
  datatype System<!C, !D> = System(
    past: seq<C>, log: seq<Change<C, D>>, pending: Option<Attempt<C, D>>, editors: map<nat, Editor<C, D>>)

  datatype Event<!C, !D> =
    | Edit(id: nat, draft: D)
    | Refresh(id: nat, answer: nat)
    | LoadCurrent(id: nat)
    | Submit(id: nat, answer: nat)
    | Act(id: nat, answer: nat, mutate: C -> Option<C>)
    | Drop(id: nat)
    | Deliver(id: nat, risky: bool, acknowledged: bool)
    | Confirm
    | Expire

  // ---------------------------------------------------------------------------------------
  // One step

  /** What a change makes of a configuration; None when it throws. */
  function Applied<C, D(==)>(change: Change<C, D>, c: C): Option<C> {
    match change
    case SectionWrite(lens, base, draft) => if lens.read(c) == base then Some(lens.write(c, draft)) else None
    case Mutation(mutate) => mutate(c)
  }

  /** An answer to a read is any revision the router has had, however late it arrives, and replaces
      the snapshot only when it is not older. */
  function Received<C, D>(s: System<C, D>, seen: Version<C>, answer: nat): Version<C> {
    if seen.revision <= answer < |s.past| then Version(answer, s.past[answer]) else seen
  }

  /** The refresh effect: the editor follows the page only when nothing was edited, or when the page
      now shows the draft itself. */
  function Followed<C, D(==)>(e: Editor<C, D>): Editor<C, D> {
    var value := e.lens.read(e.snapshot.config);
    if value != e.base && (e.draft == e.base || value == e.draft) then e.(base := value, draft := value) else e
  }

  /** Reading the configuration again and computing the candidate from it. */
  function Started<C, D(==)>(e: Editor<C, D>, seen: Version<C>, change: Change<C, D>): Editor<C, D> {
    var candidate := Applied(change, seen.config);
    e.(snapshot := seen, inFlight := if candidate.None? then None else Some(Attempt(change, seen, candidate.value)))
  }

  /** The attempt is over; an acknowledged section write makes its draft the new base. */
  function Ended<C, D>(e: Editor<C, D>, acknowledged: bool): Editor<C, D>
    requires e.inFlight.Some?
  {
    var change := e.inFlight.value.change;
    e.(inFlight := None, base := if acknowledged && change.SectionWrite? then change.draft else e.base)
  }

  function Committed<C, D>(s: System<C, D>, a: Attempt<C, D>): System<C, D> {
    s.(past := s.past + [a.candidate], log := s.log + [a.change])
  }

  /** The router accepts a write only at its current revision and with nothing pending. */
  predicate Accepts<C, D>(s: System<C, D>, a: Attempt<C, D>) {
    s.pending.None? && a.based.revision + 1 == |s.past|
  }

  function Delivered<C, D>(s: System<C, D>, id: nat, risky: bool, acknowledged: bool): System<C, D>
    requires id in s.editors && s.editors[id].inFlight.Some?
  {
    var e := s.editors[id];
    var a := e.inFlight.value;
    if !Accepts(s, a) then s.(editors := s.editors[id := Ended(e, false)])
    else
      var done := s.(editors := s.editors[id := Ended(e, acknowledged)]);
      if risky then done.(pending := Some(a)) else Committed(done, a)
  }

  /** The editor after its own event. */
  function EditorNext<C, D(==)>(s: System<C, D>, e: Editor<C, D>, event: Event<C, D>): Editor<C, D> {
    match event
    case Edit(_, draft) => e.(draft := draft)
    case Refresh(_, answer) => Followed(e.(snapshot := Received(s, e.snapshot, answer)))
    case LoadCurrent(_) => var value := e.lens.read(e.snapshot.config); e.(base := value, draft := value)
    case Submit(_, answer) =>
      if e.inFlight.Some? then e
      else Started(e, Received(s, e.snapshot, answer), SectionWrite(e.lens, e.base, e.draft))
    case Act(_, answer, mutate) =>
      if e.inFlight.Some? then e else Started(e, Received(s, e.snapshot, answer), Mutation(mutate))
    case Drop(_) => e.(inFlight := None)
    case _ => e
  }

  function Next<C, D(==)>(s: System<C, D>, event: Event<C, D>): System<C, D> {
    match event
    case Confirm => if s.pending.Some? then Committed(s, s.pending.value).(pending := None) else s
    case Expire => s.(pending := None)
    case Deliver(id, risky, acknowledged) =>
      if id in s.editors && s.editors[id].inFlight.Some? then Delivered(s, id, risky, acknowledged) else s
    case _ =>
      if event.id in s.editors then
        s.(editors := s.editors[event.id := EditorNext(s, s.editors[event.id], event)])
      else s
  }

  function Run<C, D(==)>(s: System<C, D>, events: seq<Event<C, D>>): System<C, D>
    decreases events
  {
    if events == [] then s else Run(Next(s, events[0]), events[1..])
  }

  /** The editor component itself: the state it keeps between renders, its page's snapshot, and the
      write it waits for. */
  class SectionEditor<!C, !D(==)> {
    const lens: Lens<C, D>
    var snapshot: Version<C>
    var base: D
    var draft: D
    var inFlight: Option<Attempt<C, D>>

    constructor (e: Editor<C, D>)
      ensures Shows(e)
    {
      lens, snapshot, base, draft, inFlight := e.lens, e.snapshot, e.base, e.draft, e.inFlight;
    }

    ghost predicate Shows(e: Editor<C, D>)
      reads this
    {
      e == Editor(lens, snapshot, base, draft, inFlight)
    }

    /** The refresh effect; an edited draft survives it. */
    method Effect(ghost e: Editor<C, D>)
      requires Shows(e)
      modifies this`base, this`draft
      ensures Shows(Followed(e))
      ensures old(draft) != old(base) ==> draft == old(draft)
    {
      var value := lens.read(snapshot.config);
      var dirty := draft != base;
      if value != base && (!dirty || value == draft) {
        base := value;
        draft := value;
      }
    }

    /** The page reads the configuration: an older answer is ignored. */
    method Receive(ghost s: System<C, D>, ghost e: Editor<C, D>, revision: nat, config: C)
      requires Shows(e) && revision < |s.past| && s.past[revision] == config
      modifies this`snapshot
      ensures Shows(e.(snapshot := Received(s, e.snapshot, revision)))
    {
      if revision >= snapshot.revision { snapshot := Version(revision, config); }
    }

    /** Computing the candidate from the snapshot just read; a change that throws ends here. */
    method Begin(ghost e: Editor<C, D>, change: Change<C, D>)
      requires Shows(e)
      modifies this`inFlight
      ensures Shows(Started(e, e.snapshot, change))
    {
      var candidate := Applied(change, snapshot.config);
      inFlight := if candidate.None? then None else Some(Attempt(change, snapshot, candidate.value));
    }

    /** The end of the attempt: only an acknowledged section write moves the base, and it moves to the
        draft that was submitted, so edits made meanwhile stay. */
    method Finish(ghost e: Editor<C, D>, acknowledged: bool)
      requires Shows(e) && inFlight.Some?
      modifies this`base, this`inFlight
      ensures Shows(Ended(e, acknowledged)) && draft == old(draft)
    {
      var change := inFlight.value.change;
      if acknowledged && change.SectionWrite? { base := change.draft; }
      inFlight := None;
    }

    /** One event of the whole system, seen from this component. */
    method Observe(s: System<C, D>, id: nat, event: Event<C, D>)
      requires id in s.editors && Shows(s.editors[id]) && s.past != []
      modifies this
      ensures id in Next(s, event).editors && Shows(Next(s, event).editors[id])
    {
      ghost var e := s.editors[id];
      if event.Confirm? || event.Expire? || event.id != id { return; }
      match event
      case Edit(_, next) => draft := next;
      case Refresh(_, answer) =>
        if answer < |s.past| { Receive(s, e, answer, s.past[answer]); }
        Effect(e.(snapshot := Received(s, e.snapshot, answer)));
      case LoadCurrent(_) =>
        base := lens.read(snapshot.config);
        draft := base;
      case Submit(_, answer) =>
        if inFlight.None? { Send(s, e, answer, SectionWrite(lens, base, draft)); }
      case Act(_, answer, mutate) =>
        if inFlight.None? { Send(s, e, answer, Mutation(mutate)); }
      case Drop(_) => inFlight := None;
      case Deliver(_, _, acknowledged) =>
        if inFlight.Some? { Finish(e, acknowledged && Accepts(s, inFlight.value)); }
      case _ =>
    }

    method Send(s: System<C, D>, ghost e: Editor<C, D>, answer: nat, change: Change<C, D>)
      requires Shows(e) && inFlight.None?
      modifies this`snapshot, this`inFlight
      ensures Shows(Started(e, Received(s, e.snapshot, answer), change))
    {
      ghost var seen := e.(snapshot := Received(s, e.snapshot, answer));
      if answer < |s.past| { Receive(s, e, answer, s.past[answer]); }
      Begin(seen, change);
    }

    /** Over every run of the system the component shows exactly the system's editor. */
    method Simulate(start: System<C, D>, id: nat, events: seq<Event<C, D>>)
      requires id in start.editors && Shows(start.editors[id]) && start.past != []
      modifies this
      ensures id in Run(start, events).editors && Shows(Run(start, events).editors[id])
    {
      var s := start;
      assert events[0..] == events;
      for i := 0 to |events|
        invariant s.past != [] && id in s.editors && Shows(s.editors[id]) && Run(s, events[i..]) == Run(start, events)
      {
        Observe(s, id, events[i]);
        assert events[i..][1..] == events[i + 1..];
        s := Next(s, events[i]);
      }
      assert events[|events|..] == [];
    }
  }

  // ---------------------------------------------------------------------------------------
  // What every step keeps

  ghost predicate Real<C, D>(s: System<C, D>, v: Version<C>) {
    v.revision < |s.past| && s.past[v.revision] == v.config
  }

  ghost predicate AttemptSound<C, D>(s: System<C, D>, a: Attempt<C, D>) {
    Real(s, a.based) && Applied(a.change, a.based.config) == Some(a.candidate)
  }

  ghost predicate EditorSound<C, D>(s: System<C, D>, e: Editor<C, D>) {
    Real(s, e.snapshot) && (e.inFlight.Some? ==> AttemptSound(s, e.inFlight.value))
  }

  ghost predicate PendingSound<C, D>(s: System<C, D>) {
    s.pending.Some? ==> AttemptSound(s, s.pending.value) && s.pending.value.based.revision + 1 == |s.past|
  }

  /** The log is one sequential history: change i was computed from exactly the configuration it replaced. */
  ghost predicate Serial<C, D>(s: System<C, D>) {
    && |s.past| == |s.log| + 1
    && forall i | 0 <= i < |s.log| :: Applied(s.log[i], s.past[i]) == Some(s.past[i + 1])
  }

  ghost predicate EditorsSound<C, D>(s: System<C, D>) {
    forall id | id in s.editors :: EditorSound(s, s.editors[id])
  }

  ghost predicate Inv<C, D>(s: System<C, D>) {
    Serial(s) && PendingSound(s) && EditorsSound(s)
  }

  lemma PastGrows<C, D>(s: System<C, D>, s': System<C, D>, e: Editor<C, D>)
    requires s.past <= s'.past && EditorSound(s, e)
    ensures EditorSound(s', e)
  {
  }

  lemma EditorNextSound<C, D>(s: System<C, D>, e: Editor<C, D>, event: Event<C, D>)
    requires EditorSound(s, e)
    ensures EditorSound(s, EditorNext(s, e, event))
  {
  }

  /** Changing one editor keeps the invariant when the editor stays sound. */
  lemma OneEditor<C, D>(s: System<C, D>, id: nat, e: Editor<C, D>)
    requires Inv(s) && EditorSound(s, e)
    ensures Inv(s.(editors := s.editors[id := e]))
  {
    var s' := s.(editors := s.editors[id := e]);
    forall k | k in s'.editors ensures EditorSound(s', s'.editors[k]) {
      PastGrows(s, s', if k == id then e else s.editors[k]);
    }
  }

  lemma CommitSerial<C, D>(s: System<C, D>, a: Attempt<C, D>)
    requires Serial(s) && AttemptSound(s, a) && a.based.revision + 1 == |s.past|
    ensures Serial(Committed(s, a))
  {
    var s' := Committed(s, a);
    forall i | 0 <= i < |s'.log| ensures Applied(s'.log[i], s'.past[i]) == Some(s'.past[i + 1]) {
      if i < |s.log| {
        assert s'.log[i] == s.log[i] && s'.past[i] == s.past[i] && s'.past[i + 1] == s.past[i + 1];
      }
    }
  }

  lemma CommitKeeps<C, D>(s: System<C, D>, a: Attempt<C, D>)
    requires Serial(s) && EditorsSound(s)
    requires AttemptSound(s, a) && a.based.revision + 1 == |s.past|
    ensures Inv(Committed(s, a).(pending := None))
  {
    CommitSerial(s, a);
    var s' := Committed(s, a).(pending := None);
    forall k | k in s'.editors ensures EditorSound(s', s'.editors[k]) { PastGrows(s, s', s.editors[k]); }
  }

  lemma DeliverKeeps<C, D>(s: System<C, D>, id: nat, risky: bool, acknowledged: bool)
    requires Inv(s) && id in s.editors && s.editors[id].inFlight.Some?
    ensures Inv(Delivered(s, id, risky, acknowledged))
  {
    var e := s.editors[id];
    var a := e.inFlight.value;
    assert EditorSound(s, e);
    OneEditor(s, id, Ended(e, acknowledged));
    OneEditor(s, id, Ended(e, false));
    if Accepts(s, a) {
      var done := s.(editors := s.editors[id := Ended(e, acknowledged)]);
      PendingKeeps(done, a);
      CommitKeeps(done, a);
    }
  }

  lemma PendingKeeps<C, D>(s: System<C, D>, a: Attempt<C, D>)
    requires Inv(s) && AttemptSound(s, a) && a.based.revision + 1 == |s.past|
    ensures Inv(s.(pending := Some(a)))
  {
    var s' := s.(pending := Some(a));
    forall k | k in s'.editors ensures EditorSound(s', s'.editors[k]) { PastGrows(s, s', s.editors[k]); }
  }

  lemma ExpireKeeps<C, D>(s: System<C, D>)
    requires Inv(s)
    ensures Inv(s.(pending := None))
  {
    var s' := s.(pending := None);
    forall k | k in s'.editors ensures EditorSound(s', s'.editors[k]) { PastGrows(s, s', s.editors[k]); }
  }

  lemma NextKeeps<C, D>(s: System<C, D>, event: Event<C, D>)
    requires Inv(s)
    ensures Inv(Next(s, event))
  {
    match event
    case Confirm =>
      if s.pending.Some? { CommitKeeps(s, s.pending.value); }
    case Expire => ExpireKeeps(s);
    case Deliver(id, risky, acknowledged) =>
      if id in s.editors && s.editors[id].inFlight.Some? { DeliverKeeps(s, id, risky, acknowledged); }
    case _ =>
      if event.id in s.editors {
        EditorNextSound(s, s.editors[event.id], event);
        OneEditor(s, event.id, EditorNext(s, s.editors[event.id], event));
      }
  }

  lemma {:induction false} RunKeeps<C, D>(s: System<C, D>, events: seq<Event<C, D>>)
    requires Inv(s)
    ensures Inv(Run(s, events))
    decreases events
  {
    if events != [] {
      NextKeeps(s, events[0]);
      RunKeeps(Next(s, events[0]), events[1..]);
    }
  }

  // ---------------------------------------------------------------------------------------
  // Main results

  /** One configuration, no commits, every page showing it. */
  ghost predicate Fresh<C, D>(s: System<C, D>) {
    && |s.past| == 1 && s.log == [] && s.pending == None
    && forall id | id in s.editors ::
         var e := s.editors[id];
         && e.snapshot == Version(0, s.past[0]) && e.inFlight == None
         && e.base == e.draft == e.lens.read(s.past[0])
  }

  /** For any number of sessions and any interleaving of edits, refreshes, loads, submissions, lost
      answers and confirmations, the commits are one sequential history: every change was computed
      from exactly the configuration it replaced. */
  lemma Serializable<C, D>(s: System<C, D>, events: seq<Event<C, D>>)
    requires Fresh(s)
    ensures Serial(Run(s, events))
  {
    RunKeeps(s, events);
  }

  /** So a committed section write was based on the section's value immediately before it. */
  lemma SectionBasedOnLatest<C, D>(s: System<C, D>, events: seq<Event<C, D>>, i: nat)
    requires Fresh(s) && i < |Run(s, events).log| && Run(s, events).log[i].SectionWrite?
    ensures i + 1 < |Run(s, events).past|
    ensures var r := Run(s, events);
            var w := r.log[i];
            w.lens.read(r.past[i]) == w.base && r.past[i + 1] == w.lens.write(r.past[i], w.draft)
  {
    Serializable(s, events);
    var r := Run(s, events);
    assert Applied(r.log[i], r.past[i]) == Some(r.past[i + 1]);
  }

  /** A change leaves a section as it reads, on every configuration it can be applied to. */
  ghost predicate Leaves<C(!new), D>(change: Change<C, D>, section: Lens<C, D>) {
    forall c, c' :: Applied(change, c) == Some(c') ==> section.read(c') == section.read(c)
  }

  /** A section reads the same at two revisions when every change in between leaves it alone. */
  lemma {:induction false} SectionStands<C(!new), D>(s: System<C, D>, section: Lens<C, D>, i: nat, j: nat)
    requires Serial(s) && i <= j < |s.past|
    requires forall k | i <= k < j :: Leaves(s.log[k], section)
    ensures section.read(s.past[j]) == section.read(s.past[i])
    decreases j - i
  {
    if i < j {
      SectionStands(s, section, i, j - 1);
      assert Applied(s.log[j - 1], s.past[j - 1]) == Some(s.past[j]);
      assert Leaves(s.log[j - 1], section);
    }
  }

  /** No lost update: of two commits to a section with none of its changes in between, the later was
      based on exactly what the section read after the earlier one. */
  lemma NoLostUpdate<C(!new), D>(s: System<C, D>, events: seq<Event<C, D>>, i: nat, j: nat)
    requires Fresh(s) && i < j < |Run(s, events).log|
    requires Run(s, events).log[i].SectionWrite? && Run(s, events).log[j].SectionWrite?
    requires Run(s, events).log[i].lens == Run(s, events).log[j].lens
    requires forall k | i < k < j :: Leaves(Run(s, events).log[k], Run(s, events).log[j].lens)
    ensures i + 1 < |Run(s, events).past|
    ensures Run(s, events).log[j].base == Run(s, events).log[j].lens.read(Run(s, events).past[i + 1])
  {
    Serializable(s, events);
    var r := Run(s, events);
    SectionStands(r, r.log[j].lens, i + 1, j);
    assert Applied(r.log[j], r.past[j]) == Some(r.past[j + 1]);
  }

  /** Only an editor's own edit or load changes an edited draft: no refresh, submission, answer,
      confirmation or expiry, and nothing any other session does, ever discards it. */
  lemma EditedDraftKept<C, D>(s: System<C, D>, event: Event<C, D>, k: nat)
    requires k in s.editors && s.editors[k].draft != s.editors[k].base
    ensures k in Next(s, event).editors
    ensures Next(s, event).editors[k].draft != s.editors[k].draft ==>
      (event.Edit? || event.LoadCurrent?) && event.id == k
  {
  }

  /** A clean editor follows its page: after a refresh it shows the newest configuration seen. */
  lemma CleanEditorFollows<C, D>(s: System<C, D>, k: nat, answer: nat)
    requires k in s.editors && s.editors[k].draft == s.editors[k].base
    ensures var e := Next(s, Refresh(k, answer)).editors[k];
            e.draft == e.base == e.lens.read(e.snapshot.config)
  {
  }

  /** A submission from the latest configuration puts the written section in flight. */
  lemma Submitted<C, D>(s: System<C, D>, k: nat)
    requires Inv(s) && k in s.editors && s.editors[k].inFlight == None
    requires s.editors[k].lens.read(s.past[|s.past| - 1]) == s.editors[k].base
    ensures var (e, latest) := (s.editors[k], Version(|s.past| - 1, s.past[|s.past| - 1]));
      var a := Attempt(SectionWrite(e.lens, e.base, e.draft), latest, e.lens.write(latest.config, e.draft));
      Next(s, Submit(k, |s.past| - 1)) == s.(editors := s.editors[k := e.(snapshot := latest, inFlight := Some(a))])
  {
    assert EditorSound(s, s.editors[k]);
  }

  /** After a submission from the latest configuration, an acknowledged answer and a refresh, the draft is
      still shown exactly when a risky change asked for nothing new, or a plain one reads back as written:
      the draft of a provisional change counts as saved, so the next refresh puts the canonical value
      back, and an expiry then leaves no trace of it. */
  lemma AcknowledgedDraftExact<C, D>(s: System<C, D>, k: nat, risky: bool)
    requires Inv(s) && k in s.editors && s.editors[k].inFlight == None && s.pending == None
    requires s.editors[k].lens.read(s.past[|s.past| - 1]) == s.editors[k].base
    ensures var e, current := s.editors[k], s.past[|s.past| - 1];
            var delivered := Next(Next(s, Submit(k, |s.past| - 1)), Deliver(k, risky, true));
            var shown := Next(delivered, Refresh(k, |delivered.past| - 1));
            && (shown.editors[k].draft == e.draft <==>
                  if risky then e.draft == e.base else e.lens.read(e.lens.write(current, e.draft)) == e.draft)
            && (risky ==> shown.editors[k].draft == e.base && Next(shown, Expire).past == s.past)
  {
    Submitted(s, k);
  }

  // ---------------------------------------------------------------------------------------
  // Which writes get through

  /** The attempt that one event commits, if any: a confirmed one, or a delivered one that is not risky,
      computed from the newest revision while nothing awaits confirmation. */
  ghost function Lands<C, D>(s: System<C, D>, event: Event<C, D>): Option<Attempt<C, D>> {
    if event.Confirm? then s.pending
    else if event.Deliver? && !event.risky && event.id in s.editors then Arrives(s, event.id)
    else None
  }

  ghost function Arrives<C, D>(s: System<C, D>, id: nat): Option<Attempt<C, D>>
    requires id in s.editors
  {
    var a := s.editors[id].inFlight;
    if a.Some? && s.pending == None && |s.past| == a.value.based.revision + 1 then a else None
  }

  /** For every event: the router commits what lands and nothing else, and what awaits confirmation is the
      last risky change that arrived and was neither confirmed nor has expired. */
  lemma RouterExact<C, D>(s: System<C, D>, event: Event<C, D>)
    ensures var (t, a) := (Next(s, event), Lands(s, event));
      if a.Some? then t.past == s.past + [a.value.candidate] && t.log == s.log + [a.value.change]
      else t.past == s.past && t.log == s.log
    ensures Next(s, event).pending ==
      if event.Confirm? || event.Expire? then None
      else if event.Deliver? && event.risky && event.id in s.editors && Arrives(s, event.id).Some?
      then Arrives(s, event.id) else s.pending
  {
  }

  /** Something that another session does by itself. */
  ghost predicate Elsewhere<C, D>(event: Event<C, D>, k: nat) {
    !event.Confirm? && !event.Expire? && !event.Deliver? && event.id != k
  }

  lemma {:induction false} ElsewhereKeeps<C, D>(s: System<C, D>, events: seq<Event<C, D>>, k: nat)
    requires k in s.editors && forall i | 0 <= i < |events| :: Elsewhere(events[i], k)
    ensures var t := Run(s, events);
      t.past == s.past && t.log == s.log && t.pending == s.pending && k in t.editors && t.editors[k] == s.editors[k]
    decreases events
  {
    if events != [] { ElsewhereKeeps(Next(s, events[0]), events[1..], k); }
  }

  /** A section write from the newest revision, with nothing awaiting confirmation, is committed whatever the
      other sessions edit, read or send meanwhile, and whether or not its own answer is lost. */
  lemma WriteGetsThrough<C, D>(s: System<C, D>, k: nat, between: seq<Event<C, D>>, acknowledged: bool)
    requires Inv(s) && k in s.editors && s.editors[k].inFlight == None && s.pending == None
    requires s.editors[k].lens.read(s.past[|s.past| - 1]) == s.editors[k].base
    requires forall i | 0 <= i < |between| :: Elsewhere(between[i], k)
    ensures var (e, current) := (s.editors[k], s.past[|s.past| - 1]);
      var t := Next(Run(Next(s, Submit(k, |s.past| - 1)), between), Deliver(k, false, acknowledged));
      && t.past == s.past + [e.lens.write(current, e.draft)]
      && k in t.editors && t.editors[k].draft == e.draft
      && t.editors[k].base == (if acknowledged then e.draft else e.base)
  {
    Submitted(s, k);
    ElsewhereKeeps(Next(s, Submit(k, |s.past| - 1)), between, k);
  }
}
