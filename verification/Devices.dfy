/** The device panel: polls that overlap with pause and resume actions, kept apart by an epoch
    counter; and the paging of its rows. */
module Devices {
  /** Where the pause list on show came from, and when its request began (a poll) or its answer
      arrived (an action). */
  datatype Shown = Nothing | FromPoll(started: nat) | FromAction(answered: nat)

  datatype Poll = Poll(generation: nat, started: nat)

  /** `now` counts events; `confirmed` is when the last pause list answering an action arrived. */
  datatype Panel = Panel(
    now: nat, epoch: nat, polls: map<nat, Poll>, acting: bool, shown: Shown, confirmed: nat)

  /** A poll's answer or an action's answer may carry no usable pause list. */
  datatype Event =
    | PollStarts(id: nat)
    | PollEnds(id: nat, usable: bool)
    | PollAborts(id: nat)
    | ActionStarts
    | ActionSucceeds(usable: bool)
    | ActionFails
    | Reload

  function Next(s: Panel, event: Event): Panel {
    var t := s.(now := s.now + 1);
    match event
    case PollStarts(id) => t.(polls := s.polls[id := Poll(s.epoch, s.now)])
    case PollAborts(id) => t.(polls := s.polls - {id})
    case PollEnds(id, usable) =>
      if id !in s.polls then t
      else
        var ended := t.(polls := s.polls - {id});
        if s.polls[id].generation != s.epoch || !usable then ended
        else ended.(shown := FromPoll(s.polls[id].started))
    case ActionStarts => if s.acting then t else t.(epoch := s.epoch + 1, acting := true)
    case ActionSucceeds(usable) =>
      if !s.acting then t
      else
        var done := t.(epoch := s.epoch + 1, acting := false);
        if usable then done.(shown := FromAction(s.now), confirmed := s.now) else done
    case ActionFails => t.(acting := false)
    case Reload => t.(epoch := s.epoch + 1)
  }

  function Run(s: Panel, events: seq<Event>): Panel
    decreases events
  {
    if events == [] then s else Run(Next(s, events[0]), events[1..])
  }

  /** What is on show is at least as new as the last confirmed action. */
  predicate UpToDate(s: Panel) {
    match s.shown
    case Nothing => true
    case FromPoll(started) => started >= s.confirmed
    case FromAction(answered) => answered == s.confirmed
  }

  /** No poll is ahead of the epoch, and a poll of the current epoch began after the last confirmed action. */
  predicate PollOk(s: Panel, p: Poll) {
    p.generation <= s.epoch && p.started <= s.now && (p.generation == s.epoch ==> p.started >= s.confirmed)
  }

  ghost predicate Inv(s: Panel) {
    s.confirmed <= s.now && UpToDate(s) && forall id | id in s.polls :: PollOk(s, s.polls[id])
  }

  lemma NextKeeps(s: Panel, event: Event)
    requires Inv(s)
    ensures Inv(Next(s, event)) && s.confirmed <= Next(s, event).confirmed
  {
    var s' := Next(s, event);
    forall id | id in s'.polls ensures PollOk(s', s'.polls[id]) {
      if id in s.polls { assert PollOk(s, s.polls[id]); }
    }
    if event.PollEnds? && event.id in s.polls { assert PollOk(s, s.polls[event.id]); }
  }

  /** For every interleaving: once a successful action's pause list has been shown, no poll that began
      before that answer ever replaces it. */
  lemma {:induction false} ActionNotOverwritten(s: Panel, events: seq<Event>)
    requires Inv(s)
    ensures Inv(Run(s, events)) && Run(s, events).confirmed >= s.confirmed
    ensures s.shown.FromAction? && Run(s, events).shown.FromPoll? ==>
      Run(s, events).shown.started >= s.shown.answered
    decreases events
  {
    if events != [] {
      NextKeeps(s, events[0]);
      ActionNotOverwritten(Next(s, events[0]), events[1..]);
    }
  }

  // ---------------------------------------------------------------------------------------
  // What is on show, in terms of the events

  const START := Panel(0, 0, map[], false, Nothing, 0)

  ghost function At(events: seq<Event>, n: nat): Panel
    requires n <= |events|
  {
    Run(START, events[..n])
  }

  lemma {:induction false} RunAppend(s: Panel, events: seq<Event>, event: Event)
    ensures Run(s, events + [event]) == Next(Run(s, events), event)
    decreases events
  {
    if events == [] {
      assert [] + [event] == [event] && [event][1..] == [];
    } else {
      RunAppend(Next(s, events[0]), events[1..], event);
      assert (events + [event])[1..] == events[1..] + [event];
    }
  }

  lemma AtNext(events: seq<Event>, n: nat)
    requires n < |events|
    ensures At(events, n + 1) == Next(At(events, n), events[n])
  {
    RunAppend(START, events[..n], events[n]);
    assert events[..n + 1] == events[..n] + [events[n]];
  }

  /** An action is under way: one has started and none has ended since. */
  ghost predicate Acting(events: seq<Event>, n: nat)
    requires n <= |events|
  {
    exists j: nat | j < n :: events[j].ActionStarts? && NoActionEnds(events, j, n)
  }

  ghost predicate NoActionEnds(events: seq<Event>, j: nat, n: nat)
    requires n <= |events|
  {
    forall k | j < k < n :: !events[k].ActionSucceeds? && !events[k].ActionFails?
  }

  /** A poll of this id started at event j and has neither ended nor been replaced. */
  ghost predicate Polling(events: seq<Event>, id: nat, j: nat, n: nat)
    requires n <= |events|
  {
    && j < n && events[j] == PollStarts(id)
    && forall k | j < k < n ::
         events[k] != PollStarts(id) && events[k] != PollAborts(id) && !(events[k].PollEnds? && events[k].id == id)
  }

  /** An action that starts or succeeds, or a reload, makes every poll in flight stale. */
  ghost predicate Outdates(events: seq<Event>, k: nat)
    requires k < |events|
  {
    || events[k].Reload? || (events[k].ActionStarts? && !Acting(events, k))
    || (events[k].ActionSucceeds? && Acting(events, k))
  }

  ghost predicate Current(events: seq<Event>, j: nat, n: nat)
    requires n <= |events|
  {
    forall k | j <= k < n :: !Outdates(events, k)
  }

  /** Event n shows the list of the poll that started at event j. */
  ghost predicate ShowsPoll(events: seq<Event>, n: nat, j: nat) {
    && n < |events| && events[n].PollEnds? && events[n].usable
    && Polling(events, events[n].id, j, n) && Current(events, j, n)
  }

  /** Event n shows the list that answers an action. */
  ghost predicate ShowsAction(events: seq<Event>, n: nat) {
    n < |events| && events[n].ActionSucceeds? && events[n].usable && Acting(events, n)
  }

  ghost predicate Shows(events: seq<Event>, n: nat) {
    ShowsAction(events, n) || exists j: nat :: ShowsPoll(events, n, j)
  }

  lemma {:induction false} ActingAt(events: seq<Event>, n: nat)
    requires n <= |events|
    ensures At(events, n).now == n && (At(events, n).acting <==> Acting(events, n))
    decreases n
  {
    if n > 0 {
      var last := n - 1;
      AtNext(events, last);
      ActingAt(events, last);
      if Acting(events, last) && !events[last].ActionSucceeds? && !events[last].ActionFails? {
        var j: nat :| j < last && events[j].ActionStarts? && NoActionEnds(events, j, last);
        assert NoActionEnds(events, j, n);
      }
      if events[last].ActionStarts? { assert NoActionEnds(events, last, n); }
      if Acting(events, n) {
        var j: nat :| j < n && events[j].ActionStarts? && NoActionEnds(events, j, n);
        if j < last { assert NoActionEnds(events, j, last); }
      }
    }
  }

  lemma OutdatesAt(events: seq<Event>, k: nat)
    requires k < |events|
    ensures At(events, k + 1).epoch == At(events, k).epoch + if Outdates(events, k) then 1 else 0
  {
    AtNext(events, k);
    ActingAt(events, k);
  }

  lemma {:induction false} CurrentAt(events: seq<Event>, j: nat, n: nat)
    requires j <= n <= |events|
    ensures At(events, j).epoch <= At(events, n).epoch
    ensures At(events, j).epoch == At(events, n).epoch <==> Current(events, j, n)
    decreases n
  {
    if j < n {
      CurrentAt(events, j, n - 1);
      OutdatesAt(events, n - 1);
    }
  }

  /** The polls in flight are those that started and have not ended. */
  lemma {:induction false} PollingAt(events: seq<Event>, id: nat, n: nat)
    requires n <= |events|
    ensures var polls := At(events, n).polls;
      && (forall j: nat | Polling(events, id, j, n) ::
            id in polls && polls[id] == Poll(At(events, j).epoch, j))
      && (id in polls ==> Polling(events, id, polls[id].started, n))
    decreases n
  {
    if n > 0 {
      AtNext(events, n - 1);
      ActingAt(events, n - 1);
      PollingAt(events, id, n - 1);
      forall j: nat | Polling(events, id, j, n)
        ensures id in At(events, n).polls && At(events, n).polls[id] == Poll(At(events, j).epoch, j)
      {
        if j < n - 1 { assert Polling(events, id, j, n - 1); }
      }
    }
  }

  /** An event changes what is on show exactly when it shows something. */
  lemma ShownNext(events: seq<Event>, n: nat)
    requires n < |events|
    ensures ShowsAction(events, n) ==> At(events, n + 1).shown == FromAction(n)
    ensures forall j: nat | ShowsPoll(events, n, j) :: At(events, n + 1).shown == FromPoll(j)
    ensures !Shows(events, n) ==> At(events, n + 1).shown == At(events, n).shown
  {
    AtNext(events, n);
    ActingAt(events, n);
    if events[n].PollEnds? {
      var id := events[n].id;
      PollingAt(events, id, n);
      forall j: nat | ShowsPoll(events, n, j) ensures At(events, n + 1).shown == FromPoll(j) {
        CurrentAt(events, j, n);
      }
      if id in At(events, n).polls {
        var j := At(events, n).polls[id].started;
        CurrentAt(events, j, n);
        assert events[n].usable && Current(events, j, n) ==> ShowsPoll(events, n, j);
      }
    }
  }

  ghost predicate Quiet(events: seq<Event>, i: nat, n: nat) {
    forall k: nat | i <= k < n :: !Shows(events, k)
  }

  lemma {:induction false} ShownStays(events: seq<Event>, i: nat, n: nat)
    requires i <= n <= |events| && Quiet(events, i, n)
    ensures At(events, n).shown == At(events, i).shown
    decreases n
  {
    if i < n {
      ShownStays(events, i, n - 1);
      ShownNext(events, n - 1);
    }
  }

  /** For every run, nothing is on show exactly when no event has shown anything. */
  lemma {:induction false} NothingShown(events: seq<Event>, n: nat)
    requires n <= |events|
    ensures At(events, n).shown == Nothing <==> Quiet(events, 0, n)
    decreases n
  {
    if n > 0 {
      NothingShown(events, n - 1);
      ShownNext(events, n - 1);
    }
  }

  /** For every run, the list on show is the one that the last event to show anything showed. */
  lemma ShownExact(events: seq<Event>, i: nat, n: nat)
    requires i < n <= |events| && Quiet(events, i + 1, n)
    ensures ShowsAction(events, i) ==> At(events, n).shown == FromAction(i)
    ensures forall j: nat | ShowsPoll(events, i, j) :: At(events, n).shown == FromPoll(j)
  {
    ShownNext(events, i);
    ShownStays(events, i + 1, n);
  }

  // ---------------------------------------------------------------------------------------
  // Paging

  const PAGE := 25

  function Least(a: nat, b: nat): nat {
    if a <= b then a else b
  }

  /** The last page's number; an empty list still has page 0. */
  function MaxPage(n: nat): nat {
    if n == 0 then 0 else (n + PAGE - 1) / PAGE - 1
  }

  function Page<T>(rows: seq<T>, page: nat): seq<T> {
    rows[Least(page * PAGE, |rows|)..Least((page + 1) * PAGE, |rows|)]
  }

  function Pages<T>(rows: seq<T>, count: nat): seq<T> {
    if count == 0 then [] else Pages(rows, count - 1) + Page(rows, count - 1)
  }

  lemma {:induction false} PagesPrefix<T>(rows: seq<T>, count: nat)
    ensures Pages(rows, count) == rows[..Least(count * PAGE, |rows|)]
  {
    if count > 0 {
      PagesPrefix(rows, count - 1);
    }
  }

  /** The pages from the first to the last show every row exactly once, in order, and only the last
      page may be short. */
  lemma PagesShowAll<T>(rows: seq<T>)
    ensures Pages(rows, MaxPage(|rows|) + 1) == rows
    ensures forall page: nat | page < MaxPage(|rows|) :: |Page(rows, page)| == 25
    ensures rows != [] ==> 1 <= |Page(rows, MaxPage(|rows|))| <= 25
  {
    PagesPrefix(rows, MaxPage(|rows|) + 1);
    forall page: nat | page < MaxPage(|rows|) ensures |Page(rows, page)| == PAGE {
      assert (page + 1) * PAGE <= MaxPage(|rows|) * PAGE;
    }
  }
}
