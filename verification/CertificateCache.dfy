/** routerd's certificate cache: the refresh at each handshake, the pair of files it may use again, and when
    a cache hit serves a certificate that covers the current inputs. */
module CertificateCache {
  import opened Json
  import opened Certificates

  /** How writing a new pair goes, key first: done, or failed with the old pair kept, with a key that no
      longer fits the certificate, or with the new pair in place although an error was reported. */
  datatype Making =
    | Done(window: Option<(int, int)>)
    | FailedBefore
    | FailedBetween
    | FailedAfter(window: Option<(int, int)>)

  /** `asked` and `returned` are the inputs and the result of the newest refresh that returned a pair;
      `waiting` holds the pairs that a handshake has been given and not yet installed. `disk` is None when
      the files are missing or do not belong together. */
  datatype Tls = Tls(
    key: string, validity: Option<(int, int)>, served: Certificate, asked: Inputs, returned: Certificate,
    disk: Option<Certificate>, waiting: map<nat, Certificate>)

  /** Handshakes, any number at a time. */
  datatype Event =
    | Refresh(id: nat, inputs: Inputs, now: int, making: Making)
    | Install(id: nat, loads: bool)

  predicate Hit(s: Tls, inputs: Inputs, now: int) {
    s.key == Key(inputs) && Within(s.validity, now)
  }

  predicate Reusable(r: Reader, s: Tls, inputs: Inputs, now: int) {
    s.disk.Some? && Within(s.disk.value.window, now) && Covers(r, s.disk.value.sans, inputs)
  }

  function DiskAfter(r: Reader, s: Tls, inputs: Inputs, making: Making): Option<Certificate> {
    match making
    case Done(window) => Some(Certificate(Sans(r, inputs), window))
    case FailedBefore => s.disk
    case FailedBetween => None
    case FailedAfter(window) => Some(Certificate(Sans(r, inputs), window))
  }

  /** `ensure_certificate_with_additional_sans`: the pair on disk if it covers the inputs, else a new one. */
  function Ensured(r: Reader, s: Tls, inputs: Inputs, now: int, making: Making): Option<Certificate> {
    if Reusable(r, s, inputs, now) then s.disk
    else if making.Done? then DiskAfter(r, s, inputs, making)
    else None
  }

  function Taken(s: Tls, id: nat, inputs: Inputs, c: Certificate): Tls {
    s.(key := Key(inputs), validity := c.window, asked := inputs, returned := c, waiting := s.waiting[id := c])
  }

  /** The refresh closure, under the cache lock. */
  function Refreshed(r: Reader, s: Tls, id: nat, inputs: Inputs, now: int, making: Making): Tls {
    if Hit(s, inputs, now) then s
    else
      var c := Ensured(r, s, inputs, now, making);
      var t := if Reusable(r, s, inputs, now) then s else s.(disk := DiskAfter(r, s, inputs, making));
      if c.Some? then Taken(t, id, inputs, c.value) else t
  }

  /** Outside the lock: the pair is served if it loads. */
  function Installed(s: Tls, id: nat, loads: bool): Tls {
    if id !in s.waiting then s
    else s.(served := if loads then s.waiting[id] else s.served, waiting := s.waiting - {id})
  }

  function Next(r: Reader, s: Tls, event: Event): Tls {
    match event
    case Refresh(id, inputs, now, making) => Refreshed(r, s, id, inputs, now, making)
    case Install(id, loads) => Installed(s, id, loads)
  }

  function Run(r: Reader, s: Tls, events: seq<Event>): Tls
    decreases events
  {
    if events == [] then s else Run(r, Next(r, s, events[0]), events[1..])
  }

  lemma RunStep(r: Reader, s: Tls, event: Event, rest: seq<Event>)
    ensures Run(r, s, [event] + rest) == Run(r, Next(r, s, event), rest)
  {
    assert ([event] + rest)[1..] == rest;
  }

  lemma {:induction false} RunAppend(r: Reader, s: Tls, events: seq<Event>, event: Event)
    ensures Run(r, s, events + [event]) == Next(r, Run(r, s, events), event)
    decreases events
  {
    if events == [] {
      RunStep(r, s, event, []);
      assert [] + [event] == [event] + [];
    } else {
      RunAppend(r, Next(r, s, events[0]), events[1..], event);
      assert (events + [event])[1..] == events[1..] + [event];
    }
  }

  /** The run up to an event, and the event itself. */
  lemma RunUpTo(r: Reader, s: Tls, events: seq<Event>, i: nat)
    requires i < |events|
    ensures Run(r, s, events[..i + 1]) == Next(r, Run(r, s, events[..i]), events[i])
  {
    RunAppend(r, s, events[..i], events[i]);
    assert events[..i + 1] == events[..i] + [events[i]];
  }

  /** What a refresh can return: a certificate that covers the inputs, or one made for them. */
  ghost predicate Issued(r: Reader, c: Certificate, inputs: Inputs) {
    Covers(r, c.sans, inputs) || c.sans == Sans(r, inputs)
  }

  /** The cache always describes the pair that was returned last. */
  ghost predicate Described(r: Reader, s: Tls) {
    s.key == Key(s.asked) && s.validity == s.returned.window && Issued(r, s.returned, s.asked)
  }

  /** routerd has just set up and loaded its first pair. */
  ghost predicate Start(r: Reader, s: Tls) {
    s.waiting == map[] && s.served == s.returned && s.disk == Some(s.returned) && Described(r, s)
  }

  lemma {:induction false} RunDescribed(r: Reader, s: Tls, events: seq<Event>)
    requires Described(r, s)
    ensures Described(r, Run(r, s, events))
    decreases events
  {
    if events != [] {
      RunDescribed(r, Next(r, s, events[0]), events[1..]);
    }
  }

  // ---------------------------------------------------------------------------------------
  // What happened, in terms of the events

  /** Event i is a refresh that misses and returns a pair. */
  ghost predicate Returns(r: Reader, s: Tls, events: seq<Event>, i: nat)
    requires i < |events|
  {
    && events[i].Refresh? && !Hit(Run(r, s, events[..i]), events[i].inputs, events[i].now)
    && Ensured(r, Run(r, s, events[..i]), events[i].inputs, events[i].now, events[i].making).Some?
  }

  /** The certificate that it returns. */
  ghost function ReturnedBy(r: Reader, s: Tls, events: seq<Event>, i: nat): Certificate
    requires i < |events| && Returns(r, s, events, i)
  {
    Ensured(r, Run(r, s, events[..i]), events[i].inputs, events[i].now, events[i].making).value
  }

  /** Event i is the newest such refresh. */
  ghost predicate NewestRefresh(r: Reader, s: Tls, events: seq<Event>, i: nat) {
    i < |events| && Returns(r, s, events, i) && forall k | i < k < |events| :: !Returns(r, s, events, k)
  }

  /** Between i and j handshake `id` is given nothing else and installs nothing. */
  ghost predicate Undisturbed(r: Reader, s: Tls, events: seq<Event>, id: nat, i: nat, j: nat)
    requires j <= |events|
  {
    forall k | i < k < j ::
      !(events[k].Install? && events[k].id == id) && !(events[k].id == id && Returns(r, s, events, k))
  }

  /** Event j installs what event i returned, and it loads. */
  ghost predicate Loads(r: Reader, s: Tls, events: seq<Event>, i: nat, j: nat) {
    && i < j < |events| && Returns(r, s, events, i)
    && events[j] == Install(events[i].id, true) && Undisturbed(r, s, events, events[i].id, i, j)
  }

  /** Event j is the last install that loads, and i what it installs. */
  ghost predicate LastLoad(r: Reader, s: Tls, events: seq<Event>, i: nat, j: nat) {
    Loads(r, s, events, i, j) && forall i': nat, j': nat | j < j' :: !Loads(r, s, events, i', j')
  }

  ghost predicate NothingLoads(r: Reader, s: Tls, events: seq<Event>) {
    forall i: nat, j: nat :: !Loads(r, s, events, i, j)
  }

  ghost predicate NothingReturned(r: Reader, s: Tls, events: seq<Event>) {
    forall k | 0 <= k < |events| :: !Returns(r, s, events, k)
  }

  /** The newest refresh is what the state describes. */
  lemma {:induction false} NewestReturned(r: Reader, s: Tls, events: seq<Event>, g: nat, n: nat)
    requires g < n <= |events| && Returns(r, s, events, g) && forall k | g < k < n :: !Returns(r, s, events, k)
    ensures var t := Run(r, s, events[..n]); t.returned == ReturnedBy(r, s, events, g) && t.asked == events[g].inputs
    decreases n
  {
    RunUpTo(r, s, events, n - 1);
    if g < n - 1 {
      NewestReturned(r, s, events, g, n - 1);
      assert !Returns(r, s, events, n - 1);
    }
  }

  /** Without one the cache stands as it was. */
  lemma {:induction false} CacheStands(r: Reader, s: Tls, events: seq<Event>, n: nat)
    requires n <= |events| && forall k | 0 <= k < n :: !Returns(r, s, events, k)
    ensures var t := Run(r, s, events[..n]);
            t.key == s.key && t.validity == s.validity && t.returned == s.returned && t.asked == s.asked
    decreases n
  {
    if n > 0 {
      RunUpTo(r, s, events, n - 1);
      CacheStands(r, s, events, n - 1);
      assert !Returns(r, s, events, n - 1);
    }
  }

  /** What one event does to the pair that waits for a handshake. */
  lemma WaitingStep(r: Reader, s: Tls, events: seq<Event>, id: nat, n: nat)
    requires n < |events|
    ensures var (w, w') := (Run(r, s, events[..n]).waiting, Run(r, s, events[..n + 1]).waiting);
      if events[n].id != id then (id in w <==> id in w') && (id in w ==> w'[id] == w[id])
      else if Returns(r, s, events, n) then id in w' && w'[id] == ReturnedBy(r, s, events, n)
      else if events[n].Install? then id !in w'
      else w' == w
  {
    RunUpTo(r, s, events, n);
  }

  /** A handshake's pair waits from its refresh until its install. */
  lemma {:induction false} Waits(r: Reader, s: Tls, events: seq<Event>, i: nat, n: nat)
    requires i < n <= |events| && Returns(r, s, events, i) && Undisturbed(r, s, events, events[i].id, i, n)
    ensures var w := Run(r, s, events[..n]).waiting;
            events[i].id in w && w[events[i].id] == ReturnedBy(r, s, events, i)
    decreases n
  {
    WaitingStep(r, s, events, events[i].id, n - 1);
    if i < n - 1 { Waits(r, s, events, i, n - 1); }
  }

  /** And nothing waits that no refresh of that handshake put there. */
  lemma {:induction false} WaitsBecause(r: Reader, s: Tls, events: seq<Event>, id: nat, n: nat) returns (i: nat)
    requires s.waiting == map[] && n <= |events| && id in Run(r, s, events[..n]).waiting
    ensures i < n && Returns(r, s, events, i) && events[i].id == id && Undisturbed(r, s, events, id, i, n)
    decreases n
  {
    assert events[..0] == [];
    WaitingStep(r, s, events, id, n - 1);
    if Returns(r, s, events, n - 1) && events[n - 1].id == id {
      i := n - 1;
    } else {
      i := WaitsBecause(r, s, events, id, n - 1);
    }
  }

  /** The last install that loads is what is served. */
  lemma {:induction false} LastServed(r: Reader, s: Tls, events: seq<Event>, l: nat, j: nat, n: nat)
    requires s.waiting == map[] && n <= |events| && j < n && Loads(r, s, events, l, j)
    requires forall i': nat, j': nat | j < j' < n :: !Loads(r, s, events, i', j')
    ensures Run(r, s, events[..n]).served == ReturnedBy(r, s, events, l)
    decreases n
  {
    RunUpTo(r, s, events, n - 1);
    if j == n - 1 {
      Waits(r, s, events, l, n - 1);
    } else {
      LastServed(r, s, events, l, j, n - 1);
      NotLoaded(r, s, events, n - 1);
    }
  }

  lemma NotLoaded(r: Reader, s: Tls, events: seq<Event>, n: nat)
    requires s.waiting == map[] && n < |events| && forall i: nat :: !Loads(r, s, events, i, n)
    ensures Run(r, s, events[..n + 1]).served == Run(r, s, events[..n]).served
  {
    RunUpTo(r, s, events, n);
    if events[n].Install? && events[n].loads && events[n].id in Run(r, s, events[..n]).waiting {
      var i := WaitsBecause(r, s, events, events[n].id, n);
      assert Loads(r, s, events, i, n);
    }
  }

  lemma {:induction false} NeverServed(r: Reader, s: Tls, events: seq<Event>, n: nat)
    requires s.waiting == map[] && n <= |events| && forall i: nat, j: nat | j < n :: !Loads(r, s, events, i, j)
    ensures Run(r, s, events[..n]).served == s.served
    decreases n
  {
    if n > 0 {
      NeverServed(r, s, events, n - 1);
      NotLoaded(r, s, events, n - 1);
    }
  }

  // ---------------------------------------------------------------------------------------
  // When a hit is right

  /** Whatever happened before: a hit serves a certificate that covers the current inputs if and only if
      the certificate served covers what the newest refresh asked for. */
  lemma HitCovers(r: Reader, s: Tls, events: seq<Event>, inputs: Inputs, now: int)
    requires Described(r, s) && Hit(Run(r, s, events), inputs, now)
    requires Proper(r, inputs) && Proper(r, Run(r, s, events).asked)
    ensures var t := Run(r, s, events); Covers(r, t.served.sans, inputs) <==> Covers(r, t.served.sans, t.asked)
  {
    RunDescribed(r, s, events);
    var t := Run(r, s, events);
    KeyFixesCover(r, t.served.sans, t.asked, inputs);
  }

  /** In every run with a newest refresh g and a last loading install of what l returned, a hit serves a covering
      certificate if and only if the one that l returned covers what g asked for, and a valid one if and
      only if that one is still valid. */
  lemma HitExact(r: Reader, s: Tls, events: seq<Event>, g: nat, l: nat, j: nat, inputs: Inputs, now: int)
    requires Start(r, s) && Hit(Run(r, s, events), inputs, now)
    requires NewestRefresh(r, s, events, g) && LastLoad(r, s, events, l, j)
    requires Proper(r, inputs) && Proper(r, events[g].inputs)
    ensures Covers(r, Run(r, s, events).served.sans, inputs) <==>
      Covers(r, ReturnedBy(r, s, events, l).sans, events[g].inputs)
    ensures Within(Run(r, s, events).served.window, now) <==> Within(ReturnedBy(r, s, events, l).window, now)
  {
    assert events[..|events|] == events;
    NewestReturned(r, s, events, g, |events|);
    LastServed(r, s, events, l, j, |events|);
    HitCovers(r, s, events, inputs, now);
  }

  /** Before anything loads, if and only if routerd's first certificate covers what the newest refresh asked
      for, and is still valid. */
  lemma HitBeforeLoad(r: Reader, s: Tls, events: seq<Event>, g: nat, inputs: Inputs, now: int)
    requires Start(r, s) && Hit(Run(r, s, events), inputs, now)
    requires NothingLoads(r, s, events) && NewestRefresh(r, s, events, g)
    requires Proper(r, inputs) && Proper(r, events[g].inputs)
    ensures Covers(r, Run(r, s, events).served.sans, inputs) <==> Covers(r, s.served.sans, events[g].inputs)
    ensures Within(Run(r, s, events).served.window, now) <==> Within(s.served.window, now)
  {
    assert events[..|events|] == events;
    NeverServed(r, s, events, |events|);
    NewestReturned(r, s, events, g, |events|);
    HitCovers(r, s, events, inputs, now);
  }

  /** Before anything is returned, if and only if it covers what it was set up for; and it is valid. */
  lemma HitAtStart(r: Reader, s: Tls, events: seq<Event>, inputs: Inputs, now: int)
    requires Start(r, s) && Hit(Run(r, s, events), inputs, now) && NothingReturned(r, s, events)
    requires Proper(r, inputs) && Proper(r, s.asked)
    ensures Covers(r, Run(r, s, events).served.sans, inputs) <==> Covers(r, s.served.sans, s.asked)
    ensures Within(Run(r, s, events).served.window, now)
  {
    assert events[..|events|] == events;
    NeverServed(r, s, events, |events|);
    CacheStands(r, s, events, |events|);
    RunDescribed(r, s, events);
    HitCovers(r, s, events, inputs, now);
  }

  /** Handshakes one at a time: each installs what it was given, and it loads, before the next refreshes. */
  ghost predicate Orderly(r: Reader, s: Tls, events: seq<Event>)
    decreases events
  {
    events != [] ==>
      && (events[0].Refresh? ==> s.waiting == map[])
      && (events[0].Install? ==> events[0].loads)
      && Orderly(r, Next(r, s, events[0]), events[1..])
  }

  /** At most one pair waits, it is the newest, and without one the newest is served. */
  ghost predicate Current(s: Tls) {
    && (s.waiting == map[] ==> s.served == s.returned)
    && forall id | id in s.waiting :: s.waiting == map[id := s.returned]
  }

  lemma CurrentKept(r: Reader, s: Tls, event: Event)
    requires Current(s) && (event.Refresh? ==> s.waiting == map[]) && (event.Install? ==> event.loads)
    ensures Current(Next(r, s, event))
  {
    match event
    case Refresh(id, inputs, now, making) =>
      if !Hit(s, inputs, now) && Ensured(r, s, inputs, now, making).Some? {
        assert id in Next(r, s, event).waiting;
      }
    case Install(id, loads) =>
      if id in s.waiting { assert s.waiting - {id} == map[]; }
  }

  lemma {:induction false} OrderlyCurrent(r: Reader, s: Tls, events: seq<Event>)
    requires Current(s) && Orderly(r, s, events)
    ensures Current(Run(r, s, events))
    decreases events
  {
    if events != [] {
      CurrentKept(r, s, events[0]);
      OrderlyCurrent(r, Next(r, s, events[0]), events[1..]);
    }
  }

  lemma {:induction false} AskedBecause(r: Reader, s: Tls, events: seq<Event>, n: nat, holds: Inputs -> bool)
    requires n <= |events| && holds(s.asked) && forall k | 0 <= k < n && events[k].Refresh? :: holds(events[k].inputs)
    ensures holds(Run(r, s, events[..n]).asked)
    decreases n
  {
    if n > 0 {
      RunUpTo(r, s, events, n - 1);
      AskedBecause(r, s, events, n - 1, holds);
    }
  }

  /** In every orderly run that has come to rest, a hit serves a certificate inside its validity, and that
      covers the current inputs if and only if none of the host names asked for reads as a foreign address,
      or the certificate was made for other inputs and used again because it covers these. */
  lemma OrderlyHits(r: Reader, s: Tls, events: seq<Event>, inputs: Inputs, now: int)
    requires Start(r, s) && Orderly(r, s, events) && Run(r, s, events).waiting == map[]
    requires Hit(Run(r, s, events), inputs, now) && Proper(r, inputs)
    requires Plain(s.asked) && Validated(r, s.asked)
    requires forall k | 0 <= k < |events| && events[k].Refresh? ::
      Plain(events[k].inputs) && Validated(r, events[k].inputs)
    ensures var t := Run(r, s, events);
      && Within(t.served.window, now)
      && (Covers(r, t.served.sans, inputs) <==> AllPlaced(r, t.asked) || t.served.sans != Sans(r, t.asked))
  {
    OrderlyCurrent(r, s, events);
    RunDescribed(r, s, events);
    assert events[..|events|] == events;
    AskedBecause(r, s, events, |events|, i => Plain(i) && Validated(r, i));
    HitCovers(r, s, events, inputs, now);
    MadeCovers(r, Run(r, s, events).asked);
  }

  // ---------------------------------------------------------------------------------------
  // Runs that go wrong, and one that does not

  lemma RunOne(r: Reader, s: Tls, a: Event)
    ensures Run(r, s, [a]) == Next(r, s, a)
  {
    RunStep(r, s, a, []);
    assert [a] == [a] + [];
  }

  lemma RunTwo(r: Reader, s: Tls, a: Event, b: Event)
    ensures Run(r, s, [a, b]) == Next(r, Next(r, s, a), b)
  {
    RunStep(r, s, a, [b]);
    RunOne(r, Next(r, s, a), b);
    assert [a, b] == [a] + [b];
  }

  lemma RunFour(r: Reader, s: Tls, a: Event, b: Event, c: Event, d: Event)
    ensures Run(r, s, [a, b, c, d]) == Next(r, Next(r, Next(r, Next(r, s, a), b), c), d)
  {
    RunStep(r, s, a, [b, c, d]);
    RunStep(r, Next(r, s, a), b, [c, d]);
    RunTwo(r, Next(r, Next(r, s, a), b), c, d);
    assert [a, b, c, d] == [a] + [b, c, d] && [b, c, d] == [b] + [c, d];
  }

  /** A pair that does not load is never asked for again while the inputs stay: from any state, the next
      handshake hits and the old certificate is served. */
  lemma FailedLoadSticks(r: Reader, s: Tls, id: nat, inputs: Inputs, now: int, making: Making)
    requires !Hit(s, inputs, now)
    requires var c := Ensured(r, s, inputs, now, making); c.Some? && Within(c.value.window, now)
    ensures var t := Run(r, s, [Refresh(id, inputs, now, making), Install(id, false)]);
            Hit(t, inputs, now) && t.served == s.served
  {
    RunTwo(r, s, Refresh(id, inputs, now, making), Install(id, false));
  }

  /** So a renewal that does not load leaves the lapsed certificate behind a hit. */
  lemma LapsedServed(r: Reader, s: Tls, id: nat, inputs: Inputs, now: int, window: Option<(int, int)>)
    requires Start(r, s) && !Within(s.served.window, now) && Within(window, now)
    ensures var t := Run(r, s, [Refresh(id, inputs, now, Done(window)), Install(id, false)]);
            Hit(t, inputs, now) && !Within(t.served.window, now)
  {
    FailedLoadSticks(r, s, id, inputs, now, Done(window));
  }

  /** Two refreshes that both miss, before either is installed. */
  lemma Overlapping(r: Reader, s: Tls, a: Inputs, b: Inputs, now: int, making: Making, window: Option<(int, int)>)
    requires !Hit(s, a, now) && Key(a) != Key(b) && Within(window, now)
    requires var c := Ensured(r, s, a, now, making); c.Some? && Within(c.value.window, now)
    ensures var t := Next(r, Next(r, s, Refresh(0, a, now, making)), Refresh(1, b, now, Done(window)));
            && Hit(t, b, now) && t.waiting.Keys >= {0, 1} && t.waiting[0] == Ensured(r, s, a, now, making).value
  {
    var t := Next(r, s, Refresh(0, a, now, making));
    assert 0 in t.waiting && !Hit(t, b, now);
    assert Ensured(r, t, b, now, Done(window)).Some?;
  }

  /** Two handshakes that overlap and install in the wrong order: the cache then describes the second, and
      what is served covers its inputs if and only if the first one's certificate does. */
  lemma OvertakenInstall(r: Reader, s: Tls, a: Inputs, b: Inputs, now: int, making: Making, window: Option<(int, int)>)
    requires !Hit(s, a, now) && Key(a) != Key(b) && Within(window, now)
    requires var c := Ensured(r, s, a, now, making); c.Some? && Within(c.value.window, now)
    ensures var t := Run(r, s, [Refresh(0, a, now, making), Refresh(1, b, now, Done(window)),
                                Install(1, true), Install(0, true)]);
            Hit(t, b, now) &&
            (Covers(r, t.served.sans, b) <==> Covers(r, Ensured(r, s, a, now, making).value.sans, b))
  {
    RunFour(r, s, Refresh(0, a, now, making), Refresh(1, b, now, Done(window)), Install(1, true), Install(0, true));
    Overlapping(r, s, a, b, now, making, window);
  }

  /** So a new pair for one LAN address, installed late, hides the one for another. */
  lemma MovedLanOvertaken(r: Reader, s: Tls, a: Inputs, b: Inputs, now: int, window: Option<(int, int)>)
    requires !Hit(s, a, now) && Key(a) != Key(b) && Within(window, now) && !Reusable(r, s, a, now)
    requires r.ip(b.lan).Some? && r.ip(b.lan).value !in Addresses(r, a)
    ensures var t := Run(r, s, [Refresh(0, a, now, Done(window)), Refresh(1, b, now, Done(window)),
                                Install(1, true), Install(0, true)]);
            Hit(t, b, now) && !Covers(r, t.served.sans, b)
  {
    OvertakenInstall(r, s, a, b, now, Done(window), window);
    MovedLanUncovered(r, a, b);
  }

  /** A router whose host name reads as a foreign address is served a new certificate that does not cover it. */
  lemma AddressNamedHost(r: Reader, s: Tls, inputs: Inputs, now: int, window: Option<(int, int)>)
    requires !Hit(s, inputs, now) && Within(window, now) && !Reusable(r, s, inputs, now)
    requires Validated(r, inputs) && !AllPlaced(r, inputs)
    ensures var t := Run(r, s, [Refresh(0, inputs, now, Done(window)), Install(0, true)]);
            Hit(t, inputs, now) && t.served.sans == Sans(r, inputs) && !Covers(r, t.served.sans, inputs)
  {
    RunTwo(r, s, Refresh(0, inputs, now, Done(window)), Install(0, true));
    MadeCovers(r, inputs);
  }

  /** A change is dropped after its names were served: the refresh for the canonical inputs returns the same
      pair, so a hit is right although nothing was installed for it. */
  lemma DroppedChange(r: Reader, s: Tls, i: Inputs, now: int, making: Making, later: Making)
    requires !Hit(s, i, now) && Key(i) != Key(i.(ips := [], names := []))
    requires var c := Ensured(r, s, i, now, making);
             c.Some? && Within(c.value.window, now) && Covers(r, c.value.sans, i)
    ensures var canonical := i.(ips := [], names := []);
            var t := Run(r, s, [Refresh(0, i, now, making), Install(0, true), Refresh(1, canonical, now, later)]);
            Hit(t, canonical, now) && t.returned == t.served && Covers(r, t.served.sans, canonical)
  {
    var canonical := i.(ips := [], names := []);
    var (first, last) := (Refresh(0, i, now, making), Refresh(1, canonical, now, later));
    RunStep(r, s, first, [Install(0, true), last]);
    RunTwo(r, Next(r, s, first), Install(0, true), last);
    assert [first, Install(0, true), last] == [first] + [Install(0, true), last];
    CoversCanonical(r, Ensured(r, s, i, now, making).value.sans, i);
  }

  /** A hit lasts, through any run that returns nothing, until thirty days before the certificate expires. */
  lemma HitLasts(r: Reader, s: Tls, events: seq<Event>, inputs: Inputs, now: int, later: int)
    requires Hit(s, inputs, now) && now <= later && NothingReturned(r, s, events)
    ensures Hit(Run(r, s, events), inputs, later) <==> later + 30 * 86_400 <= s.validity.value.1
    ensures s.validity.value.0 <= now
  {
    assert events[..|events|] == events;
    CacheStands(r, s, events, |events|);
  }

  // ---------------------------------------------------------------------------------------
  // Retrying

  /** After any miss, and through any run of failed refreshes and installs, a later handshake with those
      inputs misses again, except when the cached certificate for them has only just become valid. */
  lemma FailedRefreshRetried(r: Reader, s: Tls, events: seq<Event>, inputs: Inputs, now: int, later: int)
    requires !Hit(s, inputs, now) && now <= later && NothingReturned(r, s, events)
    ensures Hit(Run(r, s, events), inputs, later) <==>
      s.key == Key(inputs) && Within(s.validity, later) && now < s.validity.value.0
  {
    assert events[..|events|] == events;
    CacheStands(r, s, events, |events|);
  }

  /** And the first such handshake that finds or makes a pair serves it: one that covers the inputs, or one
      made for them. */
  lemma RetryServes(r: Reader, s: Tls, events: seq<Event>, id: nat, inputs: Inputs, later: int, making: Making)
    requires NothingReturned(r, s, events) && !Hit(s, inputs, later)
    requires Reusable(r, Run(r, s, events), inputs, later) || making.Done?
    ensures var t := Run(r, s, events + [Refresh(id, inputs, later, making), Install(id, true)]);
            t.served == t.returned && t.asked == inputs && Issued(r, t.served, inputs) && t.disk == Some(t.served)
  {
    var retry, install := Refresh(id, inputs, later, making), Install(id, true);
    assert events[..|events|] == events;
    CacheStands(r, s, events, |events|);
    RunAppend(r, s, events, retry);
    RunAppend(r, s, events + [retry], install);
    assert events + [retry, install] == events + [retry] + [install];
  }
}
