// The life of stream handlers in the server (starcoder.go): registration, any number of
// requests to deregister, and shutdown, under every interleaving of the manager goroutine with
// the handlers' goroutines.
module StreamLifecycle {

  type Handler = nat

  // The manager: serving requests, closing the handlers that are left one by one, or gone.
  datatype Manager = Serving | ClosingAll(todo: set<Handler>) | Gone

  // created: handlers that exist. offered: those waiting to be registered. registered: the
  // manager's map. leaving: goroutines that wait to hand in a request to deregister.
  // closes: how often each handler was closed. gauge: the flowgraph count that is published.
  datatype State = State(
    manager: Manager,
    created: set<Handler>,
    offered: set<Handler>,
    registered: set<Handler>,
    leaving: multiset<Handler>,
    closes: multiset<Handler>,
    gauge: int)

  const INITIAL := State(Serving, {}, {}, {}, multiset{}, multiset{}, 0)

  // Close may itself report an error, which asks for deregistration once more.
  datatype Event =
    | Create(h: Handler)
    | Register(h: Handler)
    | Finish(h: Handler)
    | Deregister(h: Handler, failed: bool)
    | Shutdown
    | CloseNext(h: Handler, failed: bool)
    | Stop

  predicate Enabled(s: State, e: Event) {
    match e
    case Create(h) => h !in s.created
    case Register(h) => s.manager == Serving && h in s.offered
    case Finish(h) => h in s.created
    case Deregister(h, failed) => s.manager == Serving && h in s.leaving
    case Shutdown => s.manager == Serving
    case CloseNext(h, failed) => s.manager.ClosingAll? && h in s.manager.todo
    case Stop => s.manager == ClosingAll({})
  }

  function Next(s: State, e: Event): State
    requires Enabled(s, e)
  {
    match e
    case Create(h) => s.(created := s.created + {h}, offered := s.offered + {h})
    case Register(h) => s.(offered := s.offered - {h}, registered := s.registered + {h}, gauge := s.gauge + 1)
    case Finish(h) => s.(leaving := s.leaving + multiset{h})
    case Deregister(h, failed) =>
      var leaving := s.leaving - multiset{h};
      if h in s.registered then
        s.(leaving := if failed then leaving + multiset{h} else leaving,
           registered := s.registered - {h}, closes := s.closes + multiset{h}, gauge := s.gauge - 1)
      else s.(leaving := leaving)
    case Shutdown => s.(manager := ClosingAll(s.registered))
    case CloseNext(h, failed) =>
      s.(manager := ClosingAll(s.manager.todo - {h}), closes := s.closes + multiset{h},
         leaving := if failed then s.leaving + multiset{h} else s.leaving)
    case Stop => s.(manager := Gone)
  }

  predicate IsRun(s: State, events: seq<Event>)
    decreases |events|
  {
    |events| == 0 || (Enabled(s, events[0]) && IsRun(Next(s, events[0]), events[1..]))
  }

  function Exec(s: State, events: seq<Event>): State
    requires IsRun(s, events)
    decreases |events|
  {
    if |events| == 0 then s else Exec(Next(s, events[0]), events[1..])
  }

  // The handlers that the manager still has to close.
  function Open(s: State): set<Handler> {
    match s.manager
    case Serving => s.registered
    case ClosingAll(todo) => todo
    case Gone => {}
  }

  // Each handler is in one place: offered, to be closed, or closed once.
  ghost predicate Inv(s: State) {
    s.offered <= s.created && s.registered <= s.created && Open(s) <= s.registered &&
    s.offered !! s.registered &&
    s.gauge == |s.registered| &&
    (forall h :: h in s.leaving ==> h in s.created) &&
    forall h: Handler {:trigger s.closes[h]} ::
      s.closes[h] == if h in s.created && h !in s.offered && h !in Open(s) then 1 else 0
  }

  lemma StepKeeps(s: State, e: Event)
    requires Inv(s) && Enabled(s, e)
    ensures Inv(Next(s, e))
  {}

  lemma {:induction false} RunKeeps(s: State, events: seq<Event>)
    requires Inv(s) && IsRun(s, events)
    ensures Inv(Exec(s, events))
    decreases |events|
  {
    hide Inv, Enabled, Next;
    if |events| > 0 {
      StepKeeps(s, events[0]);
      RunKeeps(Next(s, events[0]), events[1..]);
    }
  }

  lemma Reachable(events: seq<Event>)
    requires IsRun(INITIAL, events)
    ensures Inv(Exec(INITIAL, events))
  {
    RunKeeps(INITIAL, events);
  }

  // ----- what every run keeps -----------------------------------------------------------

  // No handler is ever closed twice, so its stop channel is closed at most once, however often
  // deregistration is asked for, whether before registration, after it or after shutdown.
  lemma ClosedAtMostOnce(events: seq<Event>, h: Handler)
    requires IsRun(INITIAL, events)
    ensures Exec(INITIAL, events).closes[h] <= 1
  {
    Reachable(events);
  }

  // Until shutdown the published count is the number of registered handlers, and those are
  // exactly the handlers that have been taken in and not closed.
  lemma GaugeCounts(events: seq<Event>, h: Handler)
    requires IsRun(INITIAL, events) && Exec(INITIAL, events).manager == Serving
    ensures var s := Exec(INITIAL, events);
      s.gauge == |s.registered| && (h in s.registered <==> h in s.created && h !in s.offered && s.closes[h] == 0)
  {
    Reachable(events);
  }

  // When the manager is gone, every handler that it took in has been closed.
  lemma ShutdownClosesAll(events: seq<Event>, h: Handler)
    requires IsRun(INITIAL, events) && Exec(INITIAL, events).manager == Gone
    ensures var s := Exec(INITIAL, events);
      h in s.created && h !in s.offered ==> s.closes[h] == 1
  {
    Reachable(events);
  }

  // Shutdown is never stuck, and takes one step for each handler that is left.
  lemma ShutdownReturns(s: State)
    requires s.manager.ClosingAll?
    ensures exists e :: Enabled(s, e) && (e.CloseNext? || e == Stop)
    ensures forall h, failed :: Enabled(s, CloseNext(h, failed)) ==>
      Next(s, CloseNext(h, failed)).manager.ClosingAll? && |Next(s, CloseNext(h, failed)).manager.todo| == |s.manager.todo| - 1
  {
    if s.manager.todo == {} {
      assert Enabled(s, Stop);
    } else {
      var h :| h in s.manager.todo;
      assert Enabled(s, CloseNext(h, false));
    }
  }

  // ----- which requests close a handler -------------------------------------------------

  lemma {:induction false} RunSplit(s: State, a: seq<Event>, e: Event)
    requires IsRun(s, a + [e])
    ensures IsRun(s, a) && Enabled(Exec(s, a), e) && Exec(s, a + [e]) == Next(Exec(s, a), e)
    decreases |a|
  {
    hide Next, Enabled;
    if |a| == 0 {
      assert a + [e] == [e] && [e][1..] == [];
    } else {
      assert (a + [e])[1..] == a[1..] + [e];
      RunSplit(Next(s, a[0]), a[1..], e);
    }
  }

  // The handler was registered in the course of the events.
  predicate Taken(events: seq<Event>, h: Handler) {
    Register(h) in events
  }

  // A request to deregister the handler was taken in after its registration.
  predicate Asked(events: seq<Event>, h: Handler)
    decreases |events|
  {
    |events| > 0 &&
    var before, e := events[..|events| - 1], events[|events| - 1];
    (Asked(before, h) || (Taken(before, h) && e.Deregister? && e.h == h))
  }

  predicate Serves(events: seq<Event>) {
    Shutdown !in events
  }

  // Without shutdown, a handler is closed just when a request came in after its registration.
  // A request that is taken in earlier is consumed without effect.
  lemma {:induction false} ClosedWhenAsked(events: seq<Event>, h: Handler)
    requires IsRun(INITIAL, events) && Serves(events)
    ensures var s := Exec(INITIAL, events);
      s.manager == Serving && (h in s.created && h !in s.offered <==> Taken(events, h)) && (s.closes[h] == 1 <==> Asked(events, h))
    decreases |events|
  {
    hide Inv;
    if |events| > 0 {
      var before, e := events[..|events| - 1], events[|events| - 1];
      assert events == before + [e];
      RunSplit(INITIAL, before, e);
      ClosedWhenAsked(before, h);
      Reachable(before);
      LastEvent(Exec(INITIAL, before), before, e, h);
    }
  }

  lemma LastEvent(s: State, before: seq<Event>, e: Event, h: Handler)
    requires Inv(s) && Enabled(s, e) && s.manager == Serving && e != Shutdown
    requires (h in s.created && h !in s.offered <==> Taken(before, h)) && (s.closes[h] == 1 <==> Asked(before, h))
    ensures var t := Next(s, e);
      t.manager == Serving && (h in t.created && h !in t.offered <==> Taken(before + [e], h)) && (t.closes[h] == 1 <==> Asked(before + [e], h))
  {
    assert (before + [e])[..|before|] == before;
    assert Taken(before + [e], h) <==> Taken(before, h) || e == Register(h);
  }

  // So a handler that finishes before it is registered can stay registered for good.
  lemma EarlyFinishIsLost(h: Handler)
    ensures var events := [Create(h), Finish(h), Deregister(h, false), Register(h)];
      IsRun(INITIAL, events) && var s := Exec(INITIAL, events);
      h in s.registered && s.leaving == multiset{} && s.closes[h] == 0
  {
    var s1 := Next(INITIAL, Create(h));
    var s2 := Next(s1, Finish(h));
    var s3 := Next(s2, Deregister(h, false));
    var s4 := Next(s3, Register(h));
    var e := [Create(h), Finish(h), Deregister(h, false), Register(h)];
    assert e[1..] == [Finish(h), Deregister(h, false), Register(h)];
    assert e[1..][1..] == [Deregister(h, false), Register(h)];
    assert e[1..][1..][1..] == [Register(h)];
    assert e[1..][1..][1..][1..] == [];
    assert IsRun(s4, []) && Exec(s4, []) == s4;
    assert IsRun(s3, [Register(h)]) && Exec(s3, [Register(h)]) == s4;
    assert IsRun(s2, [Deregister(h, false), Register(h)]) && Exec(s2, [Deregister(h, false), Register(h)]) == s4;
    assert IsRun(s1, e[1..]) && Exec(s1, e[1..]) == s4;
  }

  // ----- what the events so far make possible -------------------------------------------

  // How often deregistration of the handler has been asked for: by finishing, and by a close that failed.
  function Asks(events: seq<Event>, h: Handler): nat
    decreases |events|
  {
    if |events| == 0 then 0
    else
      var before, e := events[..|events| - 1], events[|events| - 1];
      Asks(before, h) +
      if e == Finish(h) || e == CloseNext(h, true) || (e == Deregister(h, true) && Taken(before, h) && !Asked(before, h)) then 1 else 0
  }

  // How many of these requests the manager has taken in.
  function TakenIn(events: seq<Event>, h: Handler): nat
    decreases |events|
  {
    if |events| == 0 then 0
    else
      var e := events[|events| - 1];
      TakenIn(events[..|events| - 1], h) + if e.Deregister? && e.h == h then 1 else 0
  }

  predicate ClosedAtEnd(events: seq<Event>, h: Handler) {
    CloseNext(h, false) in events || CloseNext(h, true) in events
  }

  // The handler is registered and the manager has still to close it.
  predicate IsOpen(events: seq<Event>, h: Handler) {
    Taken(events, h) && !Asked(events, h) && !ClosedAtEnd(events, h)
  }

  // What may happen next, read off the events alone.
  ghost predicate Possible(events: seq<Event>, e: Event) {
    match e
    case Create(h) => Create(h) !in events
    case Register(h) => Serves(events) && Create(h) in events && !Taken(events, h)
    case Finish(h) => Create(h) in events
    case Deregister(h, failed) => Serves(events) && TakenIn(events, h) < Asks(events, h)
    case Shutdown => Serves(events)
    case CloseNext(h, failed) => !Serves(events) && Stop !in events && IsOpen(events, h)
    case Stop => !Serves(events) && Stop !in events && forall h: Handler :: !IsOpen(events, h)
  }

  // The state is what the events say.
  ghost predicate Told(events: seq<Event>, s: State, h: Handler) {
    (h in s.created <==> Create(h) in events) && (Taken(events, h) ==> Create(h) in events) &&
    (h in s.offered <==> Create(h) in events && !Taken(events, h)) &&
    (h in s.registered <==> Taken(events, h) && !Asked(events, h)) &&
    s.leaving[h] + TakenIn(events, h) == Asks(events, h) &&
    (h in Open(s) <==> Stop !in events && IsOpen(events, h))
  }

  ghost predicate Managed(events: seq<Event>, s: State) {
    (s.manager == Serving <==> Serves(events)) && (s.manager == Gone <==> Stop in events) &&
    (Serves(events) ==> Stop !in events && forall h: Handler :: !ClosedAtEnd(events, h))
  }

  lemma MoreEvents(before: seq<Event>, e: Event, h: Handler)
    ensures var events := before + [e];
      (Taken(events, h) <==> Taken(before, h) || e == Register(h)) &&
      (Asked(events, h) <==> Asked(before, h) || (Taken(before, h) && e.Deregister? && e.h == h)) &&
      Asks(events, h) == Asks(before, h) + (if e == Finish(h) || e == CloseNext(h, true) || (e == Deregister(h, true) && Taken(before, h) && !Asked(before, h)) then 1 else 0) &&
      TakenIn(events, h) == TakenIn(before, h) + (if e.Deregister? && e.h == h then 1 else 0) &&
      (ClosedAtEnd(events, h) <==> ClosedAtEnd(before, h) || (e.CloseNext? && e.h == h)) &&
      (Serves(events) <==> Serves(before) && e != Shutdown) &&
      (forall f :: f in events <==> f in before || f == e)
  {
    assert (before + [e])[..|before|] == before;
  }

  lemma ToldMore(before: seq<Event>, s: State, e: Event, h: Handler)
    requires Told(before, s, h) && Managed(before, s) && Enabled(s, e)
    ensures Told(before + [e], Next(s, e), h)
  {
    hide Taken, Asked, Asks, TakenIn, ClosedAtEnd, Serves;
    MoreEvents(before, e, h);
    AskedAfterTaken(before, h);
  }

  lemma {:induction false} AskedAfterTaken(events: seq<Event>, h: Handler)
    ensures Asked(events, h) ==> Taken(events, h)
    decreases |events|
  {
    if |events| > 0 {
      AskedAfterTaken(events[..|events| - 1], h);
    }
  }

  lemma ManagedMore(before: seq<Event>, s: State, e: Event)
    requires Managed(before, s) && Enabled(s, e)
    ensures Managed(before + [e], Next(s, e))
  {
    hide Taken, Asked, Asks, TakenIn, ClosedAtEnd, Serves;
    forall h: Handler
      ensures ClosedAtEnd(before + [e], h) <==> ClosedAtEnd(before, h) || (e.CloseNext? && e.h == h)
    {
      MoreEvents(before, e, h);
    }
    MoreEvents(before, e, 0);
  }

  lemma {:induction false} History(events: seq<Event>)
    requires IsRun(INITIAL, events)
    ensures Managed(events, Exec(INITIAL, events)) && forall h: Handler :: Told(events, Exec(INITIAL, events), h)
    decreases |events|
  {
    hide Told, Managed, Enabled, Next;
    if |events| == 0 {
      NothingToTell(events);
    } else {
      var before, e := events[..|events| - 1], events[|events| - 1];
      assert events == before + [e];
      RunSplit(INITIAL, before, e);
      History(before);
      var s := Exec(INITIAL, before);
      ManagedMore(before, s, e);
      forall h: Handler
        ensures Told(events, Exec(INITIAL, events), h)
      {
        ToldMore(before, s, e, h);
      }
    }
  }

  lemma NothingToTell(events: seq<Event>)
    requires |events| == 0
    ensures Managed(events, INITIAL) && forall h: Handler :: Told(events, INITIAL, h)
  {}

  // After any run, the next event can be any that the events allow, and no other.
  lemma RunsExactly(events: seq<Event>, e: Event)
    requires IsRun(INITIAL, events)
    ensures IsRun(INITIAL, events + [e]) <==> Possible(events, e)
  {
    hide Taken, Asked, Asks, TakenIn, ClosedAtEnd, Serves, IsOpen, Next, IsRun, Exec;
    History(events);
    var s := Exec(INITIAL, events);
    if IsRun(INITIAL, events + [e]) {
      RunSplit(INITIAL, events, e);
    }
    if Enabled(s, e) {
      RunMore(INITIAL, events, e);
    }
    EnabledIsPossible(events, s, e);
  }

  lemma EnabledIsPossible(events: seq<Event>, s: State, e: Event)
    requires Managed(events, s) && forall h: Handler :: Told(events, s, h)
    ensures Enabled(s, e) <==> Possible(events, e)
  {
    hide Taken, Asked, Asks, TakenIn, ClosedAtEnd, Serves, IsOpen;
    if !e.Shutdown? && !e.Stop? {
      assert Told(events, s, e.h);
    } else if e == Stop && s.manager.ClosingAll? {
      if s.manager.todo == {} {
        forall h: Handler
          ensures !IsOpen(events, h)
        {
          assert Told(events, s, h);
        }
      } else {
        var h :| h in s.manager.todo;
        assert Told(events, s, h);
      }
    }
  }

  lemma {:induction false} RunMore(s: State, events: seq<Event>, e: Event)
    requires IsRun(s, events) && Enabled(Exec(s, events), e)
    ensures IsRun(s, events + [e]) && Exec(s, events + [e]) == Next(Exec(s, events), e)
    decreases |events|
  {
    hide Next, Enabled;
    if |events| == 0 {
      assert events + [e] == [e] && [e][1..] == [];
    } else {
      assert (events + [e])[1..] == events[1..] + [e];
      RunMore(Next(s, events[0]), events[1..], e);
    }
  }

  // Whatever has happened, while the manager serves a registered handler that finishes is closed
  // as soon as its request is taken in, which it can be at once.
  lemma FinishedIsClosed(events: seq<Event>, h: Handler, failed: bool)
    requires IsRun(INITIAL, events) && Exec(INITIAL, events).manager == Serving && h in Exec(INITIAL, events).registered
    ensures var more := events + [Finish(h)] + [Deregister(h, failed)];
      IsRun(INITIAL, more) && var s, t := Exec(INITIAL, events), Exec(INITIAL, more);
      t.closes[h] == 1 && h !in t.registered && t.gauge == s.gauge - 1 && t.registered == s.registered - {h} && t.manager == Serving
  {
    hide IsRun, Exec;
    Reachable(events);
    RunMore(INITIAL, events, Finish(h));
    RunMore(INITIAL, events + [Finish(h)], Deregister(h, failed));
  }

  // No request is ever stuck while the manager serves.
  lemma RequestsGetThrough(events: seq<Event>, h: Handler, failed: bool)
    requires IsRun(INITIAL, events) && Serves(events) && TakenIn(events, h) < Asks(events, h)
    ensures IsRun(INITIAL, events + [Deregister(h, failed)])
  {
    hide IsRun, Exec, Serves, TakenIn, Asks;
    RunsExactly(events, Deregister(h, failed));
  }
}
