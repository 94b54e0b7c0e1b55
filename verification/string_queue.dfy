// The bounded queue between a flowgraph block and the server (string_queue.cc), and the loop
// that sends what comes out of it to the client (observableQueueLoop in starcoder.go), under
// every interleaving of their atomic steps.
module StringQueues {

  // ----- the queue ----------------------------------------------------------------------

  // A serialized message; wellFormed says whether a response can be built from it.
  datatype Message = Message(bytes: seq<bv8>, wellFormed: bool)

  datatype Option<T> = None | Some(value: T)

  // Larger messages are taken out and thrown away.
  const SIZE_LIMIT := 10_485_760

  // An empty string tells the consumer that nothing came.
  predicate Hollow(m: Message) {
    |m.bytes| == 0 || |m.bytes| > SIZE_LIMIT
  }

  function Pushed(items: seq<Message>, capacity: nat, m: Message): seq<Message> {
    if |items| < capacity then items + [m] else items
  }

  function Popped(items: seq<Message>): seq<Message> {
    if |items| == 0 then [] else items[1..]
  }

  function Returned(items: seq<Message>): (r: Option<Message>)
    ensures r.Some? <==> |items| > 0 && 0 < |items[0].bytes| <= 10_485_760
    ensures r.Some? ==> r.value == items[0]
  {
    if |items| == 0 || Hollow(items[0]) then None else Some(items[0])
  }

  class StringQueue {
    const capacity: nat
    var items: seq<Message>
    var isClosed: bool

    constructor (bufferSize: nat)
      ensures capacity == bufferSize && items == [] && !isClosed
    {
      capacity, items, isClosed := bufferSize, [], false;
    }

    // A full queue drops the message.
    method Push(m: Message)
      modifies this`items
      ensures items == Pushed(old(items), capacity, m)
    {
      if |items| < capacity {
        items := items + [m];
      }
    }

    method Pop() returns (r: Option<Message>)
      modifies this`items
      ensures items == Popped(old(items)) && r == Returned(old(items))
    {
      r := None;
      if |items| > 0 {
        var a := items[0];
        items := items[1..];
        if 0 < |a.bytes| <= SIZE_LIMIT {
          r := Some(a);
        }
      }
    }

    // Returns once the wait is over: something is there, or the queue is closed.
    method BlockingPop() returns (r: Option<Message>)
      requires items != [] || isClosed
      modifies this`items
      ensures items == Popped(old(items)) && r == Returned(old(items))
    {
      r := Pop();
    }

    method Close()
      modifies this`isClosed
      ensures isClosed
    {
      isClosed := true;
    }

    method Closed() returns (c: bool)
      ensures c == isClosed
    {
      c := isClosed;
    }
  }

  // ----- the sending loop and its surroundings ------------------------------------------

  // Where the loop is.
  datatype Phase = Waiting | Sending(m: Message) | Checking | Draining | DrainSending(last: Message) | Done

  // accepted and sent record every message that was ever pushed with success or sent.
  datatype State = State(items: seq<Message>, capacity: nat, closed: bool, phase: Phase, accepted: seq<Message>, sent: seq<Message>)

  datatype Event = Push(m: Message) | CloseQueue | BlockingPop | Send(ok: bool) | Check | DrainPop | DrainSend(done: bool)

  function Start(capacity: nat): State {
    State([], capacity, false, Waiting, [], [])
  }

  // The producer pushes only while the queue is open.
  predicate Enabled(s: State, e: Event) {
    match e
    case Push(m) => !s.closed
    case CloseQueue => true
    case BlockingPop => s.phase == Waiting && (s.items != [] || s.closed)
    case Send(ok) => s.phase.Sending?
    case Check => s.phase == Checking
    case DrainPop => s.phase == Draining
    case DrainSend(ok) => s.phase.DrainSending?
  }

  function Next(s: State, e: Event): State
    requires Enabled(s, e)
  {
    match e
    case Push(m) =>
      s.(items := Pushed(s.items, s.capacity, m), accepted := if |s.items| < s.capacity then s.accepted + [m] else s.accepted)
    case CloseQueue => s.(closed := true)
    case BlockingPop =>
      var phase := match Returned(s.items)
        case None => Checking
        case Some(m) => if m.wellFormed then Sending(m) else Waiting;
      s.(items := Popped(s.items), phase := phase)
    case Send(ok) =>
      if ok then s.(phase := Checking, sent := s.sent + [s.phase.m]) else s.(phase := Done)
    case Check => s.(phase := if s.closed then Draining else Waiting)
    case DrainPop =>
      var phase := match Returned(s.items)
        case None => Done
        case Some(m) => if m.wellFormed then DrainSending(m) else Draining;
      s.(items := Popped(s.items), phase := phase)
    case DrainSend(ok) =>
      s.(phase := Draining, sent := if ok then s.sent + [s.phase.last] else s.sent)
  }

  // A run: each event is enabled when it happens.
  predicate IsRun(s: State, events: seq<Event>)
    decreases |events|
  {
    |events| == 0 || (Enabled(s, events[0]) && IsRun(Next(s, events[0]), events[1..]))
  }

  predicate Succeeds(e: Event) {
    e != Send(false) && e != DrainSend(false)
  }

  // Every send to the client succeeds.
  predicate AllSucceed(events: seq<Event>) {
    forall i :: 0 <= i < |events| ==> Succeeds(events[i])
  }

  function Exec(s: State, events: seq<Event>): State
    requires IsRun(s, events)
    decreases |events|
  {
    if |events| == 0 then s else Exec(Next(s, events[0]), events[1..])
  }

  // ----- what is sent -------------------------------------------------------------------

  predicate Good(m: Message) {
    !Hollow(m) && m.wellFormed
  }

  // The messages that can be sent at all.
  function Sendable(ms: seq<Message>): seq<Message> {
    if |ms| == 0 then []
    else Sendable(ms[..|ms| - 1]) + if Good(ms[|ms| - 1]) then [ms[|ms| - 1]] else []
  }

  function InHand(p: Phase): seq<Message> {
    match p
    case Sending(m) => [m]
    case DrainSending(m) => [m]
    case _ => []
  }

  // The messages taken from the queue so far.
  function Taken(s: State): seq<Message>
    requires |s.items| <= |s.accepted|
  {
    s.accepted[..|s.accepted| - |s.items|]
  }

  // Some message other than a malformed one has been taken.
  predicate Telling(ms: seq<Message>) {
    exists i :: 0 <= i < |ms| && (Hollow(ms[i]) || ms[i].wellFormed)
  }

  predicate Late(p: Phase) {
    p.Draining? || p.DrainSending? || p.Done?
  }

  // The queue holds the accepted messages that have not been taken; those taken that can be
  // sent have been, in order. Only the loop's end can leave messages behind, and then
  // a hollow message came while the queue was being drained.
  ghost predicate Inv(s: State) {
    |s.items| <= |s.accepted| && s.items == s.accepted[|s.accepted| - |s.items|..] &&
    s.sent + InHand(s.phase) == Sendable(Taken(s)) &&
    (InHand(s.phase) != [] ==> Good(InHand(s.phase)[0])) &&
    (Late(s.phase) ==> s.closed) &&
    (s.phase == Checking || Late(s.phase) ==> (s.items == [] && s.closed) || Telling(Taken(s))) &&
    (s.phase == Done && s.items != [] ==> |Taken(s)| > 0 && Hollow(Taken(s)[|Taken(s)| - 1]) && Telling(Taken(s)[..|Taken(s)| - 1]))
  }

  lemma SendableMore(ms: seq<Message>, m: Message)
    ensures Sendable(ms + [m]) == Sendable(ms) + if Good(m) then [m] else []
  {
    assert (ms + [m])[..|ms|] == ms;
  }

  lemma TellingMore(ms: seq<Message>, m: Message)
    ensures Telling(ms) ==> Telling(ms + [m])
    ensures Hollow(m) || m.wellFormed ==> Telling(ms + [m])
  {
    if Telling(ms) {
      var i :| 0 <= i < |ms| && (Hollow(ms[i]) || ms[i].wellFormed);
      assert (ms + [m])[i] == ms[i];
    }
    assert (ms + [m])[|ms|] == m;
  }

  // Taking one message out of the queue.
  lemma TakenMore(s: State)
    requires Inv(s) && |s.items| > 0
    ensures |s.items[1..]| <= |s.accepted| && s.items[1..] == s.accepted[|s.accepted| - |s.items[1..]|..]
    ensures s.accepted[..|s.accepted| - |s.items[1..]|] == Taken(s) + [s.items[0]]
  {}

  lemma PushKeeps(s: State, m: Message)
    requires Inv(s) && Enabled(s, Push(m))
    ensures Inv(Next(s, Push(m)))
  {
    hide Sendable, Telling;
    var t := Next(s, Push(m));
    if |s.items| < s.capacity {
      assert Taken(t) == Taken(s);
    }
  }

  lemma PopKeeps(s: State, e: Event)
    requires Inv(s) && Enabled(s, e) && (e == BlockingPop || e == DrainPop)
    ensures Inv(Next(s, e))
  {
    hide Sendable, Telling, Hollow;
    var t := Next(s, e);
    if |s.items| == 0 {
      assert Taken(t) == Taken(s);
    } else {
      TakenMore(s);
      var m := s.items[0];
      assert Taken(t) == Taken(s) + [m];
      SendableMore(Taken(s), m);
      TellingMore(Taken(s), m);
      assert Taken(t)[..|Taken(t)| - 1] == Taken(s);
    }
  }

  lemma StepKeeps(s: State, e: Event)
    requires Inv(s) && Enabled(s, e) && Succeeds(e)
    ensures Inv(Next(s, e))
  {
    hide Sendable, Hollow;
    match e {
      case Push(m) => { PushKeeps(s, m); }
      case BlockingPop => { PopKeeps(s, e); }
      case DrainPop => { PopKeeps(s, e); }
      case Send(ok) => {
        TellingLast(s);
      }
      case _ => {}
    }
  }

  // What is being sent has been taken.
  lemma TellingLast(s: State)
    requires Inv(s) && s.phase.Sending?
    ensures Telling(Taken(s))
  {
    SendableIsTelling(Taken(s));
  }

  lemma {:induction false} SendableIsTelling(ms: seq<Message>)
    ensures Sendable(ms) != [] ==> Telling(ms)
    decreases |ms|
  {
    if |ms| > 0 {
      var rest, m := ms[..|ms| - 1], ms[|ms| - 1];
      SendableIsTelling(rest);
      TellingMore(rest, m);
      assert rest + [m] == ms;
    }
  }

  lemma {:induction false} RunKeeps(s: State, events: seq<Event>)
    requires Inv(s) && IsRun(s, events) && AllSucceed(events)
    ensures Inv(Exec(s, events))
    decreases |events|
  {
    hide Inv, Enabled, Next, Succeeds;
    if |events| > 0 {
      assert Succeeds(events[0]);
      assert forall i :: 0 <= i < |events[1..]| ==> events[1..][i] == events[i + 1];
      StepKeeps(s, events[0]);
      RunKeeps(Next(s, events[0]), events[1..]);
    }
  }

  lemma StartKeeps(capacity: nat)
    ensures Inv(Start(capacity))
  {}

  // ----- what comes of it ---------------------------------------------------------------

  // Nothing that can be sent comes after a hollow message, except after the first
  // message that is not malformed.
  predicate Safe(ms: seq<Message>) {
    forall i, j :: 0 <= i < j < |ms| && Telling(ms[..i]) && Hollow(ms[i]) ==> !Good(ms[j])
  }

  lemma {:induction false} SendableConcat(a: seq<Message>, b: seq<Message>)
    ensures Sendable(a + b) == Sendable(a) + Sendable(b)
    decreases |b|
  {
    if |b| == 0 {
      assert a + b == a;
    } else {
      var c, m := b[..|b| - 1], b[|b| - 1];
      assert (a + b)[..|a + b| - 1] == a + c && (a + b)[|a + b| - 1] == m;
      SendableConcat(a, c);
    }
  }

  lemma {:induction false} NoneSendable(ms: seq<Message>)
    requires forall j :: 0 <= j < |ms| ==> !Good(ms[j])
    ensures Sendable(ms) == []
    decreases |ms|
  {
    if |ms| > 0 {
      NoneSendable(ms[..|ms| - 1]);
    }
  }

  lemma {:induction false} AllSendable(ms: seq<Message>)
    requires forall j :: 0 <= j < |ms| ==> Good(ms[j])
    ensures Sendable(ms) == ms
    decreases |ms|
  {
    if |ms| > 0 {
      AllSendable(ms[..|ms| - 1]);
      assert ms == ms[..|ms| - 1] + [ms[|ms| - 1]];
    }
  }

  lemma DoneState(s: State)
    requires Inv(s) && s.phase == Done && Safe(s.accepted)
    ensures s.sent == Sendable(s.accepted)
  {
    hide Telling, Hollow, Sendable;
    var k := |s.accepted| - |s.items|;
    assert s.accepted == Taken(s) + s.items;
    SendableConcat(Taken(s), s.items);
    if s.items != [] {
      assert Taken(s)[..k - 1] == s.accepted[..k - 1];
      forall j | 0 <= j < |s.items|
        ensures !Good(s.items[j])
      {
        assert s.items[j] == s.accepted[k + j];
      }
      NoneSendable(s.items);
    } else {
      NoneSendable(s.items);
    }
  }

  // In every interleaving, when the loop has returned and the accepted messages are safe, all
  // that could be sent was.
  lemma DoneIsComplete(capacity: nat, events: seq<Event>)
    requires IsRun(Start(capacity), events) && AllSucceed(events)
    ensures var s := Exec(Start(capacity), events);
      s.phase == Done && Safe(s.accepted) ==> s.sent == Sendable(s.accepted)
  {
    hide Inv, Safe, Sendable;
    var s := Exec(Start(capacity), events);
    StartKeeps(capacity);
    RunKeeps(Start(capacity), events);
    if s.phase == Done && Safe(s.accepted) {
      DoneState(s);
    }
  }

  // In every interleaving, the loop that returns has sent exactly what was accepted, once and
  // in order, if all of it can be sent.
  lemma LosslessDrain(capacity: nat, events: seq<Event>)
    requires IsRun(Start(capacity), events) && AllSucceed(events)
    ensures var s := Exec(Start(capacity), events);
      (forall j :: 0 <= j < |s.accepted| ==> Good(s.accepted[j])) && s.phase == Done ==> s.sent == s.accepted
  {
    hide Inv, Good, Hollow;
    var s := Exec(Start(capacity), events);
    if (forall j :: 0 <= j < |s.accepted| ==> Good(s.accepted[j])) && s.phase == Done {
      AllSendable(s.accepted);
      GoodIsSafe(s.accepted);
      DoneIsComplete(capacity, events);
    }
  }

  lemma GoodIsSafe(ms: seq<Message>)
    requires forall j :: 0 <= j < |ms| ==> Good(ms[j])
    ensures Safe(ms)
  {}

  // At any time, what has been sent, is in hand or still queued is what was accepted.
  lemma NothingVanishes(capacity: nat, events: seq<Event>)
    requires IsRun(Start(capacity), events) && AllSucceed(events)
    ensures var s := Exec(Start(capacity), events);
      (forall j :: 0 <= j < |s.accepted| ==> Good(s.accepted[j])) ==> s.sent + InHand(s.phase) + s.items == s.accepted
  {
    hide Good, Inv;
    var s := Exec(Start(capacity), events);
    StartKeeps(capacity);
    RunKeeps(Start(capacity), events);
    if forall j :: 0 <= j < |s.accepted| ==> Good(s.accepted[j]) {
      AllThere(s);
    }
  }

  lemma AllThere(s: State)
    requires Inv(s) && forall j :: 0 <= j < |s.accepted| ==> Good(s.accepted[j])
    ensures s.sent + InHand(s.phase) + s.items == s.accepted
  {
    hide Good, Hollow, Telling, InHand, Late, Sendable;
    var k := |s.accepted| - |s.items|;
    assert s.accepted[..k] + s.accepted[k..] == s.accepted && Taken(s) == s.accepted[..k];
    AllSendable(Taken(s));
  }

  // ----- the loop returns ---------------------------------------------------------------

  predicate ConsumerEvent(e: Event) {
    e == BlockingPop || e == Send(true) || e == Check || e == DrainPop || e == DrainSend(true)
  }

  function Rank(p: Phase): nat {
    match p
    case Sending(m) => 5
    case Waiting => 4
    case Checking => 3
    case DrainSending(m) => 2
    case Draining => 1
    case Done => 0
  }

  // Once the queue is closed, the loop can always go on, and every step brings its end nearer.
  lemma LoopReturns(s: State)
    requires s.closed && s.phase != Done
    ensures exists e :: ConsumerEvent(e) && Enabled(s, e)
    ensures forall e :: ConsumerEvent(e) && Enabled(s, e) ==>
      Next(s, e).closed && 6 * |Next(s, e).items| + Rank(Next(s, e).phase) < 6 * |s.items| + Rank(s.phase)
  {
    match s.phase {
      case Waiting => { assert Enabled(s, BlockingPop); }
      case Sending(m) => { assert Enabled(s, Send(true)); }
      case Checking => { assert Enabled(s, Check); }
      case Draining => { assert Enabled(s, DrainPop); }
      case DrainSending(m) => { assert Enabled(s, DrainSend(true)); }
    }
  }

  // ----- when messages can be lost ------------------------------------------------------

  lemma {:induction false} RunConcat(s: State, a: seq<Event>, b: seq<Event>)
    requires IsRun(s, a) && IsRun(Exec(s, a), b)
    ensures IsRun(s, a + b) && Exec(s, a + b) == Exec(Exec(s, a), b)
    ensures AllSucceed(a) && AllSucceed(b) ==> AllSucceed(a + b)
    decreases |a|
  {
    hide Next, Enabled, AllSucceed;
    BothSucceed(a, b);
    if |a| == 0 {
      assert a + b == b;
    } else {
      RunConcat(Next(s, a[0]), a[1..], b);
      assert (a + b)[1..] == a[1..] + b;
    }
  }

  lemma BothSucceed(a: seq<Event>, b: seq<Event>)
    ensures AllSucceed(a) && AllSucceed(b) ==> AllSucceed(a + b)
  {
    hide Succeeds;
  }

  lemma OneEvent(s: State, e: Event)
    requires Enabled(s, e) && Succeeds(e)
    ensures IsRun(s, [e]) && AllSucceed([e]) && Exec(s, [e]) == Next(s, e)
  {
    assert [e][1..] == [];
  }

  lemma {:induction false} PushAll(ms: seq<Message>, capacity: nat) returns (events: seq<Event>)
    requires |ms| <= capacity
    ensures IsRun(Start(capacity), events) && AllSucceed(events) && Exec(Start(capacity), events) == State(ms, capacity, false, Waiting, ms, [])
    decreases |ms|
  {
    if |ms| == 0 {
      events := [];
    } else {
      var rest, m := ms[..|ms| - 1], ms[|ms| - 1];
      events := PushAll(rest, capacity);
      var s := Exec(Start(capacity), events);
      OneEvent(s, Push(m));
      RunConcat(Start(capacity), events, [Push(m)]);
      assert rest + [m] == ms;
      events := events + [Push(m)];
    }
  }

  // Drives the loop from the wait to the drain.
  lemma {:induction false} DriveFirst(s: State, p: nat) returns (events: seq<Event>)
    requires s.closed && s.phase == Waiting && p < |s.items| && (Hollow(s.items[p]) || s.items[p].wellFormed)
    requires forall i :: 0 <= i < p ==> !Hollow(s.items[i]) && !s.items[i].wellFormed
    ensures IsRun(s, events) && AllSucceed(events) && var t := Exec(s, events);
      t.closed && t.phase == Draining && t.items == s.items[p + 1..] && t.accepted == s.accepted
    decreases p
  {
    hide Hollow;
    OneEvent(s, BlockingPop);
    var t := Next(s, BlockingPop);
    if p > 0 {
      var more := DriveFirst(t, p - 1);
      RunConcat(s, [BlockingPop], more);
      events := [BlockingPop] + more;
    } else if t.phase == Checking {
      OneEvent(t, Check);
      RunConcat(s, [BlockingPop], [Check]);
      events := [BlockingPop] + [Check];
    } else {
      OneEvent(t, Send(true));
      var u := Next(t, Send(true));
      OneEvent(u, Check);
      RunConcat(t, [Send(true)], [Check]);
      RunConcat(s, [BlockingPop], [Send(true)] + [Check]);
      events := [BlockingPop] + ([Send(true)] + [Check]);
    }
  }

  // Drives the drain to the first hollow message, where it stops.
  lemma {:induction false} DriveDrain(s: State, h: nat) returns (events: seq<Event>)
    requires s.closed && s.phase == Draining && h < |s.items| && Hollow(s.items[h])
    requires forall i :: 0 <= i < h ==> !Hollow(s.items[i])
    ensures IsRun(s, events) && AllSucceed(events) && var t := Exec(s, events);
      t.phase == Done && t.items == s.items[h + 1..] && t.accepted == s.accepted
    decreases h
  {
    hide Hollow;
    OneEvent(s, DrainPop);
    var t := Next(s, DrainPop);
    if h == 0 {
      events := [DrainPop];
    } else if t.phase == Draining {
      var more := DriveDrain(t, h - 1);
      RunConcat(s, [DrainPop], more);
      events := [DrainPop] + more;
    } else {
      OneEvent(t, DrainSend(true));
      var more := DriveDrain(Next(t, DrainSend(true)), h - 1);
      RunConcat(t, [DrainSend(true)], more);
      RunConcat(s, [DrainPop], [DrainSend(true)] + more);
      events := [DrainPop] + ([DrainSend(true)] + more);
    }
  }

  lemma FirstTelling(ms: seq<Message>) returns (p: nat)
    requires Telling(ms)
    ensures p < |ms| && (Hollow(ms[p]) || ms[p].wellFormed)
    ensures forall i :: 0 <= i < p ==> !Hollow(ms[i]) && !ms[i].wellFormed
  {
    hide Hollow;
    var k :| 0 <= k < |ms| && (Hollow(ms[k]) || ms[k].wellFormed);
    p := 0;
    while !Hollow(ms[p]) && !ms[p].wellFormed
      invariant p <= k && forall i :: 0 <= i < p ==> !Hollow(ms[i]) && !ms[i].wellFormed
      decreases k - p
    {
      p := p + 1;
    }
  }

  lemma FirstHollow(ms: seq<Message>, from: nat, k: nat) returns (h: nat)
    requires from <= k < |ms| && Hollow(ms[k])
    ensures from <= h <= k && Hollow(ms[h]) && forall i :: from <= i < h ==> !Hollow(ms[i])
  {
    hide Hollow;
    h := from;
    while !Hollow(ms[h])
      invariant from <= h <= k && forall i :: from <= i < h ==> !Hollow(ms[i])
      decreases k - h
    {
      h := h + 1;
    }
  }

  lemma SomeSendable(ms: seq<Message>, j: nat)
    requires j < |ms| && Good(ms[j])
    ensures Sendable(ms) != []
  {
    hide Sendable, Good;
    assert ms == ms[..j + 1] + ms[j + 1..];
    SendableConcat(ms[..j + 1], ms[j + 1..]);
    assert ms[..j + 1] == ms[..j] + [ms[j]];
    SendableMore(ms[..j], ms[j]);
  }

  // Everything is pushed and the queue closed before the loop begins.
  lemma EarlyClose(ms: seq<Message>) returns (events: seq<Event>)
    ensures IsRun(Start(|ms|), events) && AllSucceed(events) && Exec(Start(|ms|), events) == State(ms, |ms|, true, Waiting, ms, [])
  {
    hide Enabled, Next;
    var pushes := PushAll(ms, |ms|);
    var s1 := Exec(Start(|ms|), pushes);
    var s2 := Closing(s1);
    RunConcat(Start(|ms|), pushes, [CloseQueue]);
    events := pushes + [CloseQueue];
  }

  // The loop then stops at the first hollow message that it meets while draining.
  lemma StoppedRun(ms: seq<Message>, p: nat, h: nat) returns (events: seq<Event>)
    requires p < h < |ms| && (Hollow(ms[p]) || ms[p].wellFormed) && Hollow(ms[h])
    requires (forall i :: 0 <= i < p ==> !Hollow(ms[i]) && !ms[i].wellFormed) && forall i :: p < i < h ==> !Hollow(ms[i])
    ensures IsRun(Start(|ms|), events) && AllSucceed(events) && var s := Exec(Start(|ms|), events);
      s.phase == Done && s.accepted == ms && s.items == ms[h + 1..]
  {
    hide Hollow, Enabled, Next, IsRun, Exec;
    var early := EarlyClose(ms);
    var s2 := Exec(Start(|ms|), early);
    var first := DriveFirst(s2, p);
    RunConcat(Start(|ms|), early, first);
    var s3 := Exec(s2, first);
    var second := DriveDrain(s3, h - (p + 1));
    RunConcat(Start(|ms|), early + first, second);
    events := early + first + second;
  }

  lemma LeftBehind(s: State, h: nat, j: nat)
    requires Inv(s) && s.phase == Done && h < j < |s.accepted| && s.items == s.accepted[h + 1..] && Good(s.accepted[j])
    ensures s.sent != Sendable(s.accepted)
  {
    hide Hollow, Telling, Sendable, Good;
    var ms := s.accepted;
    assert Taken(s) == ms[..h + 1];
    assert ms == ms[..h + 1] + ms[h + 1..];
    SendableConcat(ms[..h + 1], ms[h + 1..]);
    assert ms[h + 1..][j - (h + 1)] == ms[j];
    SomeSendable(ms[h + 1..], j - (h + 1));
  }

  // If the messages are not safe, some interleaving loses one of them: the condition is exact.
  lemma LossIsPossible(ms: seq<Message>) returns (events: seq<Event>)
    requires !Safe(ms)
    ensures IsRun(Start(|ms|), events) && AllSucceed(events) && var s := Exec(Start(|ms|), events);
      s.phase == Done && s.accepted == ms && s.sent != Sendable(ms)
  {
    hide Hollow, Telling, Sendable, Good, IsRun, Exec, Inv, Start;
    var i, j :| 0 <= i < j < |ms| && Telling(ms[..i]) && Hollow(ms[i]) && Good(ms[j]);
    var p := FirstTelling(ms[..i]);
    var h := FirstHollow(ms, p + 1, i);
    events := StoppedRun(ms, p, h);
    StartKeeps(|ms|);
    RunKeeps(Start(|ms|), events);
    LeftBehind(Exec(Start(|ms|), events), h, j);
  }

  lemma Closing(s: State) returns (t: State)
    requires s.phase == Waiting
    ensures IsRun(s, [CloseQueue]) && AllSucceed([CloseQueue]) && Exec(s, [CloseQueue]) == t && t == s.(closed := true)
  {
    OneEvent(s, CloseQueue);
    t := Next(s, CloseQueue);
  }

  // Whether messages can be lost is decided by the messages alone: exactly the safe ones are
  // sent whole in every interleaving that accepts them and lets the loop return.
  ghost predicate AlwaysSent(ms: seq<Message>) {
    forall capacity: nat, events: seq<Event> ::
      IsRun(Start(capacity), events) && AllSucceed(events) && Exec(Start(capacity), events).phase == Done && Exec(Start(capacity), events).accepted == ms ==>
        Exec(Start(capacity), events).sent == Sendable(ms)
  }

  lemma SafeExactly(ms: seq<Message>)
    ensures Safe(ms) <==> AlwaysSent(ms)
  {
    hide Safe, Sendable, IsRun, Exec, AllSucceed;
    if Safe(ms) {
      forall capacity: nat, events: seq<Event> | IsRun(Start(capacity), events) && AllSucceed(events) && Exec(Start(capacity), events).phase == Done && Exec(Start(capacity), events).accepted == ms
        ensures Exec(Start(capacity), events).sent == Sendable(ms)
      {
        DoneIsComplete(capacity, events);
      }
    } else {
      var events := LossIsPossible(ms);
      assert Exec(Start(|ms|), events).sent != Sendable(ms);
    }
  }

  // ----- when sending fails -----------------------------------------------------------------

  // a is b with some messages left out.
  predicate PartOf(a: seq<Message>, b: seq<Message>)
    decreases |b|
  {
    if |b| == 0 then |a| == 0
    else PartOf(a, b[..|b| - 1]) || (|a| > 0 && a[|a| - 1] == b[|b| - 1] && PartOf(a[..|a| - 1], b[..|b| - 1]))
  }

  lemma PartMore(a: seq<Message>, b: seq<Message>, m: Message)
    requires PartOf(a, b)
    ensures PartOf(a, b + [m]) && PartOf(a + [m], b + [m])
  {
    assert (b + [m])[..|b|] == b && (a + [m])[..|a|] == a;
  }

  lemma {:induction false} PartLess(a: seq<Message>, b: seq<Message>, m: Message)
    requires PartOf(a + [m], b)
    ensures PartOf(a, b)
    decreases |b|
  {
    assert (a + [m])[..|a|] == a;
    if |b| > 0 {
      var c := b[..|b| - 1];
      if PartOf(a + [m], c) {
        PartLess(a, c, m);
      }
    }
  }

  // Whatever fails, what is sent and in hand is part of what has been taken.
  ghost predicate Ordered(s: State) {
    |s.items| <= |s.accepted| && s.items == s.accepted[|s.accepted| - |s.items|..] && PartOf(s.sent + InHand(s.phase), Taken(s))
  }

  lemma OrderedPop(s: State, t: State, m: Message)
    requires Ordered(s) && |s.items| > 0 && m == s.items[0] && InHand(s.phase) == []
    requires t.items == s.items[1..] && t.accepted == s.accepted && t.sent == s.sent && (InHand(t.phase) == [] || InHand(t.phase) == [m])
    ensures Ordered(t)
  {
    hide PartOf, InHand;
    assert Taken(t) == Taken(s) + [m];
    assert s.sent + [] == s.sent;
    PartMore(s.sent, Taken(s), m);
  }

  lemma OrderedOther(s: State, t: State)
    requires Ordered(s) && |t.items| <= |t.accepted| && t.items == t.accepted[|t.accepted| - |t.items|..] && Taken(t) == Taken(s)
    requires t.sent + InHand(t.phase) == s.sent + InHand(s.phase) || (|InHand(s.phase)| == 1 && t.sent + InHand(t.phase) == s.sent)
    ensures Ordered(t)
  {
    hide PartOf, InHand;
    if |InHand(s.phase)| == 1 {
      assert InHand(s.phase) == [InHand(s.phase)[0]];
      PartLess(s.sent, Taken(s), InHand(s.phase)[0]);
    }
  }

  lemma OrderedStep(s: State, e: Event)
    requires Ordered(s) && Enabled(s, e)
    ensures Ordered(Next(s, e))
  {
    hide Hollow, PartOf, Ordered;
    var t := Next(s, e);
    Parts(s);
    match e {
      case Push(m) =>
        PushTaken(s, m);
        OrderedOther(s, t);
      case BlockingPop => PopOrdered(s, t);
      case DrainPop => PopOrdered(s, t);
      case _ =>
        assert s.sent + [] == s.sent;
        OrderedOther(s, t);
    }
  }

  lemma Parts(s: State)
    requires Ordered(s)
    ensures |s.items| <= |s.accepted| && s.items == s.accepted[|s.accepted| - |s.items|..]
  {}

  lemma PushTaken(s: State, m: Message)
    requires Ordered(s) && Enabled(s, Push(m))
    ensures var t := Next(s, Push(m));
      |t.items| <= |t.accepted| && t.items == t.accepted[|t.accepted| - |t.items|..] && Taken(t) == Taken(s)
  {
    hide PartOf;
  }

  lemma PopOrdered(s: State, t: State)
    requires Ordered(s) && InHand(s.phase) == [] && t.accepted == s.accepted && t.sent == s.sent && t.items == Popped(s.items)
    requires InHand(t.phase) == [] || (|s.items| > 0 && InHand(t.phase) == [s.items[0]])
    ensures Ordered(t)
  {
    hide PartOf, InHand;
    if |s.items| > 0 {
      OrderedPop(s, t, s.items[0]);
    }
  }

  lemma {:induction false} OrderedRun(s: State, events: seq<Event>)
    requires Ordered(s) && IsRun(s, events)
    ensures Ordered(Exec(s, events))
    decreases |events|
  {
    hide Ordered, Enabled, Next;
    if |events| > 0 {
      OrderedStep(s, events[0]);
      OrderedRun(Next(s, events[0]), events[1..]);
    }
  }

  // Even when sends fail, messages are sent in the order in which they were accepted, and none twice.
  lemma SentInOrder(capacity: nat, events: seq<Event>)
    requires IsRun(Start(capacity), events)
    ensures var s := Exec(Start(capacity), events); PartOf(s.sent, s.accepted)
  {
    hide IsRun, Exec, PartOf;
    assert Ordered(Start(capacity)) by { NothingSent(capacity); }
    OrderedRun(Start(capacity), events);
    var s := Exec(Start(capacity), events);
    assert s.sent + [] == s.sent;
    if InHand(s.phase) != [] {
      PartLess(s.sent, Taken(s), InHand(s.phase)[0]);
    }
    PartLonger(s.sent, Taken(s), s.items);
    assert Taken(s) + s.items == s.accepted;
  }

  lemma NothingSent(capacity: nat)
    ensures Ordered(Start(capacity))
  {}

  lemma {:induction false} PartLonger(a: seq<Message>, b: seq<Message>, c: seq<Message>)
    requires PartOf(a, b)
    ensures PartOf(a, b + c)
    decreases |c|
  {
    hide PartOf;
    if |c| == 0 {
      assert b + c == b;
    } else {
      var d, m := c[..|c| - 1], c[|c| - 1];
      PartLonger(a, b, d);
      PartMore(a, b + d, m);
      assert b + d + [m] == b + c;
    }
  }

  // ----- what is accepted -------------------------------------------------------------------

  // The messages that were pushed, in order.
  function PushedIn(events: seq<Event>): seq<Message> {
    if |events| == 0 then [] else (if events[0].Push? then [events[0].m] else []) + PushedIn(events[1..])
  }

  // While the queue has room for all of them, every message that is pushed is accepted.
  lemma {:induction false} AllAccepted(s: State, events: seq<Event>)
    requires IsRun(s, events) && |s.items| + |PushedIn(events)| <= s.capacity
    ensures Exec(s, events).accepted == s.accepted + PushedIn(events)
    decreases |events|
  {
    hide Enabled, Next, Returned;
    if |events| > 0 {
      var e := events[0];
      OneAccepted(s, e);
      AllAccepted(Next(s, e), events[1..]);
      if e.Push? {
        assert s.accepted + [e.m] + PushedIn(events[1..]) == s.accepted + PushedIn(events);
      }
    } else {
      assert s.accepted + [] == s.accepted;
    }
  }

  lemma OneAccepted(s: State, e: Event)
    requires Enabled(s, e) && (e.Push? ==> |s.items| < s.capacity)
    ensures var t := Next(s, e);
      t.capacity == s.capacity && t.accepted == (if e.Push? then s.accepted + [e.m] else s.accepted) &&
      |t.items| <= |s.items| + if e.Push? then 1 else 0
  {
    hide Returned;
  }

  // So a queue that is never overrun loses nothing: whatever is pushed before the close is sent.
  lemma AllPushedIsSent(capacity: nat, events: seq<Event>)
    requires IsRun(Start(capacity), events) && AllSucceed(events) && Exec(Start(capacity), events).phase == Done
    requires |PushedIn(events)| <= capacity
    requires forall m :: m in PushedIn(events) ==> m.wellFormed && 0 < |m.bytes| <= 10_485_760
    ensures Exec(Start(capacity), events).sent == PushedIn(events)
  {
    hide IsRun, Exec, AllSucceed;
    forall j | 0 <= j < |PushedIn(events)|
      ensures Good(PushedIn(events)[j])
    {
      assert PushedIn(events)[j] in PushedIn(events);
    }
    AllAccepted(Start(capacity), events);
    assert [] + PushedIn(events) == PushedIn(events);
    LosslessDrain(capacity, events);
  }

  // ----- the drain as it runs -----------------------------------------------------------

  // The messages before the first hollow one.
  function UntilHollow(items: seq<Message>): (r: seq<Message>)
    ensures |r| <= |items| && r == items[..|r|] && (forall i :: 0 <= i < |r| ==> !Hollow(r[i])) && (|r| < |items| ==> Hollow(items[|r|]))
  {
    if |items| == 0 || Hollow(items[0]) then [] else [items[0]] + UntilHollow(items[1..])
  }

  // Sends what is left in a closed queue.
  method SendTheRest(q: StringQueue) returns (sent: seq<Message>)
    requires q.isClosed
    modifies q
    ensures sent == Sendable(UntilHollow(old(q.items)))
    ensures q.items == old(q.items)[if |UntilHollow(old(q.items))| < |old(q.items)| then |UntilHollow(old(q.items))| + 1 else |old(q.items)|..]
    ensures q.isClosed == old(q.isClosed)
  {
    hide Sendable, Hollow;
    sent := [];
    ghost var all, r, k := q.items, UntilHollow(q.items), 0;
    assert Sendable(r[..0]) == [] by { NoneSendable(r[..0]); }
    var bytes := q.Pop();
    while bytes.Some?
      invariant 0 <= k <= |r| && sent == Sendable(r[..k]) && q.isClosed
      invariant k < |all| ==> bytes == Returned(all[k..]) && q.items == all[k + 1..]
      invariant k == |all| ==> bytes == None && q.items == []
      decreases |all| - k
    {
      assert bytes.value == all[k] == r[k];
      assert r[..k + 1] == r[..k] + [r[k]];
      SendableMore(r[..k], r[k]);
      GoodWhenFormed(bytes.value);
      if bytes.value.wellFormed {
        sent := sent + [bytes.value];
      }
      k := k + 1;
      bytes := q.Pop();
    }
    assert r[..|r|] == r;
  }

  lemma GoodWhenFormed(m: Message)
    ensures Good(m) <==> !Hollow(m) && m.wellFormed
  {}

  // The messages whose sending succeeded.
  function Successes(events: seq<Event>): nat {
    if |events| == 0 then 0
    else (if events[0] == Send(true) || events[0] == DrainSend(true) then 1 else 0) + Successes(events[1..])
  }

  // Only those count as sent.
  lemma {:induction false} SentIsSucceeded(s: State, events: seq<Event>)
    requires IsRun(s, events)
    ensures |Exec(s, events).sent| == |s.sent| + Successes(events)
    decreases |events|
  {
    hide Pushed, Popped, Returned;
    if |events| > 0 {
      SentIsSucceeded(Next(s, events[0]), events[1..]);
    }
  }
}
