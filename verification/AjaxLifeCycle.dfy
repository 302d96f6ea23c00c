/** The life of any number of interleaved jQuery.ajax requests: prefilters, announcement,
    beforeSend, choice of a transport, ajaxSend, send, and `done`.

    User code runs at every one of these points and inside `done`, and may start, abort or
    complete any request, so each stretch of code without user code in it is one step, and
    `done` is two: its entry, and its end, where the global counter goes down. The steps of
    different requests may be mixed in any order. */
module AjaxLifeCycle {
  datatype Phase = Prefiltering | Preparing | Choosing | Sending | Launched | Over

  datatype Request = Request(
    phase: Phase,
    state: nat,          // 0, 1 (sent) or 2 (done)
    fireGlobals: bool,
    bodies: nat,         // times the body of done was entered
    exits: nat,          // times it was left
    reopened: bool)      // state was set back from 2 to 1

  datatype Signal = AjaxStart | AjaxStop

  datatype World = World(active: int, requests: seq<Request>, signals: seq<Signal>)

  datatype Event =
    | Create                                  // jQuery.ajax is called; the prefilters run
    | Announce(r: nat, isGlobal: bool)        // the prefilters are over
    | Prepared(r: nat, hooked: bool, refused: bool)   // beforeSend, if there is one, is over
    | Chosen(r: nat, found: bool)             // a transport was asked for
    | Send(r: nat)                            // the ajaxSend handlers are over
    | Done(r: nat)                            // completion, timeout, abort or a thrown send
    | EndOfDone(r: nat)                       // the callbacks of a done body are over

  const NoRequests := World(0, [], [])

  const NewRequest := Request(Prefiltering, 0, false, 0, 0, false)

  // Entering done, unless state is 2.
  function Entered(q: Request): Request {
    if q.state == 2 then q else q.(state := 2, bodies := q.bodies + 1)
  }

  // What event e makes of the request it is about.
  function After(q: Request, e: Event): Request {
    match e
    case Create => q
    case Announce(_, isGlobal) =>
      if q.phase != Prefiltering then q
      else if q.state == 2 then q.(phase := Over)
      else q.(phase := Preparing, fireGlobals := isGlobal)
    case Prepared(_, hooked, refused) =>
      if q.phase != Preparing then q
      else if hooked && (refused || q.state == 2) then Entered(q).(phase := Over)
      else q.(phase := Choosing)
    case Chosen(_, found) =>
      if q.phase != Choosing then q
      else if !found then Entered(q).(phase := Over)
      else q.(phase := Sending)
    case Send(_) =>
      if q.phase != Sending then q else q.(phase := Launched, state := 1, reopened := q.state == 2)
    case Done(_) => Entered(q)
    case EndOfDone(_) => if q.exits < q.bodies then q.(exits := q.exits + 1) else q
  }

  // What it does to jQuery.active.
  function Change(q: Request, e: Event): int {
    match e
    case Announce(_, isGlobal) => if q.phase == Prefiltering && q.state != 2 && isGlobal then 1 else 0
    case EndOfDone(_) => if q.exits < q.bodies && q.fireGlobals then -1 else 0
    case _ => 0
  }

  // active++ === 0 triggers ajaxStart, !( --active ) triggers ajaxStop.
  function Signals(active: int, change: int): seq<Signal> {
    if change == 1 && active == 0 then [AjaxStart]
    else if change == -1 && active == 1 then [AjaxStop]
    else []
  }

  function Step(w: World, e: Event): World {
    if e.Create? then w.(requests := w.requests + [NewRequest])
    else if e.r >= |w.requests| then w
    else
      var q := w.requests[e.r];
      World(w.active + Change(q, e), w.requests[e.r := After(q, e)], w.signals + Signals(w.active, Change(q, e)))
  }

  function Run(w: World, events: seq<Event>): World
    decreases |events|
  {
    if events == [] then w else Run(Step(w, events[0]), events[1..])
  }

  // The guard that line 7718 does not have: a request about to be sent is not done yet.
  predicate Guarded(w: World, e: Event) {
    e.Send? && e.r < |w.requests| && w.requests[e.r].phase == Sending ==> w.requests[e.r].state != 2
  }

  // No request that is done already is sent: none was aborted from a transport factory, from an
  // ajaxSend handler, or, without a beforeSend option, from an ajaxStart handler.
  predicate Clean(w: World, events: seq<Event>)
    decreases |events|
  {
    events == [] || (Guarded(w, events[0]) && Clean(Step(w, events[0]), events[1..]))
  }

  // ---- one request

  ghost predicate RequestOk(q: Request) {
    && q.state <= 2
    && q.bodies == (if q.state == 2 then 1 else 0) + (if q.reopened then 1 else 0)
    && q.exits <= q.bodies
    && (q.reopened ==> q.phase == Launched)
    && (q.state == 1 ==> q.phase == Launched)
    && (q.fireGlobals ==> q.phase != Prefiltering)
  }

  ghost predicate AllOk(w: World) {
    forall r :: 0 <= r < |w.requests| ==> RequestOk(w.requests[r])
  }

  // ---- sums over the requests

  // Announced requests whose done has not ended.
  ghost function Unfinished(requests: seq<Request>): nat {
    if requests == [] then 0
    else Unfinished(requests[..|requests| - 1]) +
         if requests[|requests| - 1].fireGlobals && requests[|requests| - 1].exits == 0 then 1 else 0
  }

  // Ends of done beyond the first, of announced requests.
  ghost function Extra(requests: seq<Request>): nat {
    if requests == [] then 0
    else Extra(requests[..|requests| - 1]) +
         if requests[|requests| - 1].fireGlobals && requests[|requests| - 1].exits > 1
         then requests[|requests| - 1].exits - 1 else 0
  }

  ghost function Share(q: Request): int {
    if q.fireGlobals then 1 - q.exits else 0
  }

  lemma SumsUpdate(requests: seq<Request>, r: nat, q: Request)
    requires r < |requests|
    ensures var after := requests[r := q];
            Unfinished(after) - Extra(after) ==
            Unfinished(requests) - Extra(requests) + Share(q) - Share(requests[r])
  {
    var n := |requests| - 1;
    if r < n {
      assert requests[r := q][..n] == requests[..n][r := q];
      SumsUpdate(requests[..n], r, q);
    } else {
      assert requests[r := q][..n] == requests[..n];
    }
  }

  ghost predicate Balanced(w: World) {
    w.active == Unfinished(w.requests) - Extra(w.requests)
  }

  lemma RequestStep(q: Request, e: Event)
    requires RequestOk(q)
    ensures RequestOk(After(q, e)) && Share(After(q, e)) == Share(q) + Change(q, e)
  {
  }

  lemma StepKeeps(w: World, e: Event)
    requires AllOk(w) && Balanced(w)
    ensures AllOk(Step(w, e)) && Balanced(Step(w, e))
  {
    if e.Create? {
      assert Step(w, e).requests[..|w.requests|] == w.requests;
    } else if e.r < |w.requests| {
      RequestStep(w.requests[e.r], e);
      SumsUpdate(w.requests, e.r, After(w.requests[e.r], e));
    }
  }

  lemma {:induction false} RunKeeps(w: World, events: seq<Event>)
    requires AllOk(w) && Balanced(w)
    ensures AllOk(Run(w, events)) && Balanced(Run(w, events))
    decreases |events|
  {
    if events != [] {
      StepKeeps(w, events[0]);
      RunKeeps(Step(w, events[0]), events[1..]);
    }
  }

  // ---- runs in which no finished request is sent

  ghost predicate NoneReopened(w: World) {
    forall r :: 0 <= r < |w.requests| ==> !w.requests[r].reopened
  }

  lemma CleanStep(w: World, e: Event)
    requires AllOk(w) && NoneReopened(w) && Clean(w, [e])
    ensures NoneReopened(Step(w, e))
  {
    var t := Step(w, e);
    forall r | 0 <= r < |t.requests|
      ensures !t.requests[r].reopened
    {
      assert r < |w.requests| ==> RequestOk(w.requests[r]);
    }
  }

  lemma {:induction false} CleanRun(w: World, events: seq<Event>)
    requires AllOk(w) && Balanced(w) && NoneReopened(w) && Clean(w, events)
    ensures NoneReopened(Run(w, events))
    decreases |events|
  {
    hide Balanced, AllOk;
    if events != [] {
      StepKeeps(w, events[0]);
      CleanStep(w, events[0]);
      CleanRun(Step(w, events[0]), events[1..]);
    }
  }

  // The signals tell whether there are active requests: start and stop alternate.
  ghost predicate Alternate(signals: seq<Signal>) {
    signals != [] ==>
      var front := signals[..|signals| - 1];
      Alternate(front) &&
      signals[|signals| - 1] == (if front == [] || front[|front| - 1] == AjaxStop then AjaxStart else AjaxStop)
  }

  ghost predicate SignalsTell(w: World) {
    && w.active >= 0
    && Alternate(w.signals)
    && (w.active > 0 <==> w.signals != [] && w.signals[|w.signals| - 1] == AjaxStart)
  }

  lemma NoExtra(requests: seq<Request>)
    requires forall r :: 0 <= r < |requests| ==> requests[r].exits <= 1
    ensures Extra(requests) == 0
  {
  }

  // At most one body of done per request, and the counter is the number of announced
  // requests whose done has not ended.
  ghost predicate CounterRight(w: World) {
    && (forall r :: 0 <= r < |w.requests| ==> w.requests[r].exits <= w.requests[r].bodies <= 1)
    && w.active == Unfinished(w.requests)
  }

  lemma CleanCounter(w: World)
    requires AllOk(w) && Balanced(w) && NoneReopened(w)
    ensures CounterRight(w)
  {
    forall r | 0 <= r < |w.requests|
      ensures w.requests[r].exits <= w.requests[r].bodies <= 1
    {
      assert RequestOk(w.requests[r]);
    }
    NoExtra(w.requests);
  }

  lemma SignalsStep(w: World, e: Event)
    requires SignalsTell(w) && Step(w, e).active >= 0
    ensures SignalsTell(Step(w, e))
  {
    var t := Step(w, e);
    if t.signals != w.signals {
      assert t.signals[..|w.signals|] == w.signals;
    }
  }

  lemma {:induction false} CleanSignals(w: World, events: seq<Event>)
    requires AllOk(w) && Balanced(w) && NoneReopened(w) && Clean(w, events) && SignalsTell(w)
    ensures SignalsTell(Run(w, events))
    decreases |events|
  {
    if events != [] {
      StepKeeps(w, events[0]);
      CleanRun(w, [events[0]]);
      assert Run(Step(w, events[0]), [events[0]][1..]) == Step(w, events[0]);
      CleanCounter(Step(w, events[0]));
      SignalsStep(w, events[0]);
      CleanSignals(Step(w, events[0]), events[1..]);
    }
  }

  // ---- the theorems

  // Over every run in which no request that is done already is sent: each request's done
  // takes effect at most once, jQuery.active is the number of announced requests not
  // finished, and ajaxStart and ajaxStop alternate, a start being last exactly when some
  // request is active.
  lemma LifeCycle(events: seq<Event>)
    requires Clean(NoRequests, events)
    ensures var w := Run(NoRequests, events);
            CounterRight(w) && SignalsTell(w)
  {
    RunKeeps(NoRequests, events);
    CleanRun(NoRequests, events);
    CleanCounter(Run(NoRequests, events));
    CleanSignals(NoRequests, events);
  }

  // The runs that condition allows are those in which no request is set back from done to sent.
  lemma CleanExactly(events: seq<Event>)
    ensures Clean(NoRequests, events) <==> NoneReopened(Run(NoRequests, events))
  {
    CleanFrom(NoRequests, events);
  }

  lemma {:induction false} CleanFrom(w: World, events: seq<Event>)
    requires AllOk(w) && Balanced(w) && NoneReopened(w)
    ensures Clean(w, events) <==> NoneReopened(Run(w, events))
    decreases |events|
  {
    hide Balanced;
    if events != [] {
      var e, t := events[0], Step(w, events[0]);
      StepKeeps(w, e);
      if Guarded(w, e) {
        CleanStep(w, e);
        CleanFrom(t, events[1..]);
      } else {
        ReopenedStays(t, events[1..], e.r);
      }
    }
  }

  lemma {:induction false} ReopenedStays(w: World, events: seq<Event>, r: nat)
    requires AllOk(w) && Balanced(w) && r < |w.requests| && w.requests[r].reopened
    ensures !NoneReopened(Run(w, events))
    decreases |events|
  {
    hide Balanced;
    assert RequestOk(w.requests[r]);
    if events != [] {
      StepKeeps(w, events[0]);
      ReopenedStays(Step(w, events[0]), events[1..], r);
    }
  }

  // Without that condition the counter is off by exactly the surplus ends of done.
  lemma CounterInGeneral(events: seq<Event>)
    ensures var w := Run(NoRequests, events);
            && w.active == Unfinished(w.requests) - Extra(w.requests)
            && forall r :: 0 <= r < |w.requests| ==> w.requests[r].bodies <= 2
  {
    RunKeeps(NoRequests, events);
    var w := Run(NoRequests, events);
    forall r | 0 <= r < |w.requests|
      ensures w.requests[r].bodies <= 2
    {
      assert RequestOk(w.requests[r]);
    }
  }

  // The condition is exact: a request about to be sent stays at one body of done whatever
  // happens afterwards if and only if it is not done yet.
  lemma SendIsSafe(before: seq<Event>, r: nat)
    requires var w := Run(NoRequests, before); r < |w.requests| && w.requests[r].phase == Sending
    ensures var w := Run(NoRequests, before);
            w.requests[r].state != 2 <==>
            forall more :: BodiesOf(Run(Step(w, Send(r)), more), r) <= 1
  {
    var w := Run(NoRequests, before);
    RunKeeps(NoRequests, before);
    assert RequestOk(w.requests[r]);
    var t := Step(w, Send(r));
    StepKeeps(w, Send(r));
    if w.requests[r].state != 2 {
      forall more
        ensures BodiesOf(Run(t, more), r) <= 1
      {
        StaysOpenOnce(t, more, r);
      }
    } else {
      var done := [Done(r)];
      assert Run(t, done) == Step(t, Done(r)) by {
        assert done[1..] == [];
      }
      assert BodiesOf(Run(t, done), r) == 2;
    }
  }

  ghost function BodiesOf(w: World, r: nat): nat {
    if r < |w.requests| then w.requests[r].bodies else 0
  }

  lemma {:induction false} StaysOpenOnce(w: World, events: seq<Event>, r: nat)
    requires AllOk(w) && Balanced(w) && r < |w.requests|
    requires w.requests[r].phase == Launched && !w.requests[r].reopened
    ensures BodiesOf(Run(w, events), r) <= 1
    decreases |events|
  {
    assert RequestOk(w.requests[r]);
    if events != [] {
      StepKeeps(w, events[0]);
      StaysOpenOnce(Step(w, events[0]), events[1..], r);
    }
  }

  // ---- requests that are given up

  // Over, with one body of done; once that has ended it is not counted as active.
  ghost predicate GivenUp(w: World, r: nat, ended: bool) {
    && r < |w.requests|
    && var q := w.requests[r];
       q.phase == Over && q.state == 2 && q.bodies == 1 && q.exits <= 1 && (ended ==> q.exits == 1)
  }

  // Whatever else happens.
  lemma {:induction false} GivenUpStays(w: World, events: seq<Event>, r: nat, ended: bool)
    requires GivenUp(w, r, ended)
    ensures GivenUp(Run(w, events), r, ended || EndOfDone(r) in events)
    decreases |events|
  {
    if events != [] {
      var ended' := ended || events[0] == EndOfDone(r);
      assert GivenUp(Step(w, events[0]), r, ended');
      GivenUpStays(Step(w, events[0]), events[1..], r, ended');
      assert events == [events[0]] + events[1..];
    }
  }

  // The answer to whether a request goes on to the next stretch of code.
  predicate Refuses(q: Request, e: Event) {
    match e
    case Announce(_, _) => q.phase == Prefiltering && q.state == 2
    case Prepared(_, hooked, refused) => q.phase == Preparing && hooked && (refused || q.state == 2)
    case Chosen(_, found) => q.phase == Choosing && !found
    case _ => false
  }

  lemma RunKeepsRequest(before: seq<Event>, r: nat)
    requires r < |Run(NoRequests, before).requests|
    ensures RequestOk(Run(NoRequests, before).requests[r])
  {
    RunKeeps(NoRequests, before);
  }

  // A request aborted in a prefilter, refused by its beforeSend or aborted before that returned,
  // or without a transport: in every run it is over from then on and has had one done.
  lemma RefusedIsOver(before: seq<Event>, r: nat, e: Event, more: seq<Event>)
    requires var w := Run(NoRequests, before); r < |w.requests| && !e.Create? && e.r == r && Refuses(w.requests[r], e)
    ensures GivenUp(Run(Step(Run(NoRequests, before), e), more), r, EndOfDone(r) in more)
  {
    RunKeepsRequest(before, r);
    GivenUpStays(Step(Run(NoRequests, before), e), more, r, false);
  }

  ghost predicate IsSent(w: World, r: nat) {
    r < |w.requests| && w.requests[r].phase == Launched
  }

  ghost predicate NeverSent(w: World, r: nat) {
    forall more :: !IsSent(Run(w, more), r)
  }

  // What remains to happen to a request for it to be sent.
  function Remaining(q: Request, r: nat): seq<Event> {
    match q.phase
    case Prefiltering => [Announce(r, true), Prepared(r, false, false), Chosen(r, true), Send(r)]
    case Preparing => [Prepared(r, false, false), Chosen(r, true), Send(r)]
    case Choosing => [Chosen(r, true), Send(r)]
    case Sending => [Send(r)]
    case _ => []
  }

  lemma {:induction false} CanBeSent(w: World, r: nat)
    requires r < |w.requests| && w.requests[r].phase != Over
    requires w.requests[r].phase == Prefiltering ==> w.requests[r].state != 2
    ensures IsSent(Run(w, Remaining(w.requests[r], r)), r)
    decreases |Remaining(w.requests[r], r)|
  {
    var events := Remaining(w.requests[r], r);
    if events != [] {
      var t := Step(w, events[0]);
      assert events[1..] == Remaining(t.requests[r], r);
      CanBeSent(t, r);
    }
  }

  // These are the only ways: with any other answer at these points the request can still be sent.
  lemma RefusedExactly(before: seq<Event>, r: nat, e: Event)
    requires var w := Run(NoRequests, before);
             && r < |w.requests| && !e.Create? && e.r == r
             && match e
                case Announce(_, _) => w.requests[r].phase == Prefiltering
                case Prepared(_, _, _) => w.requests[r].phase == Preparing
                case Chosen(_, _) => w.requests[r].phase == Choosing
                case _ => false
    ensures var w := Run(NoRequests, before);
            Refuses(w.requests[r], e) <==> NeverSent(Step(w, e), r)
  {
    var w := Run(NoRequests, before);
    if Refuses(w.requests[r], e) {
      forall more ensures !IsSent(Run(Step(w, e), more), r) {
        RefusedIsOver(before, r, e, more);
      }
    } else {
      CanBeSent(Step(w, e), r);
      assert IsSent(Run(Step(w, e), Remaining(Step(w, e).requests[r], r)), r);
    }
  }

  // Whether a request counts as active is settled by its own option when it is announced.
  ghost predicate CountsIf(w: World, r: nat, isGlobal: bool) {
    r < |w.requests| && w.requests[r].phase != Prefiltering && w.requests[r].fireGlobals == isGlobal
  }

  lemma {:induction false} CountsStays(w: World, events: seq<Event>, r: nat, isGlobal: bool)
    requires CountsIf(w, r, isGlobal)
    ensures CountsIf(Run(w, events), r, isGlobal)
    decreases |events|
  {
    if events != [] {
      CountsStays(Step(w, events[0]), events[1..], r, isGlobal);
    }
  }

  lemma AnnouncedCounts(before: seq<Event>, r: nat, isGlobal: bool, more: seq<Event>)
    requires var w := Run(NoRequests, before); r < |w.requests| && w.requests[r].phase == Prefiltering
    ensures var w := Run(NoRequests, before);
            CountsIf(Run(Step(w, Announce(r, isGlobal)), more), r, isGlobal && w.requests[r].state != 2)
  {
    RunKeepsRequest(before, r);
    var w := Run(NoRequests, before);
    CountsStays(Step(w, Announce(r, isGlobal)), more, r, isGlobal && w.requests[r].state != 2);
  }

  lemma RunFrom(w: World, events: seq<Event>, k: nat, t: World)
    requires k < |events| && Step(w, events[k]) == t
    ensures Run(w, events[k..]) == Run(t, events[k + 1..])
  {
    assert events[k..][1..] == events[k + 1..];
  }

  function Global(phase: Phase, state: nat, bodies: nat, exits: nat): Request {
    Request(phase, state, true, bodies, exits, false)
  }

  lemma Announced(events: seq<Event>)
    requires |events| >= 2 && events[..2] == [Create, Announce(0, true)]
    ensures Run(NoRequests, events) == Run(World(1, [Global(Preparing, 0, 0, 0)], [AjaxStart]), events[2..])
  {
    var first := events[..2];
    assert events[0] == first[0] && events[1] == first[1];
    hide Run;
    assert events[0..] == events;
    RunFrom(NoRequests, events, 0, World(0, [NewRequest], []));
    RunFrom(World(0, [NewRequest], []), events, 1, World(1, [Global(Preparing, 0, 0, 0)], [AjaxStart]));
  }

  lemma AnnouncedAndChosen(events: seq<Event>)
    requires |events| >= 4 && events[..4] == [Create, Announce(0, true), Prepared(0, true, false), Chosen(0, true)]
    ensures Run(NoRequests, events) == Run(World(1, [Global(Sending, 0, 0, 0)], [AjaxStart]), events[4..])
  {
    var one := [AjaxStart];
    var first := events[..4];
    assert first[..2] == events[..2] && first[..2] == [Create, Announce(0, true)];
    assert events[2] == first[2] && events[3] == first[3];
    hide Run;
    Announced(events);
    RunFrom(World(1, [Global(Preparing, 0, 0, 0)], one), events, 2, World(1, [Global(Choosing, 0, 0, 0)], one));
    RunFrom(World(1, [Global(Choosing, 0, 0, 0)], one), events, 3, World(1, [Global(Sending, 0, 0, 0)], one));
  }

  // A request that is done, and about to be sent nevertheless.
  const DoneButSending := World(0, [Global(Sending, 2, 1, 1)], [AjaxStart, AjaxStop])

  // An abort from an ajaxSend handler brings a request there,
  lemma AbortedWhileSending()
    ensures Run(NoRequests, [Create, Announce(0, true), Prepared(0, true, false), Chosen(0, true), Done(0),
                             EndOfDone(0)]) == DoneButSending
  {
    var events := [Create, Announce(0, true), Prepared(0, true, false), Chosen(0, true), Done(0), EndOfDone(0)];
    var one := [AjaxStart];
    hide Run;
    assert events[6..] == [];
    AnnouncedAndChosen(events);
    RunFrom(World(1, [Global(Sending, 0, 0, 0)], one), events, 4, World(1, [Global(Sending, 2, 1, 0)], one));
    RunFrom(World(1, [Global(Sending, 2, 1, 0)], one), events, 5, DoneButSending);
    RunNone(DoneButSending);
  }

  // and so does an abort from an ajaxStart handler, if there is no beforeSend.
  lemma AbortedWhileStarting()
    ensures Run(NoRequests, [Create, Announce(0, true), Done(0), EndOfDone(0), Prepared(0, false, false),
                             Chosen(0, true)]) == DoneButSending
  {
    var events := [Create, Announce(0, true), Done(0), EndOfDone(0), Prepared(0, false, false), Chosen(0, true)];
    hide Run, Step;
    assert events[..3] == [Create, Announce(0, true), Done(0)];
    AnnouncedAndAborted(events);
    assert events[3..] == [EndOfDone(0), Prepared(0, false, false), Chosen(0, true)];
    AbortedThenChosen(events);
  }

  lemma AnnouncedAndAborted(events: seq<Event>)
    requires |events| >= 3 && events[..3] == [Create, Announce(0, true), Done(0)]
    ensures Run(NoRequests, events) == Run(World(1, [Global(Preparing, 2, 1, 0)], [AjaxStart]), events[3..])
  {
    var one, first := [AjaxStart], events[..3];
    assert first[..2] == events[..2] && first[..2] == [Create, Announce(0, true)] && events[2] == first[2];
    hide Run;
    Announced(events);
    RunFrom(World(1, [Global(Preparing, 0, 0, 0)], one), events, 2, World(1, [Global(Preparing, 2, 1, 0)], one));
  }

  lemma AbortedThenChosen(events: seq<Event>)
    requires |events| == 6 && events[3..] == [EndOfDone(0), Prepared(0, false, false), Chosen(0, true)]
    ensures Run(World(1, [Global(Preparing, 2, 1, 0)], [AjaxStart]), events[3..]) == DoneButSending
  {
    var one, two := [AjaxStart], [AjaxStart, AjaxStop];
    var last := events[3..];
    assert events[3] == last[0] && events[4] == last[1] && events[5] == last[2] && events[6..] == [];
    hide Run;
    RunFrom(World(1, [Global(Preparing, 2, 1, 0)], one), events, 3, World(0, [Global(Preparing, 2, 1, 1)], two));
    RunFrom(World(0, [Global(Preparing, 2, 1, 1)], two), events, 4, World(0, [Global(Choosing, 2, 1, 1)], two));
    RunFrom(World(0, [Global(Choosing, 2, 1, 1)], two), events, 5, DoneButSending);
    RunNone(DoneButSending);
  }

  // Then done has a second body, the counter goes to -1, and the next global request is
  // announced without ajaxStart.
  lemma SentAfterDone()
    ensures Run(DoneButSending, [Send(0), Done(0), EndOfDone(0)]).active == -1
    ensures Run(DoneButSending, [Send(0), Done(0), EndOfDone(0), Create, Announce(1, true)]) ==
            World(0, [Request(Launched, 2, true, 2, 2, true), Global(Preparing, 0, 0, 0)], [AjaxStart, AjaxStop])
  {
    var q, two := Request(Launched, 2, true, 2, 2, true), [AjaxStart, AjaxStop];
    SentTwice([Send(0), Done(0), EndOfDone(0)]);
    RunNone(World(-1, [q], two));
    var events := [Send(0), Done(0), EndOfDone(0), Create, Announce(1, true)];
    SentTwice(events);
    hide Run;
    assert [Send(0), Done(0), EndOfDone(0)][3..] == [];
    assert events[5..] == [];
    RunFrom(World(-1, [q], two), events, 3, World(-1, [q, NewRequest], two));
    RunFrom(World(-1, [q, NewRequest], two), events, 4, World(0, [q, Global(Preparing, 0, 0, 0)], two));
    RunNone(World(0, [q, Global(Preparing, 0, 0, 0)], two));
  }

  lemma SentTwice(events: seq<Event>)
    requires |events| >= 3 && events[..3] == [Send(0), Done(0), EndOfDone(0)]
    ensures Run(DoneButSending, events) ==
            Run(World(-1, [Request(Launched, 2, true, 2, 2, true)], [AjaxStart, AjaxStop]), events[3..])
  {
    var first, two := events[..3], [AjaxStart, AjaxStop];
    assert events[0] == first[0] && events[1] == first[1] && events[2] == first[2] && events[0..] == events;
    hide Run;
    RunFrom(DoneButSending, events, 0, World(0, [Request(Launched, 1, true, 1, 1, true)], two));
    RunFrom(World(0, [Request(Launched, 1, true, 1, 1, true)], two), events, 1,
            World(0, [Request(Launched, 2, true, 2, 1, true)], two));
    RunFrom(World(0, [Request(Launched, 2, true, 2, 1, true)], two), events, 2,
            World(-1, [Request(Launched, 2, true, 2, 2, true)], two));
  }

  lemma RunNone(w: World)
    ensures Run(w, []) == w
  {
  }

  // ---- the closures of jQuery.ajax as methods

  class Ajax {
    var active: int
    var requests: seq<Request>
    var signals: seq<Signal>

    function View(): World
      reads this
    {
      World(active, requests, signals)
    }

    constructor ()
      ensures View() == NoRequests
    {
      active, requests, signals := 0, [], [];
    }

    method CreateRequest() returns (r: nat)
      modifies this
      ensures View() == Step(old(View()), Create) && r == |old(requests)|
    {
      r := |requests|;
      requests := requests + [NewRequest];
    }

    method AnnounceRequest(r: nat, isGlobal: bool)
      requires r < |requests| && requests[r].phase == Prefiltering
      modifies this
      ensures View() == Step(old(View()), Announce(r, isGlobal))
    {
      if requests[r].state == 2 {
        requests := requests[r := requests[r].(phase := Over)];
        return;
      }
      requests := requests[r := requests[r].(phase := Preparing, fireGlobals := isGlobal)];
      if requests[r].fireGlobals {
        var before := active;
        active := active + 1;
        if before == 0 {
          signals := signals + [AjaxStart];
        }
      }
    }

    // Without the option nothing is asked here, not even whether the request is done.
    method BeforeSendReturned(r: nat, hooked: bool, refused: bool)
      requires r < |requests| && requests[r].phase == Preparing
      modifies this
      ensures View() == Step(old(View()), Prepared(r, hooked, refused))
    {
      if hooked && (refused || requests[r].state == 2) {
        EnterDone(r);
        requests := requests[r := requests[r].(phase := Over)];
      } else {
        requests := requests[r := requests[r].(phase := Choosing)];
      }
    }

    method TransportChosen(r: nat, found: bool)
      requires r < |requests| && requests[r].phase == Choosing
      modifies this
      ensures View() == Step(old(View()), Chosen(r, found))
    {
      if !found {
        EnterDone(r);
        requests := requests[r := requests[r].(phase := Over)];
      } else {
        requests := requests[r := requests[r].(phase := Sending)];
      }
    }

    method SendRequest(r: nat)
      requires r < |requests| && requests[r].phase == Sending
      modifies this
      ensures View() == Step(old(View()), Send(r))
    {
      requests := requests[r := requests[r].(phase := Launched, state := 1, reopened := requests[r].state == 2)];
    }

    method EnterDone(r: nat)
      requires r < |requests|
      modifies this
      ensures View() == Step(old(View()), Done(r))
    {
      if requests[r].state == 2 {
        return;
      }
      requests := requests[r := requests[r].(state := 2, bodies := requests[r].bodies + 1)];
    }

    method EndDone(r: nat)
      requires r < |requests| && requests[r].exits < requests[r].bodies
      modifies this
      ensures View() == Step(old(View()), EndOfDone(r))
    {
      requests := requests[r := requests[r].(exits := requests[r].exits + 1)];
      if requests[r].fireGlobals {
        active := active - 1;
        if active == 0 {
          signals := signals + [AjaxStop];
        }
      }
    }
  }
}
