/** jQuery.when with two or more arguments: a counting join.

    What happens to the join is a sequence of events: for every argument in turn what `then`
    finds (a plain value, or a deferred that may be settled already and may have notified),
    the end of the loop, and afterwards the inputs' resolutions, rejections and
    notifications in any order. Each event ends with at most one call on the master
    deferred, in tail position, so calls made by the master's own callbacks are events that
    come later in the sequence. */
module WhenJoin {
  import opened Options

  // What an argument slot can hold: the argument itself, or what a callback was given.
  datatype Slot = Given(v: int) | Promised | Undefined | Several(vs: seq<int>)

  datatype Standing = Unsettled | ResolvedWith(values: seq<int>) | RejectedWith(values: seq<int>)

  datatype Input = Plain(v: int) | Promise(standing: Standing, notified: Option<seq<int>>)

  datatype Event =
    | Skip(i: nat)                           // argument i is not a deferred
    | Resolve(i: nat, values: seq<int>)
    | Reject(i: nat, values: seq<int>)
    | Notify(i: nat, values: seq<int>)
    | EndOfLoop

  datatype MasterCall = ResolveWith(slots: seq<Slot>) | RejectWith(values: seq<int>) | NotifyWith(slots: seq<Slot>)

  datatype Join = Join(args: seq<Slot>, pValues: seq<Slot>, count: int, calls: seq<MasterCall>)

  // arguments.length > 1 ? slice.call( arguments, 0 ) : value
  function Pack(values: seq<int>): Slot {
    if |values| > 1 then Several(values) else if |values| == 1 then Given(values[0]) else Undefined
  }

  function SlotOf(input: Input): Slot {
    match input case Plain(v) => Given(v) case Promise(_, _) => Promised
  }

  function Begin(inputs: seq<Input>): Join {
    Join(seq(|inputs|, i requires 0 <= i < |inputs| => SlotOf(inputs[i])),
         seq(|inputs|, i => Undefined), |inputs|, [])
  }

  function Handle(s: Join, e: Event): Join {
    match e
    case Skip(_) => s.(count := s.count - 1)
    case Resolve(i, values) =>
      if i < |s.args| then
        var t := s.(args := s.args[i := Pack(values)], count := s.count - 1);
        if t.count == 0 then t.(calls := t.calls + [ResolveWith(t.args)]) else t
      else s
    case Reject(_, values) => s.(calls := s.calls + [RejectWith(values)])
    case Notify(i, values) =>
      if i < |s.pValues| then
        var t := s.(pValues := s.pValues[i := Pack(values)]);
        t.(calls := t.calls + [NotifyWith(t.pValues)])
      else s
    case EndOfLoop => if s.count == 0 then s.(calls := s.calls + [ResolveWith(s.args)]) else s
  }

  function HandleAll(s: Join, events: seq<Event>): Join {
    if events == [] then s
    else Handle(HandleAll(s, events[..|events| - 1]), events[|events| - 1])
  }

  // What `then` makes happen at once for argument i: done, fail and progress in this order.
  function AtOnce(i: nat, input: Input): seq<Event> {
    match input
    case Plain(_) => [Skip(i)]
    case Promise(standing, notified) =>
      (match standing
       case Unsettled => []
       case ResolvedWith(values) => [Resolve(i, values)]
       case RejectedWith(values) => [Reject(i, values)]) +
      (match notified case None => [] case Some(values) => [Notify(i, values)])
  }

  function InLoop(inputs: seq<Input>, n: nat): seq<Event>
    requires n <= |inputs|
  {
    if n == 0 then [] else InLoop(inputs, n - 1) + AtOnce(n - 1, inputs[n - 1])
  }

  function History(inputs: seq<Input>, later: seq<Event>): seq<Event> {
    InLoop(inputs, |inputs|) + [EndOfLoop] + later
  }

  // Later events come from the deferred inputs; a deferred settles at most once.
  ghost predicate Possible(inputs: seq<Input>, later: seq<Event>) {
    && (forall k :: 0 <= k < |later| ==>
          && (later[k].Resolve? || later[k].Reject? || later[k].Notify?)
          && later[k].i < |inputs| && inputs[later[k].i].Promise?)
    && (forall k :: 0 <= k < |later| && !later[k].Notify? ==> inputs[later[k].i].standing == Unsettled)
    && (forall j, k :: 0 <= j < k < |later| && !later[j].Notify? && !later[k].Notify? ==> later[j].i != later[k].i)
  }

  // ---- what the join should do

  // Arguments accounted for: plain values and resolved deferreds.
  ghost function Accounted(events: seq<Event>): set<nat> {
    set k | 0 <= k < |events| && (events[k].Skip? || events[k].Resolve?) :: events[k].i
  }

  ghost function FirstReject(events: seq<Event>): Option<seq<int>> {
    if events == [] then None
    else
      var front := FirstReject(events[..|events| - 1]);
      if front.None? && events[|events| - 1].Reject? then Some(events[|events| - 1].values) else front
  }

  // The first call that decides the master's state.
  ghost function Verdict(calls: seq<MasterCall>): Option<MasterCall> {
    if calls == [] then None
    else
      var front := Verdict(calls[..|calls| - 1]);
      if front.None? && !calls[|calls| - 1].NotifyWith? then Some(calls[|calls| - 1]) else front
  }

  // A slot shows the arguments of one call: an array of them if they are several, the only one,
  // or nothing.
  ghost predicate Shows(values: seq<int>, slot: Slot) {
    && (|values| > 1 ==> slot == Several(values))
    && (|values| == 1 ==> slot == Given(values[0]))
    && (values == [] ==> slot == Undefined)
  }

  // The value argument i contributes, once it is accounted for.
  ghost predicate Contributes(inputs: seq<Input>, events: seq<Event>, i: nat, slot: Slot)
    requires i < |inputs|
  {
    if inputs[i].Plain? then slot == Given(inputs[i].v)
    else exists k :: 0 <= k < |events| && events[k].Resolve? && events[k].i == i && Shows(events[k].values, slot)
  }

  // The slot of input i in the array of progress values shows its last notification.
  ghost predicate NoteShown(events: seq<Event>, i: nat, slot: Slot) {
    if events == [] then slot == Undefined
    else
      var e := events[|events| - 1];
      if e.Notify? && e.i == i then Shows(e.values, slot) else NoteShown(events[..|events| - 1], i, slot)
  }

  ghost predicate NotesShown(inputs: seq<Input>, events: seq<Event>, slots: seq<Slot>) {
    |slots| == |inputs| && forall i :: 0 <= i < |inputs| ==> NoteShown(events, i, slots[i])
  }

  // The arrays that notifyWith was called with.
  ghost function Notes(calls: seq<MasterCall>): seq<seq<Slot>> {
    if calls == [] then []
    else
      var front, c := Notes(calls[..|calls| - 1]), calls[|calls| - 1];
      if c.NotifyWith? then front + [c.slots] else front
  }

  // One for each notification, with the last values of all inputs by then.
  ghost predicate NotesRight(inputs: seq<Input>, events: seq<Event>, notes: seq<seq<Slot>>)
    decreases |events|
  {
    if events == [] then notes == []
    else
      var front, e := events[..|events| - 1], events[|events| - 1];
      if e.Notify? then
        notes != [] && NotesShown(inputs, events, notes[|notes| - 1]) &&
        NotesRight(inputs, front, notes[..|notes| - 1])
      else NotesRight(inputs, front, notes)
  }

  // Two events that cannot both happen, in this order.
  ghost predicate Clash(d: Event, e: Event) {
    || (!d.EndOfLoop? && !d.Notify? && !e.EndOfLoop? && !e.Notify? && d.i == e.i)
    || (d.EndOfLoop? && (e.Skip? || e.EndOfLoop?))
  }

  ghost predicate CanFollow(inputs: seq<Input>, events: seq<Event>, e: Event) {
    && (e.EndOfLoop? || (e.i < |inputs| && (e.Skip? <==> (inputs[e.i].Plain? && !e.Notify?))))
    && (e.Notify? ==> inputs[e.i].Promise?)
    && (forall k :: 0 <= k < |events| ==> !Clash(events[k], e))
  }

  // What every prefix of a history satisfies.
  ghost predicate WellFormed(inputs: seq<Input>, events: seq<Event>) {
    events != [] ==>
      var front := events[..|events| - 1];
      WellFormed(inputs, front) && CanFollow(inputs, front, events[|events| - 1])
  }

  lemma WellFormedAppend(inputs: seq<Input>, events: seq<Event>, e: Event)
    requires WellFormed(inputs, events) && CanFollow(inputs, events, e)
    ensures WellFormed(inputs, events + [e])
  {
    assert (events + [e])[..|events|] == events;
  }

  // The events of the first n arguments, all about those arguments.
  ghost predicate About(inputs: seq<Input>, events: seq<Event>, n: nat) {
    forall k :: 0 <= k < |events| ==>
      && !events[k].EndOfLoop? && events[k].i < n
      && (!events[k].Notify? && n <= |inputs| ==>
            inputs[events[k].i].Plain? || inputs[events[k].i].standing != Unsettled)
  }

  lemma FirstAboutArgument(inputs: seq<Input>, events: seq<Event>, e: Event)
    requires !e.EndOfLoop? && !e.Notify? && About(inputs, events, e.i) && e.i < |inputs|
    requires e.Skip? <==> inputs[e.i].Plain?
    ensures CanFollow(inputs, events, e)
  {
  }

  lemma AboutGrows(inputs: seq<Input>, events: seq<Event>, n: nat)
    requires n < |inputs| && About(inputs, events, n)
    ensures About(inputs, events + AtOnce(n, inputs[n]), n + 1)
  {
  }

  lemma ThenWellFormed(inputs: seq<Input>, events: seq<Event>, n: nat)
    requires n < |inputs| && WellFormed(inputs, events) && About(inputs, events, n)
    ensures WellFormed(inputs, events + AtOnce(n, inputs[n]))
  {
    hide WellFormed, About;
    match inputs[n]
    case Plain(_) =>
      FirstAboutArgument(inputs, events, Skip(n));
      WellFormedAppend(inputs, events, Skip(n));
    case Promise(standing, notified) =>
      var settled := match standing
        case Unsettled => []
        case ResolvedWith(values) => [Resolve(n, values)]
        case RejectedWith(values) => [Reject(n, values)];
      if settled == [] {
        assert events + settled == events;
      } else {
        FirstAboutArgument(inputs, events, settled[0]);
        WellFormedAppend(inputs, events, settled[0]);
      }
      if notified.Some? {
        WellFormedAppend(inputs, events + settled, Notify(n, notified.value));
        assert events + (settled + [Notify(n, notified.value)]) == events + settled + [Notify(n, notified.value)];
      } else {
        assert settled + [] == settled;
      }
  }

  lemma InLoopWellFormed(inputs: seq<Input>, n: nat)
    requires n <= |inputs|
    ensures WellFormed(inputs, InLoop(inputs, n)) && About(inputs, InLoop(inputs, n), n)
  {
    hide WellFormed, About, AtOnce;
    if n == 0 {
      NothingYet(inputs);
    } else {
      InLoopWellFormed(inputs, n - 1);
      ThenWellFormed(inputs, InLoop(inputs, n - 1), n - 1);
      AboutGrows(inputs, InLoop(inputs, n - 1), n - 1);
    }
  }

  lemma NothingYet(inputs: seq<Input>)
    ensures WellFormed(inputs, []) && About(inputs, [], 0)
  {
  }

  lemma LoopEnds(inputs: seq<Input>, events: seq<Event>)
    requires About(inputs, events, |inputs|)
    ensures CanFollow(inputs, events, EndOfLoop)
  {
  }

  lemma LaterFollows(inputs: seq<Input>, later: seq<Event>)
    requires Possible(inputs, later) && later != []
    requires About(inputs, InLoop(inputs, |inputs|), |inputs|)
    ensures CanFollow(inputs, History(inputs, later[..|later| - 1]), later[|later| - 1])
  {
    hide InLoop;
    var loop, front, e := InLoop(inputs, |inputs|), later[..|later| - 1], later[|later| - 1];
    assert forall k :: 0 <= k < |loop| ==> !Clash(loop[k], e);
    assert forall k :: 0 <= k < |front| ==> !Clash(front[k], e);
    ClashesNowhere(loop, front, e);
  }

  lemma ClashesNowhere(first: seq<Event>, second: seq<Event>, e: Event)
    requires forall k :: 0 <= k < |first| ==> !Clash(first[k], e)
    requires forall k :: 0 <= k < |second| ==> !Clash(second[k], e)
    requires !Clash(EndOfLoop, e)
    ensures forall k :: 0 <= k < |first + [EndOfLoop] + second| ==> !Clash((first + [EndOfLoop] + second)[k], e)
  {
    hide Clash;
    var all := first + [EndOfLoop] + second;
    forall k | 0 <= k < |all|
      ensures !Clash(all[k], e)
    {
      assert all[k] == if k < |first| then first[k] else if k == |first| then EndOfLoop else second[k - |first| - 1];
    }
  }

  lemma {:induction false} HistoryWellFormed(inputs: seq<Input>, later: seq<Event>)
    requires Possible(inputs, later)
    ensures WellFormed(inputs, History(inputs, later))
    ensures EndOfLoop in History(inputs, later)
    decreases |later|
  {
    hide WellFormed, About, InLoop, CanFollow;
    InLoopWellFormed(inputs, |inputs|);
    var loop := InLoop(inputs, |inputs|);
    if later == [] {
      LoopEnds(inputs, loop);
      WellFormedAppend(inputs, loop, EndOfLoop);
      assert History(inputs, []) == loop + [EndOfLoop];
    } else {
      var front := later[..|later| - 1];
      HistoryWellFormed(inputs, front);
      LaterFollows(inputs, later);
      WellFormedAppend(inputs, History(inputs, front), later[|later| - 1]);
      assert History(inputs, later) == History(inputs, front) + [later[|later| - 1]];
    }
  }

  ghost function Range(n: nat): (r: set<nat>)
    ensures |r| == n && forall i: nat :: i in r <==> i < n
  {
    if n == 0 then {} else
      var below := Range(n - 1);
      assert n - 1 !in below;
      below + {n - 1}
  }

  lemma AllOfRange(s: set<nat>, n: nat)
    requires s <= Range(n)
    ensures |s| <= n && (|s| == n ==> s == Range(n))
  {
    assert Range(n) - s + s == Range(n);
    assert |Range(n) - s| + |s| == n;
  }

  lemma AccountedGrows(events: seq<Event>)
    requires events != []
    ensures var e := events[|events| - 1];
            Accounted(events) == Accounted(events[..|events| - 1]) + if e.Skip? || e.Resolve? then {e.i} else {}
  {
    var front, e := events[..|events| - 1], events[|events| - 1];
    assert forall k :: 0 <= k < |front| ==> front[k] == events[k];
    forall i | i in Accounted(events)
      ensures i in Accounted(front) + if e.Skip? || e.Resolve? then {e.i} else {}
    {
      var k :| 0 <= k < |events| && (events[k].Skip? || events[k].Resolve?) && events[k].i == i;
      assert k < |front| ==> front[k].i == i;
    }
  }

  // The counter: it is the number of arguments not accounted for.
  ghost predicate Counts(inputs: seq<Input>, events: seq<Event>, s: Join) {
    && |s.args| == |s.pValues| == |inputs|
    && Accounted(events) <= Range(|inputs|)
    && s.count == |inputs| - |Accounted(events)|
  }

  // The slots of accounted arguments hold their values.
  ghost predicate Holds(inputs: seq<Input>, events: seq<Event>, s: Join) {
    && |s.args| == |inputs|
    && (forall i :: 0 <= i < |inputs| && inputs[i].Plain? ==> s.args[i] == Given(inputs[i].v))
    && (forall i :: 0 <= i < |inputs| && i in Accounted(events) ==> Contributes(inputs, events, i, s.args[i]))
  }

  // The first rejection decides; without one, only the last resolution can.
  ghost predicate VerdictOk(events: seq<Event>, s: Join) {
    && (FirstReject(events).Some? ==> s.count > 0 && Verdict(s.calls) == Some(RejectWith(FirstReject(events).value)))
    && (FirstReject(events).None? && Verdict(s.calls).Some? ==>
          s.count == 0 && Verdict(s.calls) == Some(ResolveWith(s.args)))
    && (EndOfLoop in events && s.count == 0 ==> Verdict(s.calls).Some?)
  }

  // However often resolveWith is called, it is with the same values.
  ghost predicate ResolvesAlike(s: Join) {
    forall k :: 0 <= k < |s.calls| && s.calls[k].ResolveWith? ==> s.count == 0 && s.calls[k].slots == s.args
  }

  ghost predicate Decided(events: seq<Event>, s: Join) {
    VerdictOk(events, s) && ResolvesAlike(s)
  }

  lemma {:induction false} CountsAll(inputs: seq<Input>, events: seq<Event>)
    requires WellFormed(inputs, events)
    ensures Counts(inputs, events, HandleAll(Begin(inputs), events))
  {
    if events == [] {
      assert Accounted(events) == {};
    } else {
      var front, e := events[..|events| - 1], events[|events| - 1];
      CountsAll(inputs, front);
      AccountedGrows(events);
      if e.Skip? || e.Resolve? {
        NotYetAccounted(inputs, events);
        assert e.i < |inputs|;
      }
      CountsStep(inputs, events, HandleAll(Begin(inputs), front));
    }
  }

  lemma CountsStep(inputs: seq<Input>, events: seq<Event>, s: Join)
    requires events != [] && Counts(inputs, events[..|events| - 1], s)
    requires var front, e := events[..|events| - 1], events[|events| - 1];
             && Accounted(events) == Accounted(front) + (if e.Skip? || e.Resolve? then {e.i} else {})
             && (e.Skip? || e.Resolve? ==> e.i < |inputs| && e.i !in Accounted(front))
    ensures Counts(inputs, events, Handle(s, events[|events| - 1]))
  {
    hide Accounted, Pack, Range;
    var front, e := events[..|events| - 1], events[|events| - 1];
    if e.Skip? || e.Resolve? {
      OneMore(Accounted(front), e.i, |inputs|);
    } else {
      assert Accounted(front) + {} == Accounted(front);
    }
  }

  lemma OneMore(s: set<nat>, i: nat, n: nat)
    requires s <= Range(n) && i < n && i !in s
    ensures s + {i} <= Range(n) && |s + {i}| == |s| + 1
  {
  }

  lemma NotYetAccounted(inputs: seq<Input>, events: seq<Event>)
    requires WellFormed(inputs, events) && events != []
    requires events[|events| - 1].Skip? || events[|events| - 1].Resolve? || events[|events| - 1].Reject?
    ensures events[|events| - 1].i !in Accounted(events[..|events| - 1])
  {
  }

  lemma ContributesLater(inputs: seq<Input>, events: seq<Event>, i: nat, slot: Slot)
    requires events != [] && i < |inputs| && Contributes(inputs, events[..|events| - 1], i, slot)
    ensures Contributes(inputs, events, i, slot)
  {
    if inputs[i].Promise? {
      var front := events[..|events| - 1];
      var k :| 0 <= k < |front| && front[k].Resolve? && front[k].i == i && Shows(front[k].values, slot);
      assert events[k] == front[k];
    }
  }

  lemma {:induction false} HoldsAll(inputs: seq<Input>, events: seq<Event>)
    requires WellFormed(inputs, events)
    ensures Holds(inputs, events, HandleAll(Begin(inputs), events))
  {
    if events == [] {
      assert Accounted(events) == {};
    } else {
      var front, e := events[..|events| - 1], events[|events| - 1];
      assert WellFormed(inputs, front);
      HoldsAll(inputs, front);
      CountsAll(inputs, front);
      AccountedGrows(events);
      assert CanFollow(inputs, front, e);
      HoldsStep(inputs, events, HandleAll(Begin(inputs), front));
    }
  }

  lemma HoldsStep(inputs: seq<Input>, events: seq<Event>, s: Join)
    requires events != []
    requires Holds(inputs, events[..|events| - 1], s)
    requires var e := events[|events| - 1];
             && Accounted(events) == Accounted(events[..|events| - 1]) + (if e.Skip? || e.Resolve? then {e.i} else {})
             && CanFollow(inputs, events[..|events| - 1], e)
    ensures Holds(inputs, events, Handle(s, events[|events| - 1]))
  {
    hide Accounted;
    var front, e := events[..|events| - 1], events[|events| - 1];
    var t := Handle(s, e);
    forall i | 0 <= i < |inputs| && i in Accounted(events)
      ensures Contributes(inputs, events, i, t.args[i])
    {
      if e.Resolve? && e.i == i {
        assert events[|events| - 1].Resolve?;
      } else if i in Accounted(front) {
        ContributesLater(inputs, events, i, t.args[i]);
      }
    }
  }

  lemma NotesAppend(calls: seq<MasterCall>, c: MasterCall)
    ensures Notes(calls + [c]) == if c.NotifyWith? then Notes(calls) + [c.slots] else Notes(calls)
  {
    assert (calls + [c])[..|calls|] == calls;
  }

  lemma {:induction false} NotesAll(inputs: seq<Input>, events: seq<Event>)
    requires WellFormed(inputs, events)
    ensures var s := HandleAll(Begin(inputs), events);
            NotesShown(inputs, events, s.pValues) && NotesRight(inputs, events, Notes(s.calls))
  {
    if events != [] {
      var front, e := events[..|events| - 1], events[|events| - 1];
      assert WellFormed(inputs, front);
      NotesAll(inputs, front);
      assert CanFollow(inputs, front, e);
      NotesStep(inputs, events, HandleAll(Begin(inputs), front));
    }
  }

  lemma NotesAfter(s: Join, e: Event)
    requires e.Notify? ==> e.i < |s.pValues|
    ensures var t := Handle(s, e);
            Notes(t.calls) == if e.Notify? then Notes(s.calls) + [t.pValues] else Notes(s.calls)
  {
    hide Notes, Pack;
    var t := Handle(s, e);
    if t.calls != s.calls {
      NotesAppend(s.calls, t.calls[|s.calls|]);
    }
  }

  lemma ShownAfter(inputs: seq<Input>, events: seq<Event>, s: Join)
    requires events != [] && NotesShown(inputs, events[..|events| - 1], s.pValues)
    ensures NotesShown(inputs, events, Handle(s, events[|events| - 1]).pValues)
  {
    var e := events[|events| - 1];
    var t := Handle(s, e);
    forall i | 0 <= i < |inputs|
      ensures NoteShown(events, i, t.pValues[i])
    {
      assert NoteShown(events[..|events| - 1], i, s.pValues[i]);
    }
  }

  lemma NotesStep(inputs: seq<Input>, events: seq<Event>, s: Join)
    requires events != [] && (events[|events| - 1].Notify? ==> events[|events| - 1].i < |inputs|)
    requires NotesShown(inputs, events[..|events| - 1], s.pValues)
    requires NotesRight(inputs, events[..|events| - 1], Notes(s.calls))
    ensures var t := Handle(s, events[|events| - 1]);
            NotesShown(inputs, events, t.pValues) && NotesRight(inputs, events, Notes(t.calls))
  {
    ShownAfter(inputs, events, s);
    NotesAfter(s, events[|events| - 1]);
    hide Notes, NoteShown, Handle;
    var notes := Notes(s.calls) + [Handle(s, events[|events| - 1]).pValues];
    assert notes[..|notes| - 1] == Notes(s.calls);
  }

  // A rejected argument is never accounted for.
  lemma {:induction false} RejectedNeverAccounted(inputs: seq<Input>, events: seq<Event>) returns (i: nat)
    requires WellFormed(inputs, events) && FirstReject(events).Some?
    ensures i < |inputs| && i !in Accounted(events)
    ensures exists k :: 0 <= k < |events| && events[k].Reject? && events[k].i == i
  {
    var front, e := events[..|events| - 1], events[|events| - 1];
    AccountedGrows(events);
    if FirstReject(front).Some? {
      i := RejectedNeverAccounted(inputs, front);
      var k :| 0 <= k < |front| && front[k].Reject? && front[k].i == i;
      assert !Clash(front[k], e);
      assert events[k] == front[k];
    } else {
      i := e.i;
      NotYetAccounted(inputs, events);
      assert events[|events| - 1].Reject?;
    }
  }

  lemma VerdictAppend(calls: seq<MasterCall>, c: MasterCall)
    ensures Verdict(calls + [c]) ==
            if Verdict(calls).Some? || c.NotifyWith? then Verdict(calls) else Some(c)
  {
    assert (calls + [c])[..|calls|] == calls;
  }

  lemma {:induction false} DecidedAll(inputs: seq<Input>, events: seq<Event>)
    requires WellFormed(inputs, events)
    ensures Decided(events, HandleAll(Begin(inputs), events))
  {
    if events != [] {
      var front := events[..|events| - 1];
      assert WellFormed(inputs, front);
      DecidedAll(inputs, front);
      AllowedNext(inputs, events);
      hide WellFormed, Allowed, Decided;
      DecidedStep(events, HandleAll(Begin(inputs), front));
    }
  }

  // What the history allows event e to meet in state s.
  ghost predicate Allowed(events: seq<Event>, s: Join) {
    events != [] &&
    var e := events[|events| - 1];
    && (e.EndOfLoop? || (e.i < |s.args| && e.i < |s.pValues|))
    && s.count >= 0 && Handle(s, e).count >= 0
    && (e.Skip? || e.Resolve? || e.Reject? ==> s.count > 0)
    && (FirstReject(events).Some? ==> Handle(s, e).count > 0)
    && (e.Skip? ==> EndOfLoop !in events[..|events| - 1])
  }

  lemma AllowedNext(inputs: seq<Input>, events: seq<Event>)
    requires WellFormed(inputs, events) && events != []
    ensures Allowed(events, HandleAll(Begin(inputs), events[..|events| - 1]))
  {
    var front, e := events[..|events| - 1], events[|events| - 1];
    assert WellFormed(inputs, front);
    assert e.EndOfLoop? || e.i < |inputs|;
    CountsAll(inputs, front);
    CountsAll(inputs, events);
    AllOfRange(Accounted(front), |inputs|);
    AllOfRange(Accounted(events), |inputs|);
    if FirstReject(events).Some? {
      var _ := RejectedNeverAccounted(inputs, events);
    }
    if e.Skip? || e.Resolve? || e.Reject? {
      NotYetAccounted(inputs, events);
    }
    hide WellFormed, Accounted, FirstReject;
  }

  lemma DecidedStep(events: seq<Event>, s: Join)
    requires Allowed(events, s) && Decided(events[..|events| - 1], s)
    ensures Decided(events, Handle(s, events[|events| - 1]))
  {
    VerdictStep(events, s);
    hide VerdictOk, FirstReject;
  }

  lemma VerdictStep(events: seq<Event>, s: Join)
    requires Allowed(events, s) && VerdictOk(events[..|events| - 1], s)
    ensures VerdictOk(events, Handle(s, events[|events| - 1]))
  {
    var front, e := events[..|events| - 1], events[|events| - 1];
    var t := Handle(s, e);
    LastEvent(events);
    hide FirstReject, Verdict;
    VerdictAfter(s, e);
  }

  lemma LastEvent(events: seq<Event>)
    requires events != []
    ensures var front, e := events[..|events| - 1], events[|events| - 1];
            && FirstReject(events) == (if FirstReject(front).None? && e.Reject? then Some(e.values)
                                       else FirstReject(front))
            && (EndOfLoop in events <==> EndOfLoop in front || e == EndOfLoop)
  {
    var front, e := events[..|events| - 1], events[|events| - 1];
    assert events == front + [e];
  }

  lemma VerdictAfter(s: Join, e: Event)
    requires e.EndOfLoop? || (e.i < |s.args| && e.i < |s.pValues|)
    ensures var t := Handle(s, e);
            Verdict(t.calls) ==
            if Verdict(s.calls).Some? then Verdict(s.calls)
            else if e.Reject? then Some(RejectWith(e.values))
            else if (e.Resolve? || e.EndOfLoop?) && t.count == 0 then Some(ResolveWith(t.args))
            else None
  {
    hide Verdict;
    var t := Handle(s, e);
    if t.calls != s.calls {
      VerdictAppend(s.calls, t.calls[|s.calls|]);
    }
  }

  // ---- the theorem

  // For every mixture of plain and deferred arguments, settled before or after the call in
  // any order: the counter is the number of arguments not accounted for; the master is
  // rejected with the first rejection's arguments, or else resolved, once every argument is
  // accounted for, with their values in argument order, or else left pending; a second
  // resolveWith says the same as the first; and every notification is passed on, with the last
  // values of all the inputs.
  lemma JoinIsCorrect(inputs: seq<Input>, later: seq<Event>)
    requires Possible(inputs, later)
    ensures var h := History(inputs, later);
            var s := HandleAll(Begin(inputs), h);
            && |s.args| == |inputs| && Accounted(h) <= Range(|inputs|)
            && s.count == |inputs| - |Accounted(h)|
            && Verdict(s.calls) ==
               (if FirstReject(h).Some? then Some(RejectWith(FirstReject(h).value))
                else if Accounted(h) == Range(|inputs|) then Some(ResolveWith(s.args))
                else None)
            && (forall i :: 0 <= i < |inputs| && i in Accounted(h) ==> Contributes(inputs, h, i, s.args[i]))
            && (forall k :: 0 <= k < |s.calls| && s.calls[k].ResolveWith? ==> s.calls[k].slots == s.args)
            && NotesShown(inputs, h, s.pValues) && NotesRight(inputs, h, Notes(s.calls))
  {
    var h := History(inputs, later);
    HistoryWellFormed(inputs, later);
    CountsAll(inputs, h);
    HoldsAll(inputs, h);
    DecidedAll(inputs, h);
    NotesAll(inputs, h);
    AllOfRange(Accounted(h), |inputs|);
    hide History, HandleAll, Accounted, FirstReject, Verdict, Begin, WellFormed;
  }

  // ---- the same, told from the arguments and what happens to them later

  // What `then` finds in an argument during the call.
  ghost predicate Immediate(inputs: seq<Input>, e: Event) {
    !e.EndOfLoop? && e.i < |inputs| &&
    match e
    case Skip(i) => inputs[i].Plain?
    case Resolve(i, values) => inputs[i].Promise? && inputs[i].standing == ResolvedWith(values)
    case Reject(i, values) => inputs[i].Promise? && inputs[i].standing == RejectedWith(values)
    case Notify(i, values) => inputs[i].Promise? && inputs[i].notified == Some(values)
    case EndOfLoop => false
  }

  lemma {:induction false} InLoopTells(inputs: seq<Input>, n: nat, e: Event)
    requires n <= |inputs|
    ensures e in InLoop(inputs, n) <==> Immediate(inputs, e) && e.i < n
    decreases n
  {
    hide AtOnce;
    if n > 0 {
      InLoopTells(inputs, n - 1, e);
      AtOnceTells(inputs, n - 1, e);
      InLoopStep(inputs, n, e);
    }
    ImmediateIsNoEnd(inputs, e);
    hide Immediate;
  }

  lemma InLoopStep(inputs: seq<Input>, n: nat, e: Event)
    requires 0 < n <= |inputs|
    ensures e in InLoop(inputs, n) <==> e in InLoop(inputs, n - 1) || e in AtOnce(n - 1, inputs[n - 1])
  {
    hide AtOnce;
  }

  lemma ImmediateIsNoEnd(inputs: seq<Input>, e: Event)
    ensures Immediate(inputs, e) ==> !e.EndOfLoop?
  {
  }

  lemma AtOnceTells(inputs: seq<Input>, i: nat, e: Event)
    requires i < |inputs|
    ensures e in AtOnce(i, inputs[i]) <==> Immediate(inputs, e) && e.i == i
  {
  }

  // Everything that happens, during the call and later.
  lemma HistoryTells(inputs: seq<Input>, later: seq<Event>, e: Event)
    ensures e in History(inputs, later) <==> Immediate(inputs, e) || e == EndOfLoop || e in later
  {
    InLoopTells(inputs, |inputs|, e);
    hide InLoop;
    assert Immediate(inputs, e) ==> e.i < |inputs|;
  }

  ghost predicate Supplied(inputs: seq<Input>, later: seq<Event>, i: nat)
    requires i < |inputs|
  {
    match inputs[i]
    case Plain(_) => true
    case Promise(standing, _) =>
      standing.ResolvedWith? || exists k :: 0 <= k < |later| && later[k].Resolve? && later[k].i == i
  }

  // What an argument supplies: itself, what its deferred was resolved with, or is later.
  ghost predicate Supplies(inputs: seq<Input>, later: seq<Event>, i: nat, slot: Slot)
    requires i < |inputs|
  {
    match inputs[i]
    case Plain(v) => slot == Given(v)
    case Promise(standing, _) =>
      if standing.ResolvedWith? then Shows(standing.values, slot)
      else exists k :: 0 <= k < |later| && later[k].Resolve? && later[k].i == i && Shows(later[k].values, slot)
  }

  // The first argument in order that is rejected already, or else the first one rejected later.
  ghost function RejectedAlready(inputs: seq<Input>): Option<seq<int>> {
    if inputs == [] then None
    else if inputs[0].Promise? && inputs[0].standing.RejectedWith? then Some(inputs[0].standing.values)
    else RejectedAlready(inputs[1..])
  }

  ghost function FirstRejection(inputs: seq<Input>, later: seq<Event>): Option<seq<int>> {
    if RejectedAlready(inputs).Some? then RejectedAlready(inputs) else FirstReject(later)
  }

  lemma {:induction false} FirstRejectAppend(first: seq<Event>, second: seq<Event>)
    ensures FirstReject(first + second) == if FirstReject(first).Some? then FirstReject(first) else FirstReject(second)
    decreases |second|
  {
    if second == [] {
      assert first + second == first;
    } else {
      assert (first + second)[..|first + second| - 1] == first + second[..|second| - 1];
      FirstRejectAppend(first, second[..|second| - 1]);
    }
  }

  lemma {:induction false} RejectedInLoop(inputs: seq<Input>, n: nat)
    requires n <= |inputs|
    ensures FirstReject(InLoop(inputs, n)) == RejectedAlready(inputs[..n])
    decreases n
  {
    if n == 0 {
      NoneRejected(inputs);
    } else {
      hide FirstReject, AtOnce, RejectedAlready, InLoop;
      RejectedInLoop(inputs, n - 1);
      InLoopIs(inputs, n);
      RejectedAtOnce(n - 1, inputs[n - 1]);
      RejectedStep(InLoop(inputs, n - 1), AtOnce(n - 1, inputs[n - 1]), inputs[..n - 1], inputs[n - 1]);
      assert inputs[..n] == inputs[..n - 1] + [inputs[n - 1]];
    }
  }

  lemma RejectedStep(first: seq<Event>, second: seq<Event>, inputs: seq<Input>, input: Input)
    requires FirstReject(first) == RejectedAlready(inputs) && FirstReject(second) == RejectedAlready([input])
    ensures FirstReject(first + second) == RejectedAlready(inputs + [input])
  {
    hide *;
    FirstRejectAppend(first, second);
    RejectedAppend(inputs, input);
  }

  lemma InLoopIs(inputs: seq<Input>, n: nat)
    requires 0 < n <= |inputs|
    ensures InLoop(inputs, n) == InLoop(inputs, n - 1) + AtOnce(n - 1, inputs[n - 1])
  {
  }

  lemma NoneRejected(inputs: seq<Input>)
    ensures FirstReject(InLoop(inputs, 0)) == RejectedAlready(inputs[..0])
  {
  }

  lemma RejectedAtOnce(i: nat, input: Input)
    ensures FirstReject(AtOnce(i, input)) == RejectedAlready([input])
  {
    if input.Promise? {
      var settled := match input.standing
        case Unsettled => []
        case ResolvedWith(values) => [Resolve(i, values)]
        case RejectedWith(values) => [Reject(i, values)];
      var noted := match input.notified case None => [] case Some(values) => [Notify(i, values)];
      FirstRejectAppend(settled, noted);
      assert [input][1..] == [];
      assert settled != [] ==> settled[..0] == [];
      assert noted != [] ==> noted[..0] == [];
    }
  }

  lemma {:induction false} RejectedAppend(inputs: seq<Input>, input: Input)
    ensures RejectedAlready(inputs + [input]) ==
            if RejectedAlready(inputs).Some? then RejectedAlready(inputs) else RejectedAlready([input])
    decreases |inputs|
  {
    if inputs == [] {
      assert inputs + [input] == [input];
    } else {
      assert (inputs + [input])[1..] == inputs[1..] + [input];
      RejectedAppend(inputs[1..], input);
    }
  }

  lemma FirstRejectOfHistory(inputs: seq<Input>, later: seq<Event>)
    ensures FirstReject(History(inputs, later)) == FirstRejection(inputs, later)
  {
    RejectedInLoop(inputs, |inputs|);
    assert inputs[..|inputs|] == inputs;
    FirstRejectAppend(InLoop(inputs, |inputs|), [EndOfLoop]);
    FirstRejectAppend(InLoop(inputs, |inputs|) + [EndOfLoop], later);
    assert [EndOfLoop][..0] == [];
    assert FirstReject([EndOfLoop]) == None;
  }

  lemma AccountedIsSupplied(inputs: seq<Input>, later: seq<Event>, i: nat)
    requires Possible(inputs, later) && i < |inputs|
    ensures i in Accounted(History(inputs, later)) <==> Supplied(inputs, later, i)
  {
    hide History;
    var h := History(inputs, later);
    if i in Accounted(h) {
      var k :| 0 <= k < |h| && (h[k].Skip? || h[k].Resolve?) && h[k].i == i;
      HistoryTells(inputs, later, h[k]);
    }
    if inputs[i].Plain? {
      HistoryTells(inputs, later, Skip(i));
    } else if inputs[i].standing.ResolvedWith? {
      HistoryTells(inputs, later, Resolve(i, inputs[i].standing.values));
    } else if Supplied(inputs, later, i) {
      var k :| 0 <= k < |later| && later[k].Resolve? && later[k].i == i;
      HistoryTells(inputs, later, later[k]);
    }
  }

  lemma ContributesIsSupplies(inputs: seq<Input>, later: seq<Event>, i: nat, slot: Slot)
    requires Possible(inputs, later) && i < |inputs| && Contributes(inputs, History(inputs, later), i, slot)
    ensures Supplies(inputs, later, i, slot)
  {
    hide History, Shows;
    if inputs[i].Promise? {
      var h := History(inputs, later);
      var k :| 0 <= k < |h| && h[k].Resolve? && h[k].i == i && Shows(h[k].values, slot);
      HistoryTells(inputs, later, h[k]);
    }
  }

  // The master's fate and its values, in terms of the arguments alone.
  lemma JoinOutcome(inputs: seq<Input>, later: seq<Event>)
    requires Possible(inputs, later)
    ensures var s := HandleAll(Begin(inputs), History(inputs, later));
            && |s.args| == |inputs|
            && Verdict(s.calls) ==
               (if FirstRejection(inputs, later).Some? then Some(RejectWith(FirstRejection(inputs, later).value))
                else if forall i :: 0 <= i < |inputs| ==> Supplied(inputs, later, i) then Some(ResolveWith(s.args))
                else None)
            && (forall i :: 0 <= i < |inputs| && Supplied(inputs, later, i) ==>
                  Supplies(inputs, later, i, s.args[i]))
  {
    hide History, HandleAll, Verdict, FirstReject, FirstRejection, Supplied, Supplies, Contributes;
    var h := History(inputs, later);
    var s := HandleAll(Begin(inputs), h);
    JoinIsCorrect(inputs, later);
    FirstRejectOfHistory(inputs, later);
    forall i | 0 <= i < |inputs|
      ensures i in Accounted(h) <==> Supplied(inputs, later, i)
      ensures Supplied(inputs, later, i) ==> Supplies(inputs, later, i, s.args[i])
    {
      AccountedIsSupplied(inputs, later, i);
      if i in Accounted(h) {
        ContributesIsSupplies(inputs, later, i, s.args[i]);
      }
    }
    assert Accounted(h) == Range(|inputs|) <==> forall i :: 0 <= i < |inputs| ==> i in Accounted(h);
  }
}
