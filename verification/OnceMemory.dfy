/** "once memory" lists, the ones a Deferred is made of, are single assignment: every
    registration is called at most once, with the value of the first fireWith, and the
    calls come in registration order whether the callback was added before, during or
    after that fire. */
module OnceMemory {
  import opened Options
  import opened CallbackMachine
  import opened RegistrationLists
  import opened CallbackPasses

  ghost predicate SameValue(passes: seq<Pass>, v: Value) {
    forall i :: 0 <= i < |passes| ==> passes[i].v == v
  }

  // The registrations ever made that were not removed before being called.
  ghost function Schedule(s: State): seq<Entry> {
    Kept(s.registered, s.withdrawn)
  }

  ghost function FirstValue(s: State): Value {
    if s.accepted != [] then s.accepted[0] else 0
  }

  // The calls made so far are the first ones of the schedule; the others are the list
  // from position pos on.
  ghost predicate OnSchedule(s: State, pos: int) {
    && (forall id :: id in s.withdrawn ==> id < |s.registered|)
    && |AllCalls(s.passes)| <= |Schedule(s)|
    && AllCalls(s.passes) == CallsOf(Schedule(s)[..|AllCalls(s.passes)|], FirstValue(s))
    && (s.list.Some? ==> 0 <= pos <= |s.list.value| && Schedule(s)[|AllCalls(s.passes)|..] == s.list.value[pos..])
  }

  ghost predicate Single(s: State) {
    && |s.accepted| <= 1
    && (s.passes != [] ==> s.accepted != [] && SameValue(s.passes, s.accepted[0]))
    && (s.accepted != [] && s.list.Some? ==> s.memory.Remembered?)
  }

  // Holds whenever the environment has control.
  ghost predicate OnceInv(f: Flags, s: State) {
    && Inv(f, s)
    && Single(s)
    && OnSchedule(s, if s.firing then s.firingIndex + 1 else 0)
    && (!s.firing && s.fired && s.list.Some? ==> s.list.value == [])
  }

  ghost predicate OnceHead(f: Flags, s: State) {
    && AtHead(f, s)
    && Single(s)
    && OnSchedule(s, s.firingIndex)
  }

  lemma AllCallsReplaceLast(passes: seq<Pass>, p: Pass)
    requires passes != []
    ensures AllCalls(passes[|passes| - 1 := p]) == AllCalls(passes[..|passes| - 1]) + p.calls
    ensures AllCalls(passes) == AllCalls(passes[..|passes| - 1]) + passes[|passes| - 1].calls
  {
    assert passes[|passes| - 1 := p][..|passes| - 1] == passes[..|passes| - 1];
  }

  lemma AllCallsAppend(passes: seq<Pass>, p: Pass)
    ensures AllCalls(passes + [p]) == AllCalls(passes) + p.calls
  {
    assert (passes + [p])[..|passes|] == passes;
  }

  // ---- the loop of `fire`

  lemma OnceCalled(f: Flags, s: State)
    requires f.once && f.memory && OnceHead(f, s) && AtCall(s)
    ensures OnceInv(f, Called(s))
  {
    hide Ordered, AllRegistered, DistinctFns, Numbered, HistoryOk, EndingsOk, FiredValues, Kept,
         PassOk, AllCalls, Fifo, Inv;
    CalledInv(f, s);
    var p' := Last(Called(s));
    AllCallsReplaceLast(s.passes, p');
    var k, n := Schedule(s), |AllCalls(s.passes)|;
    assert k[n] == s.list.value[s.firingIndex];
    assert k[..n + 1] == k[..n] + [k[n]];
    CallsOfAppend(k[..n], [k[n]], FirstValue(s));
    assert CallsOf([k[n]], FirstValue(s)) == [Call(k[n].id, FirstValue(s))];
    assert AllCalls(Called(s).passes) == AllCalls(s.passes) + [Call(k[n].id, FirstValue(s))];
  }

  lemma OnceFinish(f: Flags, s: State, ending: Ending, pos: int)
    requires f.once && f.memory && Inv(f, Finish(f, s, ending))
    requires s.passes != [] && |s.accepted| == 1 && SameValue(s.passes, s.accepted[0])
    requires s.stack.Some? ==> s.stack.value == []
    requires OnSchedule(s, pos)
    requires s.list.Some? ==> s.memory == Halted || (s.memory.Remembered? && pos == |s.list.value|)
    ensures OnceInv(f, Finish(f, s, ending))
  {
    hide Ordered, AllRegistered, DistinctFns, Numbered, HistoryOk, EndingsOk, FiredValues, Kept,
         PassOk, AllCalls, Fifo, Inv;
    AllCallsReplaceLast(s.passes, Last(s).(ending := ending));
  }

  lemma OnceAdvance(f: Flags, s: State)
    requires f.once && f.memory && OnceHead(f, s)
    ensures OnceInv(f, Advance(f, s))
  {
    hide Ordered, AllRegistered, DistinctFns, Numbered, HistoryOk, EndingsOk, FiredValues, Kept, PassOk, AllCalls;
    AdvanceInv(f, s);
    if AtCall(s) {
      OnceCalled(f, s);
    } else {
      OnceFinish(f, s, if s.list.Some? then Completed else Disabled, s.firingIndex);
    }
  }

  lemma OncePrepare(f: Flags, s: State, v: Value, cause: Cause)
    requires s.list.Some? && f.once && f.memory && AtHead(f, Prepare(f, s, v, cause))
    requires |s.accepted| == 1 && v == s.accepted[0] && s.firingStart == 0
    requires SameValue(s.passes, v)
    requires OnSchedule(s, 0)
    ensures OnceHead(f, Prepare(f, s, v, cause))
  {
    hide Ordered, AllRegistered, DistinctFns, Numbered, HistoryOk, EndingsOk, FiredValues, Kept, PassOk, AllCalls, Fifo;
    AllCallsAppend(s.passes, Last(Prepare(f, s, v, cause)));
  }

  // ---- the actions of the environment

  lemma OnceReturn(f: Flags, s: State, isFalse: bool)
    requires f.once && f.memory && OnceInv(f, s) && s.firing
    ensures OnceInv(f, ReturnStep(f, s, isFalse))
  {
    hide Ordered, AllRegistered, DistinctFns, Numbered, HistoryOk, EndingsOk, FiredValues, Kept, PassOk, AllCalls;
    ReturnInv(f, s, isFalse);
    if isFalse && f.stopOnFalse {
      var t := s.(memory := Halted);
      OnceFinish(f, t, if s.list.Some? then Stopped else Disabled, s.firingIndex + 1);
    } else {
      OnceAdvance(f, s.(firingIndex := s.firingIndex + 1));
    }
  }

  lemma ScheduleGrows(registered: seq<Entry>, withdrawn: set<nat>, added: seq<Entry>)
    requires forall id :: id in withdrawn ==> id < |registered|
    requires forall i :: 0 <= i < |added| ==> added[i].id == |registered| + i
    ensures Kept(registered + added, withdrawn) == Kept(registered, withdrawn) + added
  {
    KeptAppend(registered, added, withdrawn);
    KeptAll(added, withdrawn);
  }

  // What is added goes to the end of the schedule.
  lemma OnceLonger(f: Flags, s: State, args: seq<Arg>, pos: int)
    requires OnSchedule(s, pos) && s.list.Some?
    ensures var added := Fresh(s.list.value, Flatten(args), f.unique, |s.registered|);
            OnSchedule(s.(list := Some(s.list.value + added), registered := s.registered + added), pos)
  {
    hide AllCalls, Kept, Flatten;
    var added := Fresh(s.list.value, Flatten(args), f.unique, |s.registered|);
    FreshIds(s.list.value, Flatten(args), f.unique, |s.registered|);
    ScheduleGrows(s.registered, s.withdrawn, added);
    var n := |AllCalls(s.passes)|;
    assert (Schedule(s) + added)[..n] == Schedule(s)[..n];
    assert (Schedule(s) + added)[n..] == Schedule(s)[n..] + added;
  }

  lemma SameCalls(s: State, t: State, pos: int)
    requires OnSchedule(s, pos) && AllCalls(t.passes) == AllCalls(s.passes) && t.list == s.list
    requires t.registered == s.registered && t.withdrawn == s.withdrawn && t.accepted == s.accepted
    ensures OnSchedule(t, pos)
  {
  }

  lemma OnceAddFiring(f: Flags, s: State, args: seq<Arg>)
    requires f.once && f.memory && OnceInv(f, s) && s.list.Some? && s.firing && Inv(f, AddStep(f, s, args))
    ensures OnceInv(f, AddStep(f, s, args))
  {
    hide Inv, AllCalls, Kept, OnSchedule, Flatten, Fresh;
    var added := Fresh(s.list.value, Flatten(args), f.unique, |s.registered|);
    var t := s.(list := Some(s.list.value + added), registered := s.registered + added);
    OnceLonger(f, s, args, s.firingIndex + 1);
    if s.passes != [] {
      AllCallsReplaceLast(s.passes, Last(s).(eligible := Last(s).eligible + added));
    }
    SameCalls(t, AddStep(f, s, args), s.firingIndex + 1);
  }

  lemma OnceAddReplay(f: Flags, s: State, args: seq<Arg>)
    requires f.once && f.memory && OnceInv(f, s) && s.list.Some? && !s.firing && s.memory.Remembered?
    ensures OnceInv(f, AddStep(f, s, args))
  {
    hide Ordered, AllRegistered, DistinctFns, Numbered, HistoryOk, EndingsOk, FiredValues, Kept,
         PassOk, AllCalls, Fifo, Flatten, OnSchedule;
    var added := Fresh(s.list.value, Flatten(args), f.unique, |s.registered|);
    var t := s.(list := Some(s.list.value + added), registered := s.registered + added);
    OnceLonger(f, s, args, 0);
    FreshIds(s.list.value, Flatten(args), f.unique, |s.registered|);
    AddList(f, s, Flatten(args));
    HistoryGrows(f, s.passes, s.registered, added);
    var u := t.(firingStart := |s.list.value|);
    PrepareReplay(f, u, s.memory.v);
    SameCalls(t, u, 0);
    OncePrepare(f, u, s.memory.v, ByAdd);
    OnceAdvance(f, Prepare(f, u, s.memory.v, ByAdd));
  }

  lemma FiredIsRemembered(f: Flags, s: State)
    requires OnceInv(f, s) && s.list.Some? && s.fired
    ensures s.memory.Remembered?
  {
    hide ListOk, HistoryOk, EndingsOk, Fifo, Aligned, OnSchedule;
  }

  lemma OnceAdd(f: Flags, s: State, args: seq<Arg>)
    requires f.once && f.memory && OnceInv(f, s)
    ensures OnceInv(f, AddStep(f, s, args))
  {
    hide Inv, AllCalls, Kept, OnSchedule, Flatten, Fresh;
    AddInv(f, s, args);
    if s.list.Some? {
      if s.firing {
        OnceAddFiring(f, s, args);
      } else if s.memory.Remembered? {
        OnceAddReplay(f, s, args);
      } else {
        OnceLonger(f, s, args, 0);
        if s.fired {
          FiredIsRemembered(f, s);
        }
      }
    }
  }

  lemma ScheduleOrdered(f: Flags, s: State)
    requires ListOk(f, s)
    ensures Ordered(Schedule(s))
  {
    KeptOrdered(s.registered, s.withdrawn);
  }

  lemma WithdrawnKnown(list: seq<Entry>, registered: seq<Entry>, fn: Fn, calls: seq<Call>)
    requires AllRegistered(list, registered)
    ensures forall id :: id in Uncalled(list, fn, calls) ==> id < |registered|
  {
  }

  lemma OnceRemoveOne(f: Flags, s: State, fn: Fn)
    requires f.once && f.memory && OnceInv(f, s) && s.list.Some?
    requires Inv(f, RemoveOne(s, fn))
    ensures OnceInv(f, RemoveOne(s, fn))
  {
    hide Ordered, AllRegistered, DistinctFns, Numbered, HistoryOk, EndingsOk, FiredValues, Kept,
         PassOk, AllCalls, Fifo, Without, Uncalled;
    var list := s.list.value;
    var pos := if s.firing then s.firingIndex + 1 else 0;
    var calls := AllCalls(s.passes);
    var k := Schedule(s);
    ScheduleOrdered(f, s);
    RemoveFromSchedule(k, |calls|, list, pos, fn, calls);
    KeptTwice(s.registered, s.withdrawn, Uncalled(list, fn, calls));
    WithdrawnKnown(list, s.registered, fn, calls);
    assert list == list[..pos] + list[pos..];
    WithoutAppend(list[..pos], list[pos..], fn);
    WithoutMembers([], fn);
    if s.firing {
      AllCallsReplaceLast(s.passes, Last(RemoveOne(s, fn)));
    }
  }

  lemma OnceRemove(f: Flags, s: State, fns: seq<Fn>)
    requires f.once && f.memory && OnceInv(f, s)
    ensures OnceInv(f, RemoveStep(s, fns))
    decreases |fns|
  {
    if s.list.Some? && fns != [] {
      OneRemoval(f, s, fns[0]);
      OnceRemoveOne(f, s, fns[0]);
      OnceRemove(f, RemoveOne(s, fns[0]), fns[1..]);
    }
  }

  lemma OnceDisable(f: Flags, s: State)
    requires f.once && f.memory && OnceInv(f, s)
    ensures OnceInv(f, DisableStep(s)) && OnceInv(f, LockStep(s))
  {
    hide Ordered, AllRegistered, DistinctFns, Numbered, HistoryOk, EndingsOk, FiredValues, Kept,
         PassOk, AllCalls, Fifo, Inv;
    DisableInv(f, s);
  }

  lemma OnceFire(f: Flags, s: State, v: Value)
    requires f.once && f.memory && OnceInv(f, s)
    ensures OnceInv(f, FireStep(f, s, v))
    ensures s.accepted != [] ==> FireStep(f, s, v).accepted == s.accepted
  {
    hide Ordered, AllRegistered, DistinctFns, Numbered, HistoryOk, EndingsOk, FiredValues, Kept, PassOk, AllCalls;
    FireInv(f, s, v);
    if s.stack.Some? && !s.firing && s.memory == Nothing {
      var t := s.(accepted := s.accepted + [v]);
      assert s.passes == [];
      assert FiredValues(s.passes) == [] by { EmptyHistory(); }
      PrepareFire(f, t, v);
      EmptyHistory();
      OncePrepare(f, t, v, ByFire);
      OnceAdvance(f, Prepare(f, t, v, ByFire));
    }
  }

  lemma EmptyHistory()
    ensures FiredValues([]) == [] && AllCalls([]) == []
  {
  }

  lemma OnceStep(f: Flags, s: State, a: Action)
    requires f.once && f.memory && OnceInv(f, s)
    ensures OnceInv(f, Step(f, s, a))
  {
    hide OnceInv, Inv;
    match a
    case Add(args) => OnceAdd(f, s, args);
    case Remove(fns) => OnceRemove(f, s, fns);
    case FireWith(v) => OnceFire(f, s, v);
    case Lock => OnceDisable(f, s);
    case Disable => OnceDisable(f, s);
    case Return(isFalse) => if s.firing { OnceReturn(f, s, isFalse); }
  }

  lemma {:induction false} OnceRun(f: Flags, s: State, actions: seq<Action>)
    requires f.once && f.memory && OnceInv(f, s)
    ensures OnceInv(f, Run(f, s, actions))
    ensures s.accepted != [] ==> Run(f, s, actions).accepted == s.accepted
    decreases |actions|
  {
    if actions != [] {
      OnceStep(f, s, actions[0]);
      AcceptedStep(f, s, actions[0]);
      hide OnceInv, Step;
      OnceRun(f, Step(f, s, actions[0]), actions[1..]);
    }
  }

  // ---- which fireWith it is

  ghost function FirstFire(actions: seq<Action>): Option<Value> {
    if actions == [] then None
    else if actions[0].FireWith? then Some(actions[0].v)
    else FirstFire(actions[1..])
  }

  lemma AdvanceKeepsAccepted(f: Flags, s: State)
    requires f.once
    ensures Advance(f, s).accepted == s.accepted
    ensures s.stack.None? ==> Advance(f, s).stack.None?
  {
  }

  lemma RemoveKeepsAccepted(s: State, fns: seq<Fn>)
    ensures RemoveStep(s, fns).accepted == s.accepted
    ensures s.stack.None? ==> RemoveStep(s, fns).stack.None?
    decreases |fns|
  {
    if s.list.Some? && fns != [] {
      RemoveKeepsAccepted(RemoveOne(s, fns[0]), fns[1..]);
    }
  }

  lemma AcceptedStep(f: Flags, s: State, a: Action)
    requires f.once && f.memory && OnceInv(f, s)
    ensures !a.FireWith? || s.accepted != [] || s.stack.None? ==> Step(f, s, a).accepted == s.accepted
    ensures a.FireWith? && s.accepted == [] && s.stack.Some? ==> Step(f, s, a).accepted == [a.v]
    ensures s.stack.None? ==> Step(f, s, a).stack.None?
  {
    hide Ordered, AllRegistered, DistinctFns, Numbered, HistoryOk, EndingsOk, FiredValues, Kept, PassOk, AllCalls;
    match a
    case Add(args) =>
      if s.list.Some? && !s.firing && s.memory.Remembered? {
        var added := Fresh(s.list.value, Flatten(args), f.unique, |s.registered|);
        var t := s.(list := Some(s.list.value + added), registered := s.registered + added,
                    firingStart := |s.list.value|);
        AdvanceKeepsAccepted(f, Prepare(f, t, s.memory.v, ByAdd));
      }
    case Remove(fns) => RemoveKeepsAccepted(s, fns);
    case FireWith(v) =>
      if s.stack.Some? && !s.firing && s.memory == Nothing {
        AdvanceKeepsAccepted(f, Prepare(f, s.(accepted := s.accepted + [v]), v, ByFire));
      }
    case Lock =>
    case Disable =>
    case Return(isFalse) =>
      AdvanceKeepsAccepted(f, s.(firingIndex := s.firingIndex + 1));
  }

  // The value a list settles on is that of the first fireWith of the run, unless the list
  // was locked or disabled before it.
  lemma {:induction false} FirstFireWins(f: Flags, s: State, actions: seq<Action>)
    requires f.once && f.memory && OnceInv(f, s) && s.accepted == []
    ensures var r := Run(f, s, actions);
            && (r.accepted != [] ==> FirstFire(actions) == Some(r.accepted[0]))
            && (r.stack.Some? && FirstFire(actions).Some? ==> r.accepted != [])
    decreases |actions|
  {
    if actions != [] {
      var t := Step(f, s, actions[0]);
      AcceptedStep(f, s, actions[0]);
      OnceStep(f, s, actions[0]);
      hide OnceInv, Step;
      if t.accepted == [] {
        FirstFireWins(f, t, actions[1..]);
        if actions[0].FireWith? {
          NoStackNoFire(f, t, actions[1..]);
        }
      } else {
        OnceRun(f, t, actions[1..]);
      }
    }
  }

  lemma {:induction false} NoStackNoFire(f: Flags, s: State, actions: seq<Action>)
    requires f.once && f.memory && OnceInv(f, s) && s.stack.None?
    ensures Run(f, s, actions).accepted == s.accepted && Run(f, s, actions).stack.None?
    decreases |actions|
  {
    if actions != [] {
      AcceptedStep(f, s, actions[0]);
      OnceStep(f, s, actions[0]);
      hide OnceInv, Step;
      NoStackNoFire(f, Step(f, s, actions[0]), actions[1..]);
    }
  }

  // ---- the theorem

  lemma InitialOnce(f: Flags)
    ensures OnceInv(f, Initial)
  {
    assert Kept([], {}) == [];
  }

  // Over every run: the calls are, in registration order, those of a prefix of the
  // registrations not removed before their turn, all with the value of the first fireWith;
  // once the list has fired and is at rest (and is not disabled) they are all of them.
  lemma SingleAssignment(f: Flags, actions: seq<Action>)
    requires f.once && f.memory
    ensures var s := Run(f, Initial, actions);
            var v := FirstFire(actions);
            && (s.accepted != [] ==> v.Some?)
            && (AllCalls(s.passes) != [] ==> v.Some? && AllCalls(s.passes) <= CallsOf(Schedule(s), v.value))
            && (s.fired && !s.firing && s.list.Some? ==>
                  v.Some? && AllCalls(s.passes) == CallsOf(Schedule(s), v.value))
            && Ordered(Schedule(s))
  {
    var s := Run(f, Initial, actions);
    InitialOnce(f);
    OnceRun(f, Initial, actions);
    FirstFireWins(f, Initial, actions);
    hide *;
    ScheduleFacts(f, s);
  }

  lemma ScheduleFacts(f: Flags, s: State)
    requires f.once && f.memory && OnceInv(f, s)
    ensures Ordered(Schedule(s))
    ensures AllCalls(s.passes) != [] ==> s.accepted != []
    ensures AllCalls(s.passes) <= CallsOf(Schedule(s), FirstValue(s))
    ensures s.fired && !s.firing && s.list.Some? ==>
              s.accepted != [] && AllCalls(s.passes) == CallsOf(Schedule(s), FirstValue(s))
    ensures s.accepted != [] ==> FirstValue(s) == s.accepted[0]
  {
    ScheduleOrdered(f, s);
    EmptyHistory();
    hide Ordered, AllRegistered, DistinctFns, Numbered, HistoryOk, EndingsOk, FiredValues, Kept, PassOk, AllCalls;
    var k, n := Schedule(s), |AllCalls(s.passes)|;
    CallsOfAppend(k[..n], k[n..], FirstValue(s));
    assert k == k[..n] + k[n..];
    assert s.passes != [] || AllCalls(s.passes) == AllCalls([]);
  }

  // So every registration is called at most once over the whole run.
  lemma CalledAtMostOnce(f: Flags, actions: seq<Action>, id: nat)
    requires f.once && f.memory
    ensures TimesCalled(AllCalls(Run(f, Initial, actions).passes), id) <= 1
  {
    var s := Run(f, Initial, actions);
    InitialOnce(f);
    OnceRun(f, Initial, actions);
    ScheduleFacts(f, s);
    hide OnceInv, Kept, AllCalls, Run;
    var n := |AllCalls(s.passes)|;
    assert AllCalls(s.passes) == CallsOf(Schedule(s)[..n], FirstValue(s));
    TimesInSchedule(Schedule(s)[..n], FirstValue(s), id);
  }
}
