// A Deferred settles once, and only the matching side's callbacks ever run.
module DeferredRuns {
  import opened Options
  import opened CallbackMachine
  import opened RegistrationLists
  import opened CallbackPasses
  import opened OnceMemory
  import opened Deferred

  // The constructor's functions come first, everything after them is a user's.
  ghost predicate Wired(s: State) {
    && |s.registered| >= 3
    && s.registered[0].fn == SET_STATE && s.registered[1].fn == DISABLE_OTHER && s.registered[2].fn == LOCK_PROGRESS
    && (forall i :: 3 <= i < |s.registered| ==> s.registered[i].fn >= 3)
  }

  ghost predicate Once(s: State) {
    OnceInv(ONCE, s) && Wired(s) && s.withdrawn == {}
  }

  // Not fired yet.
  ghost predicate Waiting(s: State) {
    && Once(s) && !s.firing && !s.fired && s.list.Some? && s.stack == Some([])
    && s.accepted == [] && s.passes == []
  }

  // Fired; the constructor's functions have run, so what runs is a user's.
  ghost predicate Won(s: State) {
    && Once(s) && s.fired && s.list.Some? && s.accepted != [] && |AllCalls(s.passes)| >= 3
    && (s.firing ==> Current(s) >= 3 && AtCall(s))
  }

  // Disabled before it could fire.
  ghost predicate Lost(s: State) {
    Once(s) && !s.firing && s.list.None? && s.stack.None? && s.passes == [] && s.accepted == []
  }

  ghost predicate ProgressOk(s: State, pending: bool) {
    && Inv(REPEATED, s)
    && (if pending then s.list.Some? && s.stack.Some? else s.stack.None? && (s.list.Some? <==> s.fired))
  }

  ghost predicate ControlOk(w: World) {
    && (forall side :: side in w.control <==> Get(w, side).firing)
    && (forall i, j :: 0 <= i < j < |w.control| ==> w.control[i] != w.control[j])
  }

  // Holds whenever a user has control.
  ghost predicate DeferredInv(w: World) {
    && ControlOk(w)
    && ProgressOk(w.progress, w.status == Pending)
    && match w.status
       case Pending => Waiting(w.done) && Waiting(w.fail)
       case Resolved => Won(w.done) && Lost(w.fail)
       case Rejected => Won(w.fail) && Lost(w.done)
  }

  // ---- one "once memory" list

  // What the loop calls next is the first registration not called yet.
  lemma NextOnSchedule(s: State)
    requires OnSchedule(s, s.firingIndex) && s.withdrawn == {} && AtCall(s)
    ensures |AllCalls(s.passes)| < |s.registered|
    ensures s.list.value[s.firingIndex] == s.registered[|AllCalls(s.passes)|]
  {
    hide AllCalls;
    KeptAll(s.registered, {});
    assert s.registered[|AllCalls(s.passes)|..][0] == s.list.value[s.firingIndex..][0];
  }

  lemma CalledIsCurrent(s: State)
    requires AtCall(s)
    ensures |AllCalls(Called(s).passes)| == |AllCalls(s.passes)| + 1
    ensures var id := s.list.value[s.firingIndex].id;
            id < |s.registered| ==> Current(Called(s)) == s.registered[id].fn
  {
    hide AllCalls;
    AllCallsReplaceLast(s.passes, Last(Called(s)));
  }

  lemma RegisteredId(f: Flags, s: State)
    requires AtHead(f, s) && AtCall(s)
    ensures var e := s.list.value[s.firingIndex]; e.id < |s.registered| && s.registered[e.id] == e
  {
  }

  lemma NextCall(s: State)
    requires OnceHead(ONCE, s) && s.withdrawn == {} && AtCall(s)
    ensures |AllCalls(s.passes)| < |s.registered|
    ensures Current(Called(s)) == s.registered[|AllCalls(s.passes)|].fn
    ensures |AllCalls(Called(s).passes)| == |AllCalls(s.passes)| + 1
  {
    hide AllCalls, AtHead, OnSchedule, Current, Called;
    NextOnSchedule(s);
    CalledIsCurrent(s);
    RegisteredId(ONCE, s);
  }

  // The head of the loop: a call of the first registration not called yet, or rest.
  lemma OnceGoesOn(s: State)
    requires OnceHead(ONCE, s) && s.withdrawn == {} && s.list.Some?
    ensures var t := Advance(ONCE, s);
            var n := |AllCalls(s.passes)|;
            && OnceInv(ONCE, t) && t.list.Some? && t.registered == s.registered && t.withdrawn == {}
            && t.accepted == s.accepted && t.stack == s.stack && t.fired
            && (t.firing <==> n < |s.registered|)
            && (t.firing ==> AtCall(t) && Current(t) == s.registered[n].fn && |AllCalls(t.passes)| == n + 1)
            && (!t.firing ==> |AllCalls(t.passes)| == n)
  {
    hide Ordered, AllRegistered, DistinctFns, Numbered, HistoryOk, EndingsOk, FiredValues, PassOk,
         Fifo, ListOk, AllCalls, Current;
    OnceAdvance(ONCE, s);
    KeptAll(s.registered, {});
    if AtCall(s) {
      NextCall(s);
    } else {
      AllCallsReplaceLast(s.passes, Last(s).(ending := Completed));
    }
  }

  lemma OnceReturns(s: State, isFalse: bool)
    requires OnceInv(ONCE, s) && s.withdrawn == {} && s.list.Some? && s.firing
    ensures var t := ReturnStep(ONCE, s, isFalse);
            var n := |AllCalls(s.passes)|;
            && OnceInv(ONCE, t) && t.list.Some? && t.registered == s.registered && t.withdrawn == {}
            && t.accepted == s.accepted && t.stack == s.stack && t.fired
            && (t.firing <==> n < |s.registered|)
            && (t.firing ==> AtCall(t) && Current(t) == s.registered[n].fn && |AllCalls(t.passes)| == n + 1)
            && (!t.firing ==> |AllCalls(t.passes)| == n)
  {
    hide Ordered, AllRegistered, DistinctFns, Numbered, HistoryOk, EndingsOk, FiredValues, PassOk,
         Fifo, ListOk, AllCalls, Current, Kept, Advance;
    LoopGoesOn(ONCE, s, isFalse);
    OnceGoesOn(s.(firingIndex := s.firingIndex + 1));
  }

  lemma OnceStarts(s: State, v: Value)
    requires Waiting(s)
    ensures var t := FireStep(ONCE, s, v);
            && OnceInv(ONCE, t) && t.list.Some? && t.registered == s.registered && t.withdrawn == {}
            && t.accepted == [v] && t.stack == s.stack && t.fired
            && t.firing && AtCall(t) && Current(t) == SET_STATE && |AllCalls(t.passes)| == 1
  {
    hide Ordered, AllRegistered, DistinctFns, Numbered, HistoryOk, EndingsOk, FiredValues, PassOk,
         Fifo, ListOk, AllCalls, Current, Kept, Advance;
    var u := s.(accepted := s.accepted + [v]);
    FireReady(ONCE, s, v);
    EmptyHistory();
    OncePrepare(ONCE, u, v, ByFire);
    AllCallsAppend(s.passes, Last(Prepare(ONCE, u, v, ByFire)));
    OnceGoesOn(Prepare(ONCE, u, v, ByFire));
  }

  // The constructor's three functions run one after another before anything else can.
  lemma Settling(w: World, side: Side, s: State)
    requires side != Progress && Get(w, side) == s && w.control != []
    requires OnceInv(ONCE, s) && Wired(s) && s.withdrawn == {} && s.list.Some? && s.firing && AtCall(s) && s.fired
    requires Current(s) == SET_STATE && |AllCalls(s.passes)| == 1
    ensures var s1 := ReturnStep(ONCE, s, false);
            var s2 := ReturnStep(ONCE, s1, false);
            var t := ReturnStep(ONCE, s2, false);
            && OnceInv(ONCE, t) && t.list.Some? && t.registered == s.registered && t.withdrawn == {}
            && t.accepted == s.accepted && t.fired
            && |AllCalls(t.passes)| >= 3
            && (t.firing ==> AtCall(t) && Current(t) >= 3)
            && Proceed(w, side) ==
               Put(Put(w, side, t), Other(side), DisableStep(Get(w, Other(side))))
               .(status := if side == Done then Resolved else Rejected,
                 progress := LockStep(w.progress),
                 control := if t.firing then w.control else w.control[1..])
  {
    hide OnceInv, AllCalls, Current, ReturnStep, DisableStep, LockStep, AtCall;
    OnceReturns(s, false);
    var s1 := ReturnStep(ONCE, s, false);
    OnceReturns(s1, false);
    var s2 := ReturnStep(ONCE, s1, false);
    OnceReturns(s2, false);
    var t := ReturnStep(ONCE, s2, false);
    var w1 := Put(Effect(w, side, SET_STATE), side, s1);
    var w2 := Put(Effect(w1, side, DISABLE_OTHER), side, s2);
    var w3 := Put(Effect(w2, side, LOCK_PROGRESS), side, t);
    assert Proceed(w, side) == Proceed(w1, side);
    assert Proceed(w1, side) == Proceed(w2, side);
    assert Proceed(w2, side) == if t.firing then Proceed(w3, side) else w3.(control := w.control[1..]);
    assert t.firing ==> Proceed(w3, side) == w3;
  }

  // ---- registrations

  lemma FlattenFuncs(fns: seq<Fn>)
    ensures Flatten(Funcs(fns)) == fns
  {
    if fns != [] {
      FlattenFuncs(fns[1..]);
      assert Funcs(fns)[1..] == Funcs(fns[1..]);
      assert Flatten(Funcs(fns)) == [fns[0]] + Flatten(Funcs(fns[1..]));
    } else {
      assert Funcs(fns) == [];
    }
  }

  lemma FreshFunctions(list: seq<Entry>, fns: seq<Fn>, next: nat)
    requires forall i :: 0 <= i < |fns| ==> fns[i] >= 3
    ensures forall e :: e in Fresh(list, fns, false, next) ==> e.fn >= 3
    ensures |Fresh(list, fns, false, next)| == |fns|
    decreases |fns|
  {
    if fns != [] {
      FreshFunctions(list + [Entry(fns[0], next)], fns[1..], next + 1);
    }
  }

  // What a user registers is a user's function, and each one is registered.
  lemma UserRegisters(list: seq<Entry>, fns: seq<nat>, next: nat)
    ensures var added := Fresh(list, Flatten(UserArgs(fns)), false, next);
            |added| == |fns| && forall i :: 0 <= i < |added| ==> added[i].fn >= 3
  {
    FlattenFuncs(seq(|fns|, i requires 0 <= i < |fns| => fns[i] + 3));
    FreshFunctions(list, Flatten(UserArgs(fns)), next);
  }

  // The registrations of a list after a user's functions were added to it.
  ghost function EntriesAdded(s: State, fns: seq<nat>): seq<Entry> {
    if s.list.None? then s.registered
    else s.registered + Fresh(s.list.value, Flatten(UserArgs(fns)), false, |s.registered|)
  }

  lemma AddWhileWaiting(s: State, fns: seq<nat>)
    requires Waiting(s)
    ensures Waiting(AddStep(ONCE, s, UserArgs(fns)))
    ensures AddStep(ONCE, s, UserArgs(fns)).registered == EntriesAdded(s, fns)
  {
    hide OnceInv, Flatten, UserArgs, Fresh;
    OnceAdd(ONCE, s, UserArgs(fns));
    UserRegisters(s.list.value, fns, |s.registered|);
    WaitingFacts(s);
  }

  lemma WaitingFacts(s: State)
    requires OnceInv(ONCE, s) && !s.fired
    ensures s.list.Some? ==> s.memory == Nothing
  {
  }

  lemma WonFacts(s: State)
    requires OnceInv(ONCE, s) && s.fired && s.list.Some? && s.accepted != []
    ensures s.memory.Remembered? && s.passes != [] && s.accepted == [s.memory.v]
  {
  }

  lemma CurrentWhenAdded(s: State, added: seq<Entry>, t: State)
    requires s.passes != [] && Current(s) >= 3
    requires forall i :: 0 <= i < |added| ==> added[i].fn >= 3
    requires t.registered == s.registered + added
    requires t.passes == s.passes[|s.passes| - 1 := Last(s).(eligible := Last(s).eligible + added)]
    ensures Current(t) >= 3 && AllCalls(t.passes) == AllCalls(s.passes)
  {
    AllCallsReplaceLast(s.passes, Last(s).(eligible := Last(s).eligible + added));
  }

  lemma AddWhenWon(s: State, fns: seq<nat>)
    requires Won(s)
    ensures Won(AddStep(ONCE, s, UserArgs(fns)))
    ensures AddStep(ONCE, s, UserArgs(fns)).accepted == s.accepted
    ensures AddStep(ONCE, s, UserArgs(fns)).registered == EntriesAdded(s, fns)
    ensures s.firing ==> AddStep(ONCE, s, UserArgs(fns)).firing
  {
    hide OnceInv, Flatten, UserArgs, Fresh, AllCalls, Advance, Current, AddStep, Enter, Prepare, Inv;
    var added := Fresh(s.list.value, Flatten(UserArgs(fns)), false, |s.registered|);
    InvOfOnce(s);
    AddCases(ONCE, s, UserArgs(fns));
    OnceAdd(ONCE, s, UserArgs(fns));
    UserRegisters(s.list.value, fns, |s.registered|);
    WonFacts(s);
    if s.firing {
      CurrentWhenAdded(s, added, AddStep(ONCE, s, UserArgs(fns)));
    } else {
      var u := s.(list := Some(s.list.value + added), registered := s.registered + added,
                  firingStart := |s.list.value|);
      ReplayHead(s, UserArgs(fns));
      PrepareKeeps(u, s.memory.v, ByAdd);
      EnterIsHead(ONCE, u, s.memory.v, ByAdd);
      OnceGoesOn(Prepare(ONCE, u, s.memory.v, ByAdd));
    }
  }

  lemma InvOfOnce(s: State)
    requires OnceInv(ONCE, s)
    ensures Inv(ONCE, s)
  {
  }

  lemma PrepareKeeps(s: State, v: Value, cause: Cause)
    requires s.list.Some?
    ensures var t := Prepare(ONCE, s, v, cause);
            t.list == s.list && t.registered == s.registered && t.withdrawn == s.withdrawn && t.accepted == s.accepted
  {
  }

  // The replay for callbacks added after the fire starts on schedule.
  lemma ReplayHead(s: State, args: seq<Arg>)
    requires OnceInv(ONCE, s) && s.list.Some? && !s.firing && s.memory.Remembered?
    ensures var added := Fresh(s.list.value, Flatten(args), false, |s.registered|);
            var u := s.(list := Some(s.list.value + added), registered := s.registered + added,
                        firingStart := |s.list.value|);
            var t := Prepare(ONCE, u, s.memory.v, ByAdd);
            OnceHead(ONCE, t) && AllCalls(t.passes) == AllCalls(s.passes)
  {
    hide Ordered, AllRegistered, DistinctFns, Numbered, HistoryOk, EndingsOk, FiredValues, PassOk,
         Fifo, ListOk, AllCalls, Kept, Fresh, Flatten;
    var added := Fresh(s.list.value, Flatten(args), false, |s.registered|);
    var u := s.(list := Some(s.list.value + added), registered := s.registered + added,
                firingStart := |s.list.value|);
    FreshIds(s.list.value, Flatten(args), false, |s.registered|);
    ScheduleGrows(s.registered, s.withdrawn, added);
    ReplayReady(ONCE, s, args);
    OncePrepare(ONCE, u, s.memory.v, ByAdd);
    AllCallsAppend(s.passes, Last(Prepare(ONCE, u, s.memory.v, ByAdd)));
  }

  lemma ReturnWhenWon(s: State, isFalse: bool)
    requires Won(s) && s.firing
    ensures Won(ReturnStep(ONCE, s, isFalse)) && ReturnStep(ONCE, s, isFalse).accepted == s.accepted
    ensures ReturnStep(ONCE, s, isFalse).registered == s.registered
  {
    hide OnceInv, AllCalls, Current, ReturnStep;
    OnceReturns(s, isFalse);
  }

  lemma FireWhenDecided(s: State, v: Value)
    requires Won(s) || Lost(s)
    ensures FireStep(ONCE, s, v) == s
  {
    hide Inv, OnSchedule, AllCalls, Current;
  }

  // ---- the progress list

  // What the loop of the progress list leaves alone.
  ghost predicate SameLife(s: State, t: State) {
    && t.list.Some? == s.list.Some? && t.stack.Some? == s.stack.Some? && t.fired == s.fired
    && t.registered == s.registered
    && (s.stack.None? ==> FiredValues(t.passes) == FiredValues(s.passes) && t.accepted == s.accepted)
  }

  lemma SameLifeTwice(s: State, t: State, u: State)
    requires SameLife(s, t) && SameLife(t, u)
    ensures SameLife(s, u)
  {
  }

  lemma CalledLivesOn(s: State)
    requires AtCall(s)
    ensures SameLife(s, Called(s))
  {
    hide FiredValues;
    FiredValuesReplace(s.passes, Last(Called(s)));
  }

  lemma ClosedLivesOn(s: State, ending: Ending)
    requires s.passes != []
    ensures SameLife(s, Close(s, ending))
  {
    hide FiredValues;
    FiredValuesReplace(s.passes, Last(s).(ending := ending));
  }

  // A pending fire begins the next pass.
  lemma NextLivesOn(s: State, ending: Ending)
    requires s.passes != [] && s.fired && s.list.Some? && s.stack.Some? && s.stack.value != []
    ensures Shifted(s, ending).list.Some?
    ensures var t := Prepare(REPEATED, Shifted(s, ending), s.stack.value[0], ByFire);
            SameLife(s, t) && t.passes != [] && t.fired && StackDepth(t) < StackDepth(s)
  {
    hide FiredValues;
  }

  lemma ProgressLoop(s: State)
    requires s.passes != [] && s.fired
    ensures SameLife(s, Advance(REPEATED, s))
    decreases StackDepth(s)
  {
    hide FiredValues, Enter, Finish, SameLife, Called, Close, Shifted, Prepare;
    if AtCall(s) {
      CalledLivesOn(s);
    } else {
      var ending := if s.list.Some? then Completed else CallbackMachine.Disabled;
      FinishCases(REPEATED, s, ending);
      if s.list.Some? && s.stack.Some? && s.stack.value != [] {
        var v := s.stack.value[0];
        NextLivesOn(s, ending);
        EnterIsHead(REPEATED, Shifted(s, ending), v, ByFire);
        ProgressLoop(Prepare(REPEATED, Shifted(s, ending), v, ByFire));
        SameLifeTwice(s, Prepare(REPEATED, Shifted(s, ending), v, ByFire), Advance(REPEATED, s));
      } else {
        ClosedLivesOn(s, ending);
      }
    }
  }

  lemma ProgressReturns(s: State, isFalse: bool, pending: bool)
    requires ProgressOk(s, pending) && s.firing
    ensures ProgressOk(ReturnStep(REPEATED, s, isFalse), pending)
    ensures SameLife(s, ReturnStep(REPEATED, s, isFalse))
  {
    ReturnInv(REPEATED, s, isFalse);
    FiringFacts(s);
    hide Inv, Advance, FiredValues;
    ProgressLoop(s.(firingIndex := s.firingIndex + 1));
  }

  lemma FiringFacts(s: State)
    requires Inv(REPEATED, s)
    ensures s.firing ==> s.passes != [] && s.fired
    ensures s.memory.Remembered? ==> s.fired && s.passes != []
    ensures s.fired && s.list.Some? ==> s.memory.Remembered?
    ensures s.stack.Some? ==> s.list.Some?
  {
  }

  lemma ProgressAdds(s: State, fns: seq<nat>, pending: bool)
    requires ProgressOk(s, pending)
    ensures ProgressOk(AddStep(REPEATED, s, UserArgs(fns)), pending)
    ensures s.stack.None? ==> FiredValues(AddStep(REPEATED, s, UserArgs(fns)).passes) == FiredValues(s.passes)
    ensures s.firing ==> AddStep(REPEATED, s, UserArgs(fns)).firing
  {
    hide Inv, Advance, FiredValues, AddStep, Fresh, Flatten, UserArgs;
    AddInv(REPEATED, s, UserArgs(fns));
    AddCases(REPEATED, s, UserArgs(fns));
    FiringFacts(s);
    if s.list.Some? {
      var added := Fresh(s.list.value, Flatten(UserArgs(fns)), false, |s.registered|);
      if s.firing {
        FiredValuesReplace(s.passes, Last(s).(eligible := Last(s).eligible + added));
      } else if s.memory.Remembered? {
        var u := s.(list := Some(s.list.value + added), registered := s.registered + added,
                    firingStart := |s.list.value|);
        FiredValuesAppend(s.passes, Last(Prepare(REPEATED, u, s.memory.v, ByAdd)));
        EnterIsHead(REPEATED, u, s.memory.v, ByAdd);
        ProgressLoop(Prepare(REPEATED, u, s.memory.v, ByAdd));
      }
    }
  }

  lemma ProgressFires(s: State, v: Value, pending: bool)
    requires ProgressOk(s, pending)
    ensures ProgressOk(FireStep(REPEATED, s, v), pending)
    ensures !pending ==> FireStep(REPEATED, s, v) == s
    ensures s.firing ==> FireStep(REPEATED, s, v).firing
  {
    FireInv(REPEATED, s, v);
    FiringFacts(s);
    hide Inv, Advance, FiredValues;
    if pending && !s.firing {
      ProgressLoop(Prepare(REPEATED, s.(accepted := s.accepted + [v]), v, ByFire));
    }
  }

  lemma ProgressLocked(s: State)
    requires ProgressOk(s, true)
    ensures ProgressOk(LockStep(s), false) && LockStep(s).firing == s.firing
    ensures FiredValues(LockStep(s).passes) == FiredValues(s.passes)
    ensures LockStep(s).list.Some? <==> s.fired
  {
    DisableInv(REPEATED, s);
    FiringFacts(s);
    hide Inv;
  }

  // ---- the moves

  lemma EffectFree(w: World, side: Side)
    requires side == Progress || Current(Get(w, side)) >= 3
    ensures Proceed(w, side) == w
  {
  }

  lemma StartsPending()
    ensures Start().status == Pending && Start().progress == Initial
  {
  }

  lemma StartInv()
    ensures DeferredInv(Start())
  {
    hide OnceInv, Flatten, Inv, Fresh, Funcs, AllCalls;
    InitialOnce(ONCE);
    InitialInv(REPEATED);
    OnceAdd(ONCE, Initial, Funcs(BUILTINS));
    FlattenFuncs(BUILTINS);
    FreshThree();
  }

  lemma FreshThree()
    ensures Fresh([], BUILTINS, false, 0) == [Entry(SET_STATE, 0), Entry(DISABLE_OTHER, 1), Entry(LOCK_PROGRESS, 2)]
  {
    FreshNone([Entry(0, 0)] + [Entry(1, 1)] + [Entry(2, 2)], false, 3);
    FreshStep([], BUILTINS, false, 0);
    FreshStep([] + [Entry(0, 0)], BUILTINS[1..], false, 1);
    FreshStep([] + [Entry(0, 0)] + [Entry(1, 1)], BUILTINS[1..][1..], false, 2);
    assert BUILTINS[1..][1..][1..] == [];
    assert Fresh([] + [Entry(0, 0)] + [Entry(1, 1)] + [Entry(2, 2)], [], false, 3) == [];
  }

  // The list of side goes from s to t; if that begins a call, it is of a user's function.
  lemma ControlKept(w: World, side: Side, t: State)
    requires ControlOk(w) && (Get(w, side).firing ==> t.firing)
    requires t.firing && !Get(w, side).firing ==> side == Progress || Current(t) >= 3
    ensures var w' := After(w, side, t);
            && ControlOk(w') && w'.status == w.status && Get(w', side) == t
            && (side != Done ==> w'.done == w.done) && (side != Fail ==> w'.fail == w.fail)
            && (side != Progress ==> w'.progress == w.progress)
  {
    hide Current;
    if t.firing && side !in w.control {
      EffectFree(Put(w, side, t).(control := [side] + w.control), side);
    }
  }

  // What a settled Deferred has delivered cannot change.
  ghost predicate KeepsValues(w: World, w': World) {
    && w'.status == w.status
    && w'.done.accepted == w.done.accepted && w'.fail.accepted == w.fail.accepted
    && FiredValues(w'.progress.passes) == FiredValues(w.progress.passes)
  }

  // What a move adds to the registrations of the other two lists.
  ghost predicate RegistersIn(w: World, m: Move, w': World) {
    && w'.done.registered == EntriesAfter(w, m, Done)
    && w'.fail.registered == EntriesAfter(w, m, Fail)
  }

  ghost function EntriesAfter(w: World, m: Move, side: Side): seq<Entry> {
    if m.Register? && m.side == side then EntriesAdded(Get(w, side), m.fns) else Get(w, side).registered
  }

  // What a move makes of the progress list.
  ghost function ProgressAfter(w: World, m: Move): State {
    match m
    case Register(side, fns) => if side == Progress then AddStep(REPEATED, w.progress, UserArgs(fns)) else w.progress
    case Settle(side, v) =>
      if side == Progress then FireStep(REPEATED, w.progress, v)
      else if w.status == Pending then LockStep(w.progress) else w.progress
    case Leave(isFalse) =>
      if w.control != [] && w.control[0] == Progress then ReturnStep(REPEATED, w.progress, isFalse) else w.progress
  }

  lemma AddWhenLost(s: State, fns: seq<nat>)
    requires Lost(s)
    ensures AddStep(ONCE, s, UserArgs(fns)) == s
  {
  }

  lemma RegisterInv(w: World, side: Side, fns: seq<nat>)
    requires DeferredInv(w)
    ensures DeferredInv(Play(w, Register(side, fns)))
    ensures Play(w, Register(side, fns)).status == w.status
    ensures Play(w, Register(side, fns)).progress == ProgressAfter(w, Register(side, fns))
    ensures RegistersIn(w, Register(side, fns), Play(w, Register(side, fns)))
    ensures w.status != Pending ==> KeepsValues(w, Play(w, Register(side, fns)))
  {
    hide OnceInv, Inv, AddStep, FiredValues, UserArgs, After, ControlOk, AllCalls, Current;
    var s := Get(w, side);
    var t := AddStep(FlagsOf(side), s, UserArgs(fns));
    if side == Progress {
      ProgressAdds(s, fns, w.status == Pending);
    } else if w.status == Pending {
      AddWhileWaiting(s, fns);
    } else if Won(s) {
      AddWhenWon(s, fns);
    } else {
      AddWhenLost(s, fns);
    }
    ControlKept(w, side, t);
  }

  lemma DisableWaiting(s: State)
    requires Waiting(s)
    ensures Lost(DisableStep(s)) && !DisableStep(s).firing
  {
    OnceDisable(ONCE, s);
    hide OnceInv;
  }

  lemma SettleInv(w: World, side: Side, v: Value)
    requires DeferredInv(w)
    ensures var w' := Play(w, Settle(side, v));
            && DeferredInv(w') && w'.progress == ProgressAfter(w, Settle(side, v))
            && RegistersIn(w, Settle(side, v), w')
            && (w.status != Pending ==> KeepsValues(w, w'))
            && (w.status == Pending && side == Progress ==> w'.status == Pending)
            && (w.status == Pending && side != Progress ==>
                  && w'.status == (if side == Done then Resolved else Rejected)
                  && Get(w', side).accepted == [v]
                  && FiredValues(w'.progress.passes) == FiredValues(w.progress.passes)
                  && (w'.progress.list.Some? <==> w.progress.fired))
  {
    hide OnceInv, Inv, FiredValues, ControlOk, AllCalls, Current, FireStep, ReturnStep, DisableStep, LockStep;
    var s := Get(w, side);
    var t := FireStep(FlagsOf(side), s, v);
    if side == Progress {
      ProgressFires(s, v, w.status == Pending);
      ControlKept(w, side, t);
    } else if w.status == Pending {
      FirstSettlement(w, side, v);
    } else {
      FireWhenDecided(s, v);
      SettledMoveNothing(w, side);
    }
  }

  lemma SettledMoveNothing(w: World, side: Side)
    requires ControlOk(w)
    ensures After(w, side, Get(w, side)) == w
  {
  }

  lemma PendingIsIdle(w: World, side: Side)
    requires DeferredInv(w) && w.status == Pending && side != Progress
    ensures side !in w.control && Waiting(Get(w, side)) && Waiting(Get(w, Other(side)))
  {
    hide Once;
  }

  // The world after one side has settled and its running list is left as state t.
  ghost function SettledBy(w: World, side: Side, t: State): World
    requires side != Progress
  {
    Put(Put(w, side, t), Other(side), DisableStep(Get(w, Other(side))))
    .(status := if side == Done then Resolved else Rejected,
      progress := LockStep(w.progress),
      control := if t.firing then [side] + w.control else w.control)
  }

  lemma SettledInv(w: World, side: Side, t: State)
    requires DeferredInv(w) && w.status == Pending && side != Progress && Won(t)
    ensures DeferredInv(SettledBy(w, side, t))
  {
    hide Won, Once, FiredValues, DisableStep, LockStep, Inv;
    PendingIsIdle(w, side);
    DisableWaiting(Get(w, Other(side)));
    ProgressLocked(w.progress);
  }

  lemma SettledRegistrations(w: World, side: Side, t: State)
    requires side != Progress && t.registered == Get(w, side).registered
    ensures SettledBy(w, side, t).done.registered == w.done.registered
    ensures SettledBy(w, side, t).fail.registered == w.fail.registered
  {
  }

  lemma FirstSettlement(w: World, side: Side, v: Value)
    requires DeferredInv(w) && w.status == Pending && side != Progress
    ensures var w' := Play(w, Settle(side, v));
            && DeferredInv(w')
            && w'.status == (if side == Done then Resolved else Rejected)
            && Get(w', side).accepted == [v]
            && w'.progress == LockStep(w.progress)
            && FiredValues(w'.progress.passes) == FiredValues(w.progress.passes)
            && (w'.progress.list.Some? <==> w.progress.fired)
            && w'.done.registered == w.done.registered && w'.fail.registered == w.fail.registered
  {
    hide OnceInv, Inv, FiredValues, AllCalls, Current, FireStep, ReturnStep, DisableStep, LockStep, Proceed, AtCall,
         DeferredInv, ControlOk, ProgressOk;
    var s := Get(w, side);
    var s0 := FireStep(ONCE, s, v);
    PendingIsIdle(w, side);
    OnceStarts(s, v);
    var w0 := Put(w, side, s0).(control := [side] + w.control);
    assert Play(w, Settle(side, v)) == Proceed(w0, side);
    Settling(w0, side, s0);
    var t := ReturnStep(ONCE, ReturnStep(ONCE, ReturnStep(ONCE, s0, false), false), false);
    assert w0.control[1..] == w.control;
    assert Proceed(w0, side) == SettledBy(w, side, t);
    SettledInv(w, side, t);
    SettledRegistrations(w, side, t);
    ProgressIsOk(w);
    ProgressLocked(w.progress);
  }

  lemma ProgressIsOk(w: World)
    requires DeferredInv(w)
    ensures ProgressOk(w.progress, w.status == Pending)
  {
  }

  // The world after the innermost running list was left as state t.
  ghost function Left(w: World, t: State): World
    requires w.control != []
  {
    if t.firing then Put(w, w.control[0], t) else Put(w, w.control[0], t).(control := w.control[1..])
  }

  lemma ControlLeft(w: World, t: State)
    requires ControlOk(w) && w.control != []
    ensures ControlOk(Left(w, t)) && Get(w, w.control[0]).firing
  {
    var side, rest := w.control[0], w.control[1..];
    assert forall x :: x in w.control <==> x == side || x in rest;
    assert side !in rest;
  }

  lemma ProgressLeaves(w: World, isFalse: bool)
    requires DeferredInv(w) && w.control != [] && w.control[0] == Progress
    ensures DeferredInv(Play(w, Leave(isFalse)))
    ensures Play(w, Leave(isFalse)).status == w.status
    ensures Play(w, Leave(isFalse)).progress == ProgressAfter(w, Leave(isFalse))
    ensures RegistersIn(w, Leave(isFalse), Play(w, Leave(isFalse)))
    ensures w.status != Pending ==> KeepsValues(w, Play(w, Leave(isFalse)))
  {
    hide OnceInv, Inv, FiredValues, AllCalls, Current, ReturnStep, Proceed, ControlOk, ProgressOk, Waiting, Won, Lost;
    var t := ReturnStep(REPEATED, w.progress, isFalse);
    ControlLeft(w, t);
    ProgressReturns(w.progress, isFalse, w.status == Pending);
    EffectFree(Put(w, Progress, t), Progress);
    ProgressPending(w);
    assert Play(w, Leave(isFalse)) == Left(w, t);
  }

  lemma ProgressPending(w: World)
    requires ProgressOk(w.progress, w.status == Pending)
    ensures w.status != Pending ==> w.progress.stack.None?
  {
  }

  lemma SideLeaves(w: World, isFalse: bool)
    requires DeferredInv(w) && w.control != [] && w.control[0] != Progress
    ensures DeferredInv(Play(w, Leave(isFalse)))
    ensures Play(w, Leave(isFalse)).status == w.status
    ensures Play(w, Leave(isFalse)).progress == ProgressAfter(w, Leave(isFalse))
    ensures RegistersIn(w, Leave(isFalse), Play(w, Leave(isFalse)))
    ensures w.status != Pending ==> KeepsValues(w, Play(w, Leave(isFalse)))
  {
    hide OnceInv, Inv, FiredValues, AllCalls, Current, ReturnStep, Proceed, ControlOk, ProgressOk, Won;
    var side := w.control[0];
    var t := ReturnStep(ONCE, Get(w, side), isFalse);
    ControlLeft(w, t);
    ReturnWhenWon(Get(w, side), isFalse);
    WonIsUsers(t);
    if t.firing {
      EffectFree(Put(w, side, t), side);
    }
    assert Play(w, Leave(isFalse)) == Left(w, t);
  }

  lemma NobodyLeaves(w: World, isFalse: bool)
    requires DeferredInv(w) && w.control == []
    ensures DeferredInv(Play(w, Leave(isFalse)))
    ensures Play(w, Leave(isFalse)).status == w.status
    ensures Play(w, Leave(isFalse)).progress == ProgressAfter(w, Leave(isFalse))
    ensures RegistersIn(w, Leave(isFalse), Play(w, Leave(isFalse)))
    ensures w.status != Pending ==> KeepsValues(w, Play(w, Leave(isFalse)))
  {
    hide DeferredInv, FiredValues;
  }

  lemma WonIsUsers(s: State)
    requires Won(s)
    ensures s.firing ==> Current(s) >= 3
  {
  }

  lemma LeaveInv(w: World, isFalse: bool)
    requires DeferredInv(w)
    ensures DeferredInv(Play(w, Leave(isFalse)))
    ensures Play(w, Leave(isFalse)).status == w.status
    ensures Play(w, Leave(isFalse)).progress == ProgressAfter(w, Leave(isFalse))
    ensures RegistersIn(w, Leave(isFalse), Play(w, Leave(isFalse)))
    ensures w.status != Pending ==> KeepsValues(w, Play(w, Leave(isFalse)))
  {
    hide *;
    if w.control == [] {
      NobodyLeaves(w, isFalse);
    } else if w.control[0] == Progress {
      ProgressLeaves(w, isFalse);
    } else {
      SideLeaves(w, isFalse);
    }
  }

  lemma MoveInv(w: World, m: Move)
    requires DeferredInv(w)
    ensures DeferredInv(Play(w, m)) && Play(w, m).progress == ProgressAfter(w, m)
    ensures RegistersIn(w, m, Play(w, m))
    ensures w.status != Pending ==> KeepsValues(w, Play(w, m))
    ensures w.status == Pending && (m.Settle? ==> m.side == Progress) ==> Play(w, m).status == Pending
    ensures w.status == Pending && m.Settle? && m.side != Progress ==>
              && Play(w, m).status == (if m.side == Done then Resolved else Rejected)
              && Get(Play(w, m), m.side).accepted == [m.v]
  {
    hide DeferredInv, KeepsValues, ProgressAfter, RegistersIn;
    match m
    case Register(side, fns) => RegisterInv(w, side, fns);
    case Settle(side, v) => SettleInv(w, side, v);
    case Leave(isFalse) => LeaveInv(w, isFalse);
  }

  // ---- the theorems

  // The first resolve or reject of a run.
  ghost function FirstSettle(moves: seq<Move>): Option<(Side, Value)> {
    if moves == [] then None
    else if moves[0].Settle? && moves[0].side != Progress then Some((moves[0].side, moves[0].v))
    else FirstSettle(moves[1..])
  }

  lemma {:induction false} SettledStays(w: World, moves: seq<Move>)
    requires DeferredInv(w) && w.status != Pending
    ensures DeferredInv(PlayAll(w, moves)) && KeepsValues(w, PlayAll(w, moves))
    decreases |moves|
  {
    if moves != [] {
      MoveInv(w, moves[0]);
      hide DeferredInv, Play;
      SettledStays(Play(w, moves[0]), moves[1..]);
    }
  }

  lemma {:induction false} SettlesByFirst(w: World, moves: seq<Move>)
    requires DeferredInv(w) && w.status == Pending
    ensures var r := PlayAll(w, moves);
            && DeferredInv(r)
            && match FirstSettle(moves)
               case None => r.status == Pending
               case Some((side, v)) =>
                 && side != Progress && r.status == (if side == Done then Resolved else Rejected)
                 && Get(r, side).accepted == [v]
    decreases |moves|
  {
    if moves != [] {
      MoveInv(w, moves[0]);
      hide DeferredInv, Play;
      var w' := Play(w, moves[0]);
      if w'.status == Pending {
        SettlesByFirst(w', moves[1..]);
      } else {
        SettledStays(w', moves[1..]);
      }
    }
  }

  // Settles once: over every run, the state is decided by the first resolve or reject made
  // from anywhere, and no callback of the other side is ever called. On the winning side
  // the calls are those of the first registrations, in registration order, all with the
  // settling value; whenever no callback is running they are those of all registrations.
  lemma SettlesOnce(moves: seq<Move>)
    ensures var w := PlayAll(Start(), moves);
            match FirstSettle(moves)
            case None => w.status == Pending && AllCalls(w.done.passes) == [] && AllCalls(w.fail.passes) == []
            case Some((side, v)) =>
              var s := Get(w, side);
              && side != Progress
              && w.status == (if side == Done then Resolved else Rejected)
              && AllCalls(Get(w, Other(side)).passes) == []
              && AllCalls(s.passes) <= CallsOf(s.registered, v)
              && (w.control == [] ==> AllCalls(s.passes) == CallsOf(s.registered, v))
  {
    hide OnceInv, Inv, Schedule, CallsOf, Play, AllCalls, Wired, Current, AtCall;
    StartInv();
    SettlesByFirst(Start(), moves);
    var w := PlayAll(Start(), moves);
    EmptyHistory();
    match FirstSettle(moves)
    case None =>
    case Some((side, v)) =>
      RestsOutside(w, side);
      Winner(w, side);
      OnceCalls(Get(w, side));
  }

  lemma Winner(w: World, side: Side)
    requires DeferredInv(w) && side != Progress && w.status == (if side == Done then Resolved else Rejected)
    ensures Won(Get(w, side)) && Lost(Get(w, Other(side)))
  {
  }

  lemma RestsOutside(w: World, side: Side)
    requires ControlOk(w)
    ensures w.control == [] ==> !Get(w, side).firing
  {
  }

  lemma OnceCalls(s: State)
    requires Won(s)
    ensures AllCalls(s.passes) <= CallsOf(s.registered, s.accepted[0])
    ensures !s.firing ==> AllCalls(s.passes) == CallsOf(s.registered, s.accepted[0])
  {
    ScheduleFacts(ONCE, s);
    KeptAll(s.registered, {});
    hide OnceInv;
  }

  // ---- what is called is what users registered

  ghost function FnsOf(xs: seq<Entry>): seq<Fn> {
    seq(|xs|, i requires 0 <= i < |xs| => xs[i].fn)
  }

  // The functions that the moves of a run register on one side, in their order, with the numbers
  // they have in the lists.
  ghost function UserFns(moves: seq<Move>, side: Side): seq<Fn> {
    if moves == [] then []
    else
      var rest, m := UserFns(moves[1..], side), moves[0];
      if m.Register? && m.side == side then seq(|m.fns|, i requires 0 <= i < |m.fns| => m.fns[i] + 3) + rest else rest
  }

  lemma AddedFns(s: State, fns: seq<nat>)
    requires s.list.Some?
    ensures FnsOf(EntriesAdded(s, fns)) ==
            FnsOf(s.registered) + seq(|fns|, i requires 0 <= i < |fns| => fns[i] + 3)
  {
    var shifted := seq(|fns|, i requires 0 <= i < |fns| => fns[i] + 3);
    FlattenFuncs(shifted);
    FreshFns(s.list.value, shifted, |s.registered|);
  }

  // Not decided against this side.
  ghost predicate Takes(w: World, side: Side) {
    w.status == Pending || w.status == if side == Done then Resolved else Rejected
  }

  lemma TakerHasList(w: World, side: Side)
    requires DeferredInv(w) && side != Progress && Takes(w, side)
    ensures Get(w, side).list.Some?
  {
  }

  lemma {:induction false} RegistersAll(w: World, moves: seq<Move>, side: Side)
    requires DeferredInv(w) && side != Progress && Takes(PlayAll(w, moves), side)
    ensures Takes(w, side)
    ensures FnsOf(Get(PlayAll(w, moves), side).registered) == FnsOf(Get(w, side).registered) + UserFns(moves, side)
    decreases |moves|
  {
    hide DeferredInv, Play, EntriesAdded, KeepsValues, FnsOf;
    if moves != [] {
      var m := moves[0];
      var w' := Play(w, m);
      MoveInv(w, m);
      RegistersAll(w', moves[1..], side);
      TakesBefore(w, m, side);
      TakerHasList(w, side);
      if m.Register? && m.side == side {
        AddedFns(Get(w, side), m.fns);
      }
    }
  }

  lemma TakesBefore(w: World, m: Move, side: Side)
    requires DeferredInv(w) && Takes(Play(w, m), side)
    ensures Takes(w, side)
  {
    hide DeferredInv, Play;
    MoveInv(w, m);
  }

  lemma StartFns(side: Side)
    requires side != Progress
    ensures FnsOf(Get(Start(), side).registered) == BUILTINS
  {
    hide Flatten, Fresh, Funcs;
    FlattenFuncs(BUILTINS);
    FreshThree();
  }

  // The functions that the calls made so far are of.
  ghost function CalledFns(s: State): seq<Fn>
    requires forall i :: 0 <= i < |AllCalls(s.passes)| ==> AllCalls(s.passes)[i].id < |s.registered|
  {
    seq(|AllCalls(s.passes)|, i requires 0 <= i < |AllCalls(s.passes)| => s.registered[AllCalls(s.passes)[i].id].fn)
  }

  lemma CalledFromTheFirst(s: State, v: Value)
    requires Inv(ONCE, s) && AllCalls(s.passes) <= CallsOf(s.registered, v)
    ensures var calls := AllCalls(s.passes);
            && (forall i :: 0 <= i < |calls| ==> calls[i].id < |s.registered| && calls[i].v == v)
            && |CalledFns(s)| == |calls| && CalledFns(s) <= FnsOf(s.registered)
  {
    hide AllCalls;
    CallsOfEach(s.registered, v);
  }

  lemma CallsOfEach(xs: seq<Entry>, v: Value)
    ensures |CallsOf(xs, v)| == |xs| && forall i :: 0 <= i < |xs| ==> CallsOf(xs, v)[i] == Call(xs[i].id, v)
  {
  }

  // Over every run that settles: the functions called on the settling side, all with the settling
  // value, are the constructor's three and then those that the moves of the run register there, in
  // order, up to the one running; whenever no callback is running they are all of them.
  lemma CallsWhatUsersRegister(moves: seq<Move>, side: Side, v: Value)
    requires FirstSettle(moves) == Some((side, v))
    ensures var w := PlayAll(Start(), moves);
            var s, calls := Get(w, side), AllCalls(Get(w, side).passes);
            && (forall i :: 0 <= i < |calls| ==> calls[i].id < |s.registered| && calls[i].v == v)
            && CalledFns(s) <= BUILTINS + UserFns(moves, side)
            && (w.control == [] ==> CalledFns(s) == BUILTINS + UserFns(moves, side))
  {
    hide AllCalls, CallsOf, DeferredInv, Play, PlayAll, Inv, FirstSettle, UserFns, CalledFns, FnsOf, Won, Start;
    var w := PlayAll(Start(), moves);
    StartInv();
    StartsPending();
    SettlesByFirst(Start(), moves);
    SettlesOnce(moves);
    RegistersAll(Start(), moves, side);
    StartFns(side);
    Winner(w, side);
    InvOfWon(Get(w, side));
    CalledFromTheFirst(Get(w, side), v);
    assert FnsOf(Get(w, side).registered) == BUILTINS + UserFns(moves, side);
    if w.control == [] {
      AllOfThem(Get(w, side), v);
    }
  }

  lemma InvOfWon(s: State)
    requires Won(s)
    ensures Inv(ONCE, s)
  {
  }

  lemma AllOfThem(s: State, v: Value)
    requires Inv(ONCE, s) && AllCalls(s.passes) == CallsOf(s.registered, v)
    ensures |AllCalls(s.passes)| == |FnsOf(s.registered)|
  {
    CallsOfEach(s.registered, v);
  }

  // Once settled, settled for good, and no later notify is delivered.
  lemma NoNotifyAfterSettling(moves: seq<Move>, more: seq<Move>)
    requires FirstSettle(moves).Some?
    ensures KeepsValues(PlayAll(Start(), moves), PlayAll(PlayAll(Start(), moves), more))
  {
    hide *;
    StartInv();
    StartsPending();
    SettlesByFirst(Start(), moves);
    SettledStays(PlayAll(Start(), moves), more);
  }

  lemma LastNotified(passes: seq<Pass>, registered: seq<Entry>)
    requires HistoryOk(REPEATED, passes, registered) && passes != []
    ensures FiredValues(passes) != []
    ensures passes[|passes| - 1].v == FiredValues(passes)[|FiredValues(passes)| - 1]
  {
    if passes[|passes| - 1].cause == ByAdd {
      LastNotified(passes[..|passes| - 1], registered);
    }
  }

  // A progress callback registered after settling is not called if nothing was ever
  // notified; otherwise it is in the pass now running, with the last value notified.
  lemma LateProgress(moves: seq<Move>, fns: seq<nat>)
    requires FirstSettle(moves).Some? && fns != []
    ensures var w := PlayAll(Start(), moves);
            GetsLastNotified(w.progress, Play(w, Register(Progress, fns)).progress, fns)
  {
    StartInv();
    SettlesByFirst(Start(), moves);
    SettledProgress(PlayAll(Start(), moves));
    hide *;
    LateRegistration(PlayAll(Start(), moves).progress, fns);
    RegisteredProgress(PlayAll(Start(), moves), fns);
  }

  ghost predicate GetsLastNotified(s: State, t: State, fns: seq<nat>) {
    var notified := FiredValues(s.passes);
    if notified == [] then t == s && s.passes == []
    else
      && t.firing && t.passes != []
      && Last(t).v == notified[|notified| - 1]
      && |Last(t).eligible| >= |fns|
      && (forall i :: 0 <= i < |fns| ==> Last(t).eligible[|Last(t).eligible| - |fns| + i].fn == fns[i] + 3)
  }

  lemma SettledProgress(w: World)
    requires DeferredInv(w) && w.status != Pending
    ensures ProgressOk(w.progress, false)
  {
  }

  lemma RegisteredProgress(w: World, fns: seq<nat>)
    ensures Play(w, Register(Progress, fns)).progress == AddStep(REPEATED, w.progress, UserArgs(fns))
  {
  }

  lemma FreshFns(list: seq<Entry>, fns: seq<Fn>, next: nat)
    ensures |Fresh(list, fns, false, next)| == |fns|
    ensures forall i :: 0 <= i < |fns| ==> Fresh(list, fns, false, next)[i].fn == fns[i]
    decreases |fns|
  {
    if fns != [] {
      FreshFns(list + [Entry(fns[0], next)], fns[1..], next + 1);
    }
  }

  // A locked list that has fired gives whatever is added the last value.
  lemma LateRegistration(s: State, fns: seq<nat>)
    requires ProgressOk(s, false) && fns != []
    ensures GetsLastNotified(s, AddStep(REPEATED, s, UserArgs(fns)), fns)
  {
    hide Inv, AddStep, Fresh, Flatten, FiredValues;
    FiringFacts(s);
    RemembersLast(s);
    AddCases(REPEATED, s, UserArgs(fns));
    var shifted := seq(|fns|, i requires 0 <= i < |fns| => fns[i] + 3);
    FlattenFuncs(shifted);
    if s.list.Some? {
      FreshFns(s.list.value, shifted, |s.registered|);
      var added := Fresh(s.list.value, shifted, false, |s.registered|);
      if !s.firing {
        var u := s.(list := Some(s.list.value + added), registered := s.registered + added,
                    firingStart := |s.list.value|);
        EnterIsHead(REPEATED, u, s.memory.v, ByAdd);
        FirstAdded(u, s.memory.v);
        assert u.list.value[|s.list.value|..] == added;
      }
    }
  }

  lemma FirstAdded(s: State, v: Value)
    requires s.list.Some? && s.firingStart < |s.list.value|
    ensures var t := Advance(REPEATED, Prepare(REPEATED, s, v, ByAdd));
            t.firing && t.passes != [] && Last(t).v == v && Last(t).eligible == s.list.value[s.firingStart..]
  {
    assert AtCall(Prepare(REPEATED, s, v, ByAdd));
  }

  lemma RemembersLast(s: State)
    requires ProgressOk(s, false)
    ensures s.passes == [] <==> FiredValues(s.passes) == []
    ensures s.list.Some? <==> s.passes != []
    ensures s.passes != [] ==> s.memory == Remembered(Last(s).v)
    ensures s.passes != [] ==> Last(s).v == FiredValues(s.passes)[|FiredValues(s.passes)| - 1]
  {
    EmptyHistory();
    if s.passes != [] {
      LastNotified(s.passes, s.registered);
    }
  }
}
