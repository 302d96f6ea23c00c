/** What every run of a callback list keeps: each pass of `fire` calls exactly the
    registrations whose turn came, once and in order, and nested fires run as whole later
    passes in the order they were made. */
module CallbackPasses {
  import opened Options
  import opened CallbackMachine
  import opened RegistrationLists

  // The calls a pass owes: one for each registration present at the start or added during
  // the pass and not removed before its turn, in registration order, with the pass's value.
  ghost function Due(p: Pass): seq<Call> {
    CallsOf(Kept(p.eligible, p.removed), p.v)
  }

  // A pass that ran to its end made exactly the calls due; one that was stopped by a false
  // return or by disable made a prefix of them.
  ghost predicate PassOk(p: Pass) {
    && Ordered(p.eligible)
    && p.calls <= Due(p)
    && (p.ending == Completed ==> p.calls == Due(p))
  }

  // The values of the passes that a fireWith started, in order.
  ghost function FiredValues(passes: seq<Pass>): seq<Value> {
    if passes == [] then []
    else
      FiredValues(passes[..|passes| - 1]) +
      if passes[|passes| - 1].cause == ByFire then [passes[|passes| - 1].v] else []
  }

  ghost predicate ListOk(f: Flags, s: State) {
    && Numbered(s.registered)
    && (s.stack.Some? ==> s.list.Some?)
    && (s.list.Some? ==>
          && Ordered(s.list.value)
          && AllRegistered(s.list.value, s.registered)
          && (f.unique ==> DistinctFns(s.list.value)))
  }

  ghost predicate PassKnown(p: Pass, registered: seq<Entry>) {
    && AllRegistered(p.eligible, registered)
    && (forall id :: id in p.removed ==> id < |registered|)
  }

  // Every pass is sound, only the newest can be running, and a pass started by `add`
  // repeats the value of the pass before it.
  ghost predicate HistoryOk(f: Flags, passes: seq<Pass>, registered: seq<Entry>) {
    passes != [] ==>
      var front, last := passes[..|passes| - 1], passes[|passes| - 1];
      && HistoryOk(f, front, registered)
      && PassOk(last)
      && PassKnown(last, registered)
      && (front != [] ==> front[|front| - 1].ending != Running)
      && (last.cause == ByAdd ==> f.memory && front != [] && last.v == front[|front| - 1].v)
  }

  // Accepted fires are run in the order they were made; lock and disable drop the rest.
  ghost predicate Fifo(f: Flags, stack: Option<seq<Value>>, passes: seq<Pass>, accepted: seq<Value>) {
    && (if stack.Some? then FiredValues(passes) + stack.value == accepted else FiredValues(passes) <= accepted)
    && (f.once && stack.Some? ==> stack.value == [])
  }

  ghost predicate EndingOk(f: Flags, p: Pass, live: bool) {
    && (p.ending == Stopped ==> f.stopOnFalse)
    && (p.ending == Disabled ==> !live)
  }

  // A pass stops early only on a false return where the flags say so, or because the list
  // was disabled, which is for good.
  ghost predicate EndingsOk(f: Flags, passes: seq<Pass>, live: bool) {
    passes != [] ==>
      var front, last := passes[..|passes| - 1], passes[|passes| - 1];
      && EndingsOk(f, front, live)
      && EndingOk(f, last, live)
  }

  // The part of the invariant that does not depend on where in its loop `fire` is.
  ghost predicate Base(f: Flags, s: State) {
    && ListOk(f, s)
    && HistoryOk(f, s.passes, s.registered)
    && EndingsOk(f, s.passes, s.list.Some?)
    && Fifo(f, s.stack, s.passes, s.accepted)
    && (s.fired <==> s.passes != [])
  }

  // Position pos of the list is next: the calls still due are those of the list from pos on.
  ghost predicate Aligned(s: State, pos: int) {
    && s.passes != []
    && Last(s).ending == Running
    && (s.list.Some? ==>
          && s.firingLength == |s.list.value|
          && 0 <= pos <= |s.list.value|
          && |Last(s).calls| <= |Kept(Last(s).eligible, Last(s).removed)|
          && Kept(Last(s).eligible, Last(s).removed)[|Last(s).calls|..] == s.list.value[pos..])
  }

  // Holds whenever the environment has control.
  ghost predicate Inv(f: Flags, s: State) {
    && Base(f, s)
    && s.firingStart == 0
    && (s.list.Some? ==> (s.memory == Nothing <==> !s.fired))
    && (s.memory.Remembered? ==> f.memory && s.passes != [] && s.memory.v == Last(s).v)
    && (s.list.Some? && s.memory == Halted ==> !f.memory || f.stopOnFalse)
    && (s.firing && s.list.Some? ==> s.passes != [] && s.memory == if f.memory then Remembered(Last(s).v) else Halted)
    && (if s.firing then
          Aligned(s, s.firingIndex + 1)
        else
          && (s.passes != [] ==> Last(s).ending != Running)
          && (s.stack.Some? ==> s.stack.value == []))
  }

  // Holds at the head of the loop in `fire`.
  ghost predicate AtHead(f: Flags, s: State) {
    && Base(f, s)
    && s.firingStart == 0
    && s.firing
    && (s.memory.Remembered? ==> f.memory && s.passes != [] && s.memory.v == Last(s).v)
    && (s.list.Some? ==> s.passes != [] && s.memory == if f.memory then Remembered(Last(s).v) else Halted)
    && Aligned(s, s.firingIndex)
  }

  lemma FiredValuesAppend(passes: seq<Pass>, p: Pass)
    ensures FiredValues(passes + [p]) == FiredValues(passes) + if p.cause == ByFire then [p.v] else []
  {
    assert (passes + [p])[..|passes|] == passes;
  }

  lemma FiredValuesReplace(passes: seq<Pass>, p: Pass)
    requires passes != [] && p.cause == passes[|passes| - 1].cause && p.v == passes[|passes| - 1].v
    ensures FiredValues(passes[|passes| - 1 := p]) == FiredValues(passes)
  {
    assert passes[|passes| - 1 := p][..|passes| - 1] == passes[..|passes| - 1];
  }

  lemma HistoryAppend(f: Flags, passes: seq<Pass>, p: Pass, registered: seq<Entry>)
    requires HistoryOk(f, passes, registered) && PassOk(p) && PassKnown(p, registered)
    requires passes != [] ==> passes[|passes| - 1].ending != Running
    requires p.cause == ByAdd ==> f.memory && passes != [] && p.v == passes[|passes| - 1].v
    ensures HistoryOk(f, passes + [p], registered)
    ensures forall live :: EndingsOk(f, passes, live) && EndingOk(f, p, live) ==> EndingsOk(f, passes + [p], live)
  {
    assert (passes + [p])[..|passes|] == passes;
  }

  lemma HistoryReplaceLast(f: Flags, passes: seq<Pass>, p: Pass, registered: seq<Entry>)
    requires HistoryOk(f, passes, registered) && passes != []
    requires p.cause == passes[|passes| - 1].cause && p.v == passes[|passes| - 1].v
    requires PassOk(p) && PassKnown(p, registered)
    ensures HistoryOk(f, passes[|passes| - 1 := p], registered)
    ensures FiredValues(passes[|passes| - 1 := p]) == FiredValues(passes)
    ensures forall live :: EndingsOk(f, passes, live) && EndingOk(f, p, live) ==>
              EndingsOk(f, passes[|passes| - 1 := p], live)
  {
    assert passes[|passes| - 1 := p][..|passes| - 1] == passes[..|passes| - 1];
  }

  lemma EmptyList()
    ensures Ordered([]) && DistinctFns([]) && forall r :: AllRegistered([], r)
  {
  }

  lemma SuffixOrdered(list: seq<Entry>, n: nat, registered: seq<Entry>)
    requires Ordered(list) && AllRegistered(list, registered) && n <= |list|
    ensures Ordered(list[n..]) && AllRegistered(list[n..], registered)
  {
  }

  lemma InitialInv(f: Flags)
    ensures Inv(f, Initial)
  {
  }

  // ---- the loop of `fire`

  lemma NextCallDue(p: Pass)
    requires PassOk(p) && |p.calls| < |Kept(p.eligible, p.removed)|
    requires p.ending == Running
    ensures PassOk(p.(calls := p.calls + [Call(Kept(p.eligible, p.removed)[|p.calls|].id, p.v)]))
  {
    hide Kept, Ordered;
    var k := Kept(p.eligible, p.removed);
    assert p.calls + [CallsOf(k, p.v)[|p.calls|]] <= CallsOf(k, p.v);
  }

  lemma CalledInv(f: Flags, s: State)
    requires AtHead(f, s) && AtCall(s)
    ensures Inv(f, Called(s))
  {
    hide Ordered, AllRegistered, DistinctFns, Numbered, HistoryOk, EndingsOk, FiredValues, Kept, PassOk;
    var p := Last(s);
    var k := Kept(p.eligible, p.removed);
    assert k[|p.calls|] == s.list.value[s.firingIndex];
    LastOk(f, s.passes, s.registered);
    NextCallDue(p);
    HistoryReplaceLast(f, s.passes, Last(Called(s)), s.registered);
    LastEnding(f, s.passes, s.list.Some?);
    assert Kept(p.eligible, p.removed)[|p.calls| + 1..] == s.list.value[s.firingIndex + 1..];
  }

  lemma LastEnding(f: Flags, passes: seq<Pass>, live: bool)
    requires EndingsOk(f, passes, live) && passes != []
    ensures EndingOk(f, passes[|passes| - 1], live)
  {
  }

  lemma CloseBase(f: Flags, s: State, ending: Ending)
    requires Base(f, s) && s.passes != [] && Last(s).ending == Running && ending != Running
    requires ending == Completed ==> Last(s).calls == Due(Last(s))
    requires (ending == Stopped ==> f.stopOnFalse) && (ending == Disabled ==> s.list.None?)
    ensures Base(f, Close(s, ending))
    ensures Last(Close(s, ending)).ending == ending && Last(Close(s, ending)).v == Last(s).v
  {
    HistoryReplaceLast(f, s.passes, Last(s).(ending := ending), s.registered);
  }

  ghost predicate Leaving(f: Flags, s: State, ending: Ending) {
    && Base(f, s) && s.firingStart == 0 && s.passes != [] && Last(s).ending == Running
    && ending != Running
    && (ending == Completed ==> Last(s).calls == Due(Last(s)))
    && (ending == Stopped ==> f.stopOnFalse) && (ending == Disabled ==> s.list.None?)
    && (s.memory.Remembered? ==> f.memory && s.memory.v == Last(s).v)
    && (s.list.Some? ==> s.memory != Nothing && (s.memory == Halted || s.memory == Remembered(Last(s).v)))
    && (s.list.Some? && s.memory == Halted ==> !f.memory || f.stopOnFalse)
  }

  // The state in which a pending fire starts its pass.
  ghost function Shifted(s: State, ending: Ending): State
    requires s.stack.Some? && s.stack.value != []
  {
    Close(s, ending).(memory := Remembered(s.stack.value[0]), stack := Some(s.stack.value[1..]))
  }

  lemma PendingReady(f: Flags, s: State, ending: Ending)
    requires Leaving(f, s, ending) && s.list.Some? && s.stack.Some? && s.stack.value != [] && !f.once
    ensures AtHead(f, Prepare(f, Shifted(s, ending), s.stack.value[0], ByFire))
  {
    hide Ordered, AllRegistered, DistinctFns, Numbered, HistoryOk, EndingsOk, PassOk, Kept, FiredValues;
    CloseBase(f, s, ending);
    var t := Close(s, ending);
    var v := t.stack.value[0];
    assert FiredValues(t.passes) + [v] + t.stack.value[1..] == FiredValues(t.passes) + t.stack.value;
    PrepareFire(f, Shifted(s, ending), v);
  }

  // Leaving the loop: either the list is at rest, or the next pending fire has its pass.
  lemma FinishInv(f: Flags, s: State, ending: Ending)
    requires Leaving(f, s, ending)
    ensures Inv(f, Finish(f, s, ending))
    decreases StackDepth(s), 0, 0
  {
    hide Ordered, AllRegistered, DistinctFns, Numbered, HistoryOk, EndingsOk, PassOk, Kept, FiredValues;
    CloseBase(f, s, ending);
    EmptyList();
    var t := Close(s, ending);
    if t.list.Some? {
      EndingsAfterDisable(f, t.passes);
      if !f.once && t.stack.Some? && t.stack.value != [] {
        PendingReady(f, s, ending);
        AdvanceInv(f, Prepare(f, Shifted(s, ending), s.stack.value[0], ByFire));
      }
    }
  }

  lemma FinishCases(f: Flags, s: State, ending: Ending)
    requires s.passes != []
    ensures var t := Close(s, ending);
            && t.list == s.list && t.stack == s.stack && t.memory == s.memory
            && Finish(f, s, ending) ==
               if t.list.None? then t
               else if !f.once then
                 if t.stack.Some? && t.stack.value != [] then
                   Enter(f, Shifted(s, ending), t.stack.value[0], ByFire)
                 else t
               else if t.memory == Halted then DisableStep(t)
               else t.(list := Some([]))
  {
    hide Enter;
  }

  lemma PrepareFire(f: Flags, s: State, v: Value)
    requires ListOk(f, s) && HistoryOk(f, s.passes, s.registered) && EndingsOk(f, s.passes, s.list.Some?)
    requires s.firingStart == 0 && s.list.Some? && s.stack.Some?
    requires s.passes != [] ==> Last(s).ending != Running
    requires FiredValues(s.passes) + [v] + s.stack.value == s.accepted
    requires f.once ==> s.stack.value == []
    ensures AtHead(f, Prepare(f, s, v, ByFire))
  {
    var t := Prepare(f, s, v, ByFire);
    var p := Last(t);
    SuffixOrdered(s.list.value, s.firingStart, s.registered);
    KeptAll(p.eligible, {});
    FiredValuesAppend(s.passes, p);
    HistoryAppend(f, s.passes, p, s.registered);
  }

  lemma PrepareReplay(f: Flags, s: State, v: Value)
    requires Base(f, s) && f.memory
    requires s.list.Some? && s.firingStart <= |s.list.value|
    requires s.passes != [] && Last(s).ending != Running && v == Last(s).v
    ensures AtHead(f, Prepare(f, s, v, ByAdd))
  {
    hide Ordered, AllRegistered, DistinctFns, Numbered, HistoryOk, FiredValues, Kept;
    var t := Prepare(f, s, v, ByAdd);
    var p := Last(t);
    SuffixOrdered(s.list.value, s.firingStart, s.registered);
    KeptAll(p.eligible, {});
    FiredValuesAppend(s.passes, p);
    HistoryAppend(f, s.passes, p, s.registered);
  }

  // The guard of the loop holds: the next callback is called.
  lemma GuardHolds(f: Flags, s: State)
    requires AtHead(f, s) && s.list.Some? && s.firingIndex < s.firingLength
    ensures AtCall(s) && Advance(f, s) == Called(s) && Inv(f, Called(s))
  {
    hide Ordered, AllRegistered, DistinctFns, Numbered, HistoryOk, EndingsOk, PassOk, Kept, FiredValues;
    CalledInv(f, s);
  }

  // The guard fails: every call due has been made, or the list was disabled.
  lemma GuardFails(f: Flags, s: State)
    requires AtHead(f, s) && !(s.list.Some? && s.firingIndex < s.firingLength)
    ensures var ending := if s.list.None? then Disabled else Completed;
            Leaving(f, s, ending) && Advance(f, s) == Finish(f, s, ending)
  {
    hide Ordered, AllRegistered, DistinctFns, Numbered, HistoryOk, EndingsOk, Kept, FiredValues;
    LastOk(f, s.passes, s.registered);
    if s.list.Some? {
      var p := Last(s);
      var k := Kept(p.eligible, p.removed);
      assert k[|p.calls|..] == [];
      assert p.calls == Due(p);
    }
  }

  lemma AdvanceInv(f: Flags, s: State)
    requires AtHead(f, s)
    ensures Inv(f, Advance(f, s))
    decreases StackDepth(s), 0, 1
  {
    hide Inv, AtHead, Leaving, Advance;
    if s.list.Some? && s.firingIndex < s.firingLength {
      GuardHolds(f, s);
    } else {
      GuardFails(f, s);
      FinishInv(f, s, if s.list.None? then Disabled else Completed);
    }
  }

  // ---- the actions of the environment

  // A callback returned and the loop goes on.
  lemma LoopGoesOn(f: Flags, s: State, isFalse: bool)
    requires Inv(f, s) && s.firing && !(isFalse && f.stopOnFalse)
    ensures var t := s.(firingIndex := s.firingIndex + 1);
            AtHead(f, t) && ReturnStep(f, s, isFalse) == Advance(f, t)
  {
    hide Ordered, AllRegistered, DistinctFns, Numbered, HistoryOk, EndingsOk, PassOk, Kept, FiredValues, Advance;
  }

  // A callback returned false and the loop stops.
  lemma LoopHalts(f: Flags, s: State)
    requires Inv(f, s) && s.firing && f.stopOnFalse
    ensures var t := s.(memory := Halted);
            var ending := if s.list.None? then Disabled else Stopped;
            Leaving(f, t, ending) && ReturnStep(f, s, true) == Finish(f, t, ending)
  {
    hide Ordered, AllRegistered, DistinctFns, Numbered, HistoryOk, EndingsOk, PassOk, Kept, FiredValues, Finish;
  }

  lemma ReturnInv(f: Flags, s: State, isFalse: bool)
    requires Inv(f, s) && s.firing
    ensures Inv(f, ReturnStep(f, s, isFalse))
  {
    hide Inv, AtHead, Leaving, ReturnStep;
    if isFalse && f.stopOnFalse {
      LoopHalts(f, s);
      FinishInv(f, s.(memory := Halted), if s.list.None? then Disabled else Stopped);
    } else {
      LoopGoesOn(f, s, isFalse);
      AdvanceInv(f, s.(firingIndex := s.firingIndex + 1));
    }
  }

  lemma HistoryGrows(f: Flags, passes: seq<Pass>, registered: seq<Entry>, added: seq<Entry>)
    requires HistoryOk(f, passes, registered)
    ensures HistoryOk(f, passes, registered + added)
  {
    if passes != [] {
      HistoryGrows(f, passes[..|passes| - 1], registered, added);
    }
  }

  // Registering at the end of a list keeps it ordered and registered.
  lemma AddList(f: Flags, s: State, fns: seq<Fn>)
    requires ListOk(f, s) && s.list.Some?
    ensures var added := Fresh(s.list.value, fns, f.unique, |s.registered|);
            ListOk(f, s.(list := Some(s.list.value + added), registered := s.registered + added))
  {
    FreshIds(s.list.value, fns, f.unique, |s.registered|);
    if f.unique {
      FreshDistinct(s.list.value, fns, |s.registered|);
    }
  }

  lemma EligibleGrows(p: Pass, registered: seq<Entry>, added: seq<Entry>)
    requires PassOk(p) && PassKnown(p, registered)
    requires p.ending == Running
    requires forall i :: 0 <= i < |added| ==> added[i].id == |registered| + i
    ensures var p' := p.(eligible := p.eligible + added);
            && PassOk(p') && PassKnown(p', registered + added)
            && Kept(p'.eligible, p'.removed) == Kept(p.eligible, p.removed) + added
  {
    hide Kept;
    KeptAll(added, p.removed);
    KeptAppend(p.eligible, added, p.removed);
    CallsOfAppend(Kept(p.eligible, p.removed), added, p.v);
  }

  lemma LastOk(f: Flags, passes: seq<Pass>, registered: seq<Entry>)
    requires HistoryOk(f, passes, registered) && passes != []
    ensures PassOk(passes[|passes| - 1]) && PassKnown(passes[|passes| - 1], registered)
  {
  }

  // During a pass, what is added joins both the list and what the pass owes.
  lemma AddWhileFiring(f: Flags, s: State, args: seq<Arg>)
    requires Inv(f, s) && s.list.Some? && s.firing
    ensures Inv(f, AddStep(f, s, args))
  {
    hide Ordered, AllRegistered, DistinctFns, Numbered, HistoryOk, FiredValues, Kept, PassOk, PassKnown, Fresh, Flatten;
    var added := Fresh(s.list.value, Flatten(args), f.unique, |s.registered|);
    var p := Last(s);
    AddList(f, s, Flatten(args));
    FreshIds(s.list.value, Flatten(args), f.unique, |s.registered|);
    LastOk(f, s.passes, s.registered);
    EligibleGrows(p, s.registered, added);
    HistoryGrows(f, s.passes, s.registered, added);
    HistoryReplaceLast(f, s.passes, p.(eligible := p.eligible + added), s.registered + added);
  }

  lemma AddInv(f: Flags, s: State, args: seq<Arg>)
    requires Inv(f, s)
    ensures Inv(f, AddStep(f, s, args))
  {
    if s.list.None? {
    } else if s.firing {
      AddWhileFiring(f, s, args);
    } else {
      var added := Fresh(s.list.value, Flatten(args), f.unique, |s.registered|);
      AddList(f, s, Flatten(args));
      HistoryGrows(f, s.passes, s.registered, added);
      if s.memory.Remembered? {
        var t := s.(list := Some(s.list.value + added), registered := s.registered + added,
                    firingStart := |s.list.value|);
        ReplayReady(f, s, args);
        AdvanceInv(f, Prepare(f, t, s.memory.v, ByAdd));
      }
    }
  }

  // What `add` does at rest ends where the replay of the added callbacks starts.
  lemma ReplayReady(f: Flags, s: State, args: seq<Arg>)
    requires Inv(f, s) && s.list.Some? && !s.firing && s.memory.Remembered?
    ensures var added := Fresh(s.list.value, Flatten(args), f.unique, |s.registered|);
            var t := s.(list := Some(s.list.value + added), registered := s.registered + added,
                        firingStart := |s.list.value|);
            AtHead(f, Prepare(f, t, s.memory.v, ByAdd))
  {
    hide Ordered, AllRegistered, DistinctFns, Numbered, HistoryOk, EndingsOk, PassOk, Kept, FiredValues, Fresh, Flatten;
    var added := Fresh(s.list.value, Flatten(args), f.unique, |s.registered|);
    AddList(f, s, Flatten(args));
    HistoryGrows(f, s.passes, s.registered, added);
    PrepareReplay(f, s.(list := Some(s.list.value + added), registered := s.registered + added,
                        firingStart := |s.list.value|), s.memory.v);
  }

  // What `add` comes to in each of its branches.
  lemma AddCases(f: Flags, s: State, args: seq<Arg>)
    requires Inv(f, s)
    ensures s.firing ==> s.passes != []
    ensures s.list.None? ==> AddStep(f, s, args) == s
    ensures s.list.Some? ==>
              var added := Fresh(s.list.value, Flatten(args), f.unique, |s.registered|);
              var t := s.(list := Some(s.list.value + added), registered := s.registered + added);
              AddStep(f, s, args) ==
              if s.firing then
                WithLast(t, Last(s).(eligible := Last(s).eligible + added)).(firingLength := |t.list.value|)
              else if s.memory.Remembered? then
                Enter(f, t.(firingStart := |s.list.value|), s.memory.v, ByAdd)
              else t
  {
    hide Enter, Fresh, Flatten, Base;
  }

  lemma EnterIsHead(f: Flags, s: State, v: Value, cause: Cause)
    requires s.list.Some?
    ensures Enter(f, s, v, cause) == Advance(f, Prepare(f, s, v, cause))
  {
  }

  lemma RemoveOneList(f: Flags, s: State, fn: Fn)
    requires ListOk(f, s) && s.list.Some?
    ensures ListOk(f, s.(list := Some(Without(s.list.value, fn))))
  {
    WithoutKeepsOrder(s.list.value, fn);
    WithoutRegistered(s.list.value, fn, s.registered);
  }

  // Striking uncalled registrations from a pass leaves the calls made as they are.
  lemma RemovedGrows(p: Pass, list: seq<Entry>, pos: nat, fn: Fn, registered: seq<Entry>)
    requires PassOk(p) && PassKnown(p, registered) && p.ending == Running
    requires Ordered(list) && AllRegistered(list, registered) && pos <= |list|
    requires |p.calls| <= |Kept(p.eligible, p.removed)|
    requires Kept(p.eligible, p.removed)[|p.calls|..] == list[pos..]
    ensures var p' := p.(removed := p.removed + Uncalled(list, fn, p.calls));
            && PassOk(p') && PassKnown(p', registered)
            && |p.calls| <= |Kept(p'.eligible, p'.removed)|
            && Kept(p'.eligible, p'.removed)[|p.calls|..] == Without(list[pos..], fn)
  {
    hide Kept, Without;
    var k := Kept(p.eligible, p.removed);
    var n := |p.calls|;
    KeptOrdered(p.eligible, p.removed);
    KeptTwice(p.eligible, p.removed, Uncalled(list, fn, p.calls));
    CallsOfAppend(k[..n], k[n..], p.v);
    assert k == k[..n] + k[n..];
    assert p.calls == CallsOf(k[..n], p.v);
    RemoveFromSchedule(k, n, list, pos, fn, p.calls);
    CallsOfAppend(k[..n], Without(list[pos..], fn), p.v);
  }

  // During a pass, removal moves the index back by the called entries it takes away and
  // strikes the uncalled ones from what the pass owes.
  lemma RemoveOneWhileFiring(f: Flags, s: State, fn: Fn)
    requires Inv(f, s) && s.list.Some? && s.firing
    ensures Inv(f, RemoveOne(s, fn))
  {
    hide Ordered, DistinctFns, Numbered, HistoryOk, FiredValues, Kept, PassOk, PassKnown, Without,
         Uncalled, AllRegistered;
    var list := s.list.value;
    var pos := s.firingIndex + 1;
    var upto, rest := list[..pos], list[pos..];
    var p := Last(s);
    RemoveOneList(f, s, fn);
    assert list == upto + rest;
    WithoutAppend(upto, rest, fn);
    WithoutMembers(upto, fn);
    LastOk(f, s.passes, s.registered);
    RemovedGrows(p, list, pos, fn, s.registered);
    HistoryReplaceLast(f, s.passes, p.(removed := p.removed + Uncalled(list, fn, p.calls)), s.registered);
  }

  lemma RemoveInv(f: Flags, s: State, fns: seq<Fn>)
    requires Inv(f, s)
    ensures Inv(f, RemoveStep(s, fns))
    decreases |fns|
  {
    if s.list.Some? && fns != [] {
      if s.firing {
        RemoveOneWhileFiring(f, s, fns[0]);
      } else {
        RemoveOneList(f, s, fns[0]);
      }
      RemoveInv(f, RemoveOne(s, fns[0]), fns[1..]);
    }
  }

  lemma EndingsAfterDisable(f: Flags, passes: seq<Pass>)
    requires EndingsOk(f, passes, true)
    ensures EndingsOk(f, passes, false)
  {
    if passes != [] {
      EndingsAfterDisable(f, passes[..|passes| - 1]);
    }
  }

  lemma OneRemoval(f: Flags, s: State, fn: Fn)
    requires Inv(f, s) && s.list.Some?
    ensures Inv(f, RemoveOne(s, fn))
  {
    RemoveInv(f, s, [fn]);
    hide RemoveOne, Inv;
    assert RemoveStep(RemoveOne(s, fn), [fn][1..]) == RemoveOne(s, fn);
  }

  lemma DisableInv(f: Flags, s: State)
    requires Inv(f, s)
    ensures Inv(f, DisableStep(s)) && Inv(f, LockStep(s))
  {
    if s.list.Some? {
      EndingsAfterDisable(f, s.passes);
    }
  }

  lemma FireReady(f: Flags, s: State, v: Value)
    requires Inv(f, s) && s.stack.Some? && !s.firing
    ensures AtHead(f, Prepare(f, s.(accepted := s.accepted + [v]), v, ByFire))
  {
    hide Ordered, AllRegistered, DistinctFns, Numbered, HistoryOk, EndingsOk, PassOk, Kept, FiredValues;
    assert FiredValues(s.passes) + [v] + s.stack.value == FiredValues(s.passes) + s.stack.value + [v];
    PrepareFire(f, s.(accepted := s.accepted + [v]), v);
  }

  // A nested fire is queued, unless the list may be fired only once.
  lemma QueueInv(f: Flags, s: State, v: Value)
    requires Inv(f, s) && s.stack.Some? && s.firing && !f.once
    ensures Inv(f, s.(stack := Some(s.stack.value + [v]), accepted := s.accepted + [v]))
  {
    hide Ordered, AllRegistered, DistinctFns, Numbered, HistoryOk, EndingsOk, PassOk, Kept, FiredValues;
    assert FiredValues(s.passes) + (s.stack.value + [v]) == FiredValues(s.passes) + s.stack.value + [v];
  }

  lemma FireInv(f: Flags, s: State, v: Value)
    requires Inv(f, s)
    ensures Inv(f, FireStep(f, s, v))
  {
    StackNeedsList(f, s);
    hide Inv, AtHead, Advance, Prepare;
    if s.stack.Some? {
      if s.firing {
        if !f.once {
          QueueInv(f, s, v);
        }
      } else if !(f.once && s.memory != Nothing) {
        FireReady(f, s, v);
        AdvanceInv(f, Prepare(f, s.(accepted := s.accepted + [v]), v, ByFire));
      }
    }
  }

  lemma StackNeedsList(f: Flags, s: State)
    requires Inv(f, s)
    ensures s.stack.Some? ==> s.list.Some?
  {
  }

  lemma StepInv(f: Flags, s: State, a: Action)
    requires Inv(f, s)
    ensures Inv(f, Step(f, s, a))
  {
    match a
    case Add(args) => AddInv(f, s, args);
    case Remove(fns) => RemoveInv(f, s, fns);
    case FireWith(v) => FireInv(f, s, v);
    case Lock => DisableInv(f, s);
    case Disable => DisableInv(f, s);
    case Return(isFalse) => if s.firing { ReturnInv(f, s, isFalse); }
  }

  lemma {:induction false} RunInv(f: Flags, s: State, actions: seq<Action>)
    requires Inv(f, s)
    ensures Inv(f, Run(f, s, actions))
    decreases |actions|
  {
    if actions != [] {
      StepInv(f, s, actions[0]);
      RunInv(f, Step(f, s, actions[0]), actions[1..]);
    }
  }

  // ---- the theorems

  lemma {:induction false} HistoryAt(f: Flags, passes: seq<Pass>, registered: seq<Entry>, live: bool, i: nat)
    requires HistoryOk(f, passes, registered) && EndingsOk(f, passes, live) && i < |passes|
    ensures PassOk(passes[i]) && EndingOk(f, passes[i], live)
    ensures passes[i].ending == Running ==> i == |passes| - 1
    ensures passes[i].cause == ByAdd ==> f.memory && i > 0 && passes[i].v == passes[i - 1].v
  {
    if i < |passes| - 1 {
      HistoryAt(f, passes[..|passes| - 1], registered, live, i);
    }
  }

  // In every run, each finished pass of a list that is not disabled and was not halted by
  // a false return made exactly the calls due; and of no pass are the calls more than a
  // prefix of those due. Passes never overlap: only the newest can still be running.
  lemma PassesExact(f: Flags, actions: seq<Action>, i: nat)
    requires i < |Run(f, Initial, actions).passes|
    ensures var s := Run(f, Initial, actions);
            var p := s.passes[i];
            && p.calls <= Due(p)
            && (p.ending == Running <==> s.firing && i == |s.passes| - 1)
            && (p.ending == Completed ==> p.calls == Due(p))
            && (p.ending == Stopped ==> f.stopOnFalse)
            && (p.ending == Disabled ==> s.list.None?)
            && (s.list.Some? && !f.stopOnFalse && p.ending != Running ==> p.calls == Due(p))
  {
    var s := Run(f, Initial, actions);
    InitialInv(f);
    RunInv(f, Initial, actions);
    HistoryAt(f, s.passes, s.registered, s.list.Some?, i);
  }

  ghost function TimesCalled(calls: seq<Call>, id: nat): nat {
    if calls == [] then 0
    else TimesCalled(calls[..|calls| - 1], id) + if calls[|calls| - 1].id == id then 1 else 0
  }

  lemma TimesInSchedule(k: seq<Entry>, v: Value, id: nat)
    requires Ordered(k)
    ensures TimesCalled(CallsOf(k, v), id) == if exists i :: 0 <= i < |k| && k[i].id == id then 1 else 0
  {
    if k != [] {
      var front := k[..|k| - 1];
      assert CallsOf(k, v)[..|k| - 1] == CallsOf(front, v);
      TimesInSchedule(front, v, id);
      assert forall i :: 0 <= i < |front| ==> k[i] == front[i];
    }
  }

  lemma PassOnce(p: Pass, e: Entry)
    requires PassOk(p)
    ensures TimesCalled(p.calls, e.id) <= 1
    ensures p.calls == Due(p) && e in p.eligible ==> TimesCalled(p.calls, e.id) == if e.id in p.removed then 0 else 1
    ensures (forall x :: x in p.eligible ==> x.id != e.id) ==> TimesCalled(p.calls, e.id) == 0
  {
    hide Kept;
    var k := Kept(p.eligible, p.removed);
    KeptOrdered(p.eligible, p.removed);
    KeptMembers(p.eligible, p.removed);
    var n := |p.calls|;
    assert p.calls == CallsOf(k[..n], p.v);
    TimesInSchedule(k[..n], p.v, e.id);
    hide TimesCalled;
    assert forall j :: 0 <= j < n ==> k[j] in k;
    if p.calls == Due(p) && e in p.eligible && e.id !in p.removed {
      assert e in k;
      var j :| 0 <= j < |k| && k[j] == e;
      assert k[..n][j].id == e.id;
    }
  }

  // Exactly once: in a completed pass, one that neither a false return nor a disabling has cut
  // short, a registration is called one time if it was present at the start or added during
  // the pass and was not removed before its turn, and no time otherwise. In any pass it is at
  // most one time. All passes of a list that is not disabled and does not stop on false are
  // completed, but for the one that is running.
  lemma ExactlyOnce(f: Flags, actions: seq<Action>, i: nat, e: Entry)
    requires i < |Run(f, Initial, actions).passes|
    ensures var s := Run(f, Initial, actions);
            var p := s.passes[i];
            && TimesCalled(p.calls, e.id) <= 1
            && (p.ending == Completed && e in p.eligible ==>
                  TimesCalled(p.calls, e.id) == if e.id in p.removed then 0 else 1)
            && (s.list.Some? && !f.stopOnFalse && p.ending != Running ==> p.ending == Completed)
            && ((forall x :: x in p.eligible ==> x.id != e.id) ==> TimesCalled(p.calls, e.id) == 0)
  {
    hide *;
    PassesExact(f, actions, i);
    PassSound(f, actions, i);
    PassOnce(Run(f, Initial, actions).passes[i], e);
  }

  lemma PassSound(f: Flags, actions: seq<Action>, i: nat)
    requires i < |Run(f, Initial, actions).passes|
    ensures PassOk(Run(f, Initial, actions).passes[i])
  {
    var s := Run(f, Initial, actions);
    InitialInv(f);
    RunInv(f, Initial, actions);
    HistoryAt(f, s.passes, s.registered, s.list.Some?, i);
  }

  // Nested fires are first in, first out: the passes that fireWith started carry the
  // accepted values in the order they were accepted; when the list is at rest and neither
  // locked nor disabled, all of them have been run.
  lemma NestedFiresInOrder(f: Flags, actions: seq<Action>)
    ensures var s := Run(f, Initial, actions);
            && FiredValues(s.passes) <= s.accepted
            && (s.stack.Some? && !s.firing ==> FiredValues(s.passes) == s.accepted)
            && (s.stack.Some? && s.firing ==> FiredValues(s.passes) + s.stack.value == s.accepted)
  {
    InitialInv(f);
    RunInv(f, Initial, actions);
  }
}
