/** What puts an end to the calls of a list: disabling it, locking it, and a callback of a
    stopOnFalse list that returns false. */
module ClosedLists {
  import opened Options
  import opened CallbackMachine
  import opened CallbackPasses

  // ---- disabled lists

  // No call more, no registration more, no value accepted more.
  ghost predicate Silent(s: State, t: State) {
    && t.list.None? && t.accepted == s.accepted && t.registered == s.registered && |t.passes| == |s.passes|
    && forall k :: 0 <= k < |s.passes| ==> t.passes[k].calls == s.passes[k].calls && t.passes[k].v == s.passes[k].v
  }

  lemma DisabledStep(f: Flags, s: State, a: Action)
    requires s.list.None?
    ensures Silent(s, Step(f, s, a))
  {
    hide Advance, Finish;
    if a.Return? && s.firing {
      GoneAdvances(f, s.(firingIndex := s.firingIndex + 1));
      GoneFinishes(f, s.(memory := Halted), CallbackMachine.Disabled);
    }
  }

  lemma GoneFinishes(f: Flags, s: State, ending: Ending)
    requires s.list.None?
    ensures Finish(f, s, ending) == Close(s, ending)
  {
  }

  lemma GoneAdvances(f: Flags, s: State)
    requires s.list.None?
    ensures Advance(f, s) == Close(s, CallbackMachine.Disabled)
  {
    GoneFinishes(f, s, CallbackMachine.Disabled);
  }

  // A list that is gone calls nothing any more, whatever is done to it.
  lemma {:induction false} DisabledStays(f: Flags, s: State, more: seq<Action>)
    requires s.list.None?
    ensures Silent(s, Run(f, s, more))
    decreases |more|
  {
    hide Step;
    if more != [] {
      DisabledStep(f, s, more[0]);
      DisabledStays(f, Step(f, s, more[0]), more[1..]);
    }
  }

  // Disabling ends a list for good, from inside a callback too.
  lemma DisableIsForGood(f: Flags, before: seq<Action>, more: seq<Action>)
    ensures var s := Run(f, Initial, before); Silent(s, Run(f, Step(f, s, Disable), more))
  {
    DisabledStays(f, Step(f, Run(f, Initial, before), Disable), more);
  }

  // ---- locked lists

  // A list that remembers a value: one with memory that was fired and whose last pass was not
  // stopped by a callback.
  lemma RemembersIf(f: Flags, before: seq<Action>)
    ensures var s := Run(f, Initial, before);
            && (s.memory.Remembered? ==> f.memory && s.passes != [] && Last(s).ending != Stopped)
            && (s.list.Some? && f.memory && s.passes != [] && !s.memory.Remembered? ==> f.stopOnFalse)
  {
    InitialInv(f);
    RunInv(f, Initial, before);
    RemembersInv(f, Initial, before);
  }

  // What is remembered is not the value of a stopped pass.
  ghost predicate NotStopped(s: State) {
    s.memory.Remembered? ==> s.passes != [] && Last(s).ending != Stopped
  }

  lemma AdvanceNotStopped(f: Flags, s: State)
    requires s.passes != [] && Last(s).ending == Running
    ensures NotStopped(Advance(f, s))
    decreases StackDepth(s), 1
  {
    hide Finish, Enter;
    if !AtCall(s) {
      FinishNotStopped(f, s, if s.list.Some? then Completed else CallbackMachine.Disabled);
    }
  }

  lemma FinishNotStopped(f: Flags, s: State, ending: Ending)
    requires s.passes != [] && (ending == Stopped ==> !s.memory.Remembered?)
    ensures NotStopped(Finish(f, s, ending))
    decreases StackDepth(s), 0
  {
    hide Finish, Enter, Advance;
    FinishCases(f, s, ending);
    if s.list.Some? && !f.once && s.stack.Some? && s.stack.value != [] {
      EnterIsHead(f, Shifted(s, ending), s.stack.value[0], ByFire);
      AdvanceNotStopped(f, Prepare(f, Shifted(s, ending), s.stack.value[0], ByFire));
    }
  }

  lemma StepNotStopped(f: Flags, s: State, a: Action)
    requires Inv(f, s) && NotStopped(s)
    ensures NotStopped(Step(f, s, a))
  {
    hide Fresh, Flatten;
    RunningWhileFiring(f, s);
    hide Inv, Advance, Kept;
    match a
    case Add(args) =>
      if s.list.Some? && !s.firing && s.memory.Remembered? {
        var added := Fresh(s.list.value, Flatten(args), f.unique, |s.registered|);
        var t := s.(list := Some(s.list.value + added), registered := s.registered + added,
                    firingStart := |s.list.value|);
        AdvanceNotStopped(f, Prepare(f, t, s.memory.v, ByAdd));
      }
    case Remove(fns) => RemoveNotStopped(s, fns);
    case FireWith(v) =>
      if s.list.Some? && !s.firing {
        AdvanceNotStopped(f, Prepare(f, s.(accepted := s.accepted + [v]), v, ByFire));
      }
    case Return(isFalse) =>
      if s.firing {
        if isFalse && f.stopOnFalse {
          FinishNotStopped(f, s.(memory := Halted), if s.list.Some? then Stopped else CallbackMachine.Disabled);
        } else {
          AdvanceNotStopped(f, s.(firingIndex := s.firingIndex + 1));
        }
      }
    case Lock =>
    case Disable =>
  }

  lemma RunningWhileFiring(f: Flags, s: State)
    requires Inv(f, s)
    ensures s.firing ==> s.passes != [] && Last(s).ending == Running
  {
  }

  lemma RemoveNotStopped(s: State, fns: seq<Fn>)
    requires NotStopped(s)
    ensures NotStopped(RemoveStep(s, fns))
    decreases |fns|
  {
    if s.list.Some? && fns != [] {
      RemoveNotStopped(RemoveOne(s, fns[0]), fns[1..]);
    }
  }

  lemma {:induction false} RemembersInv(f: Flags, s: State, actions: seq<Action>)
    requires Inv(f, s) && NotStopped(s)
    ensures NotStopped(Run(f, s, actions))
    decreases |actions|
  {
    hide Inv, Step, NotStopped;
    if actions != [] {
      StepNotStopped(f, s, actions[0]);
      StepInv(f, s, actions[0]);
      RemembersInv(f, Step(f, s, actions[0]), actions[1..]);
    }
  }

  // No value accepted more, whether the list goes on with what it has or not.
  lemma StackStays(f: Flags, s: State)
    requires s.stack.None?
    ensures Advance(f, s).accepted == s.accepted && Advance(f, s).stack.None?
  {
  }

  lemma LockedStep(f: Flags, s: State, a: Action)
    requires s.stack.None?
    ensures Step(f, s, a).accepted == s.accepted && Step(f, s, a).stack.None?
  {
    hide Advance, Fresh, Flatten;
    match a
    case Add(args) =>
      if s.list.Some? && !s.firing && s.memory.Remembered? {
        var added := Fresh(s.list.value, Flatten(args), f.unique, |s.registered|);
        var t := s.(list := Some(s.list.value + added), registered := s.registered + added,
                    firingStart := |s.list.value|);
        StackStays(f, Prepare(f, t, s.memory.v, ByAdd));
      }
    case Remove(fns) => LockedRemove(s, fns);
    case Return(isFalse) => StackStays(f, s.(firingIndex := s.firingIndex + 1));
    case _ =>
  }

  lemma LockedRemove(s: State, fns: seq<Fn>)
    requires s.stack.None?
    ensures RemoveStep(s, fns).accepted == s.accepted && RemoveStep(s, fns).stack.None?
    decreases |fns|
  {
    if s.list.Some? && fns != [] {
      LockedRemove(RemoveOne(s, fns[0]), fns[1..]);
    }
  }

  lemma {:induction false} LockedStays(f: Flags, s: State, more: seq<Action>)
    requires s.stack.None?
    ensures Run(f, s, more).accepted == s.accepted
    decreases |more|
  {
    hide Step;
    if more != [] {
      LockedStep(f, s, more[0]);
      LockedStays(f, Step(f, s, more[0]), more[1..]);
    }
  }

  // Locking: no later fire is accepted; a list with nothing to remember is closed for good, and any
  // other keeps what it has, so that callbacks added later are still called.
  lemma LockIsForGood(f: Flags, before: seq<Action>, more: seq<Action>)
    ensures var s := Run(f, Initial, before);
            var t := Run(f, Step(f, s, Lock), more);
            && t.accepted == s.accepted
            && (!f.memory || s.passes == [] || Last(s).ending == Stopped ==> Silent(s, t))
            && (f.memory && s.passes != [] && !f.stopOnFalse && s.list.Some? ==>
                  Step(f, s, Lock).list == s.list && Step(f, s, Lock).memory == Remembered(Last(s).v))
  {
    var s := Run(f, Initial, before);
    InitialInv(f);
    RunInv(f, Initial, before);
    RemembersIf(f, before);
    LockedStays(f, Step(f, s, Lock), more);
    if s.memory.Remembered? {
      RemembersTheLast(f, s);
    } else {
      DisabledStays(f, Step(f, s, Lock), more);
    }
  }

  lemma RemembersTheLast(f: Flags, s: State)
    requires Inv(f, s) && s.memory.Remembered?
    ensures s.passes != [] && s.memory.v == Last(s).v
  {
  }

  // ---- callbacks that return false

  // The pass that was running is over with the calls it has made, and while no other pass has
  // begun nothing is left for callbacks that are added.
  lemma FalseStops(f: Flags, s: State)
    requires Inv(f, s) && s.firing && s.list.Some? && f.stopOnFalse
    ensures var n, t := |s.passes| - 1, Step(f, s, Return(true));
            && n >= 0 && |t.passes| > n && t.passes[..n] == s.passes[..n]
            && t.passes[n] == Last(s).(ending := Stopped)
            && (|t.passes| == n + 1 ==> !t.firing && !t.memory.Remembered?)
  {
    RunningWhileFiring(f, s);
    FinishStopped(f, s.(memory := Halted));
    hide Inv, Finish;
  }

  lemma FinishStopped(f: Flags, s: State)
    requires s.passes != [] && s.memory == Halted && s.list.Some?
    ensures var n, t := |s.passes| - 1, Finish(f, s, Stopped);
            && |t.passes| > n && t.passes[..n] == s.passes[..n] && t.passes[n] == Last(s).(ending := Stopped)
            && (|t.passes| == n + 1 ==> !t.firing && !t.memory.Remembered?)
  {
    FinishCases(f, s, Stopped);
    hide Finish, Enter, Advance;
    if !f.once && s.stack.Some? && s.stack.value != [] {
      var n, v := |s.passes| - 1, s.stack.value[0];
      var t := Prepare(f, Shifted(s, Stopped), v, ByFire);
      EnterIsHead(f, Shifted(s, Stopped), v, ByFire);
      PassesGrow(f, t);
      ShiftedPasses(f, s, v);
      var u := Advance(f, t);
      assert u.passes[..n + 1][..n] == u.passes[..n] && u.passes[..n + 1][n] == u.passes[n];
      assert t.passes[..n + 1][..n] == t.passes[..n] && t.passes[..n + 1][n] == t.passes[n];
    }
  }

  lemma ShiftedPasses(f: Flags, s: State, v: Value)
    requires s.passes != [] && s.list.Some? && s.stack.Some? && s.stack.value != []
    ensures var n, t := |s.passes| - 1, Prepare(f, Shifted(s, Stopped), v, ByFire);
            |t.passes| == n + 2 && t.passes[..n] == s.passes[..n] && t.passes[n] == Last(s).(ending := Stopped)
  {
  }

  // The loop changes only the last pass, and begins others behind it.
  lemma PassesGrow(f: Flags, s: State)
    requires s.passes != []
    ensures var t := Advance(f, s);
            |t.passes| >= |s.passes| && t.passes[..|s.passes| - 1] == s.passes[..|s.passes| - 1]
    decreases StackDepth(s)
  {
    hide Finish, Enter;
    if !AtCall(s) {
      var ending := if s.list.Some? then Completed else CallbackMachine.Disabled;
      FinishCases(f, s, ending);
      if s.list.Some? && !f.once && s.stack.Some? && s.stack.value != [] {
        var v := s.stack.value[0];
        var t := Prepare(f, Shifted(s, ending), v, ByFire);
        EnterIsHead(f, Shifted(s, ending), v, ByFire);
        PassesGrow(f, t);
        assert t.passes[..|t.passes| - 1][..|s.passes| - 1] == s.passes[..|s.passes| - 1];
        var u := Advance(f, t);
        assert u.passes[..|t.passes| - 1][..|s.passes| - 1] == u.passes[..|s.passes| - 1];
      }
    }
  }

  // On any other list it makes no difference what a callback returns.
  lemma FalseIsIgnored(f: Flags, s: State, isFalse: bool)
    requires !f.stopOnFalse
    ensures Step(f, s, Return(isFalse)) == Step(f, s, Return(!isFalse))
  {
  }
}
