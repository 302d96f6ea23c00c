/** Lists that may be fired again: what a run holds and fires can be told from its actions
    alone, whatever passes they fall into. Only the first lock or disable puts an end to it. */
module RepeatableLists {
  import opened Options
  import opened CallbackMachine
  import opened CallbackPasses

  predicate Open(actions: seq<Action>) {
    forall k :: 0 <= k < |actions| ==> !actions[k].Lock? && !actions[k].Disable?
  }

  // The number of actions before the first lock or disable.
  function ClosedAt(actions: seq<Action>): (n: nat)
    ensures n <= |actions| && Open(actions[..n])
    ensures n < |actions| ==> actions[n].Lock? || actions[n].Disable?
  {
    if actions == [] || actions[0].Lock? || actions[0].Disable? then 0
    else
      var n := ClosedAt(actions[1..]);
      assert actions[..n + 1] == [actions[0]] + actions[1..][..n];
      n + 1
  }

  // The values of all fires, nested ones included.
  ghost function Fires(actions: seq<Action>): seq<Value> {
    if actions == [] then []
    else if actions[0].FireWith? then [actions[0].v] + Fires(actions[1..])
    else Fires(actions[1..])
  }

  ghost function WithoutAll(list: seq<Entry>, fns: seq<Fn>): seq<Entry>
    decreases |fns|
  {
    if fns == [] then list else WithoutAll(Without(list, fns[0]), fns[1..])
  }

  // A list that only adding and removing change, with the number of the next registration.
  ghost function Replay(unique: bool, list: seq<Entry>, next: nat, actions: seq<Action>): seq<Entry>
    decreases |actions|
  {
    if actions == [] then list
    else
      match actions[0]
      case Add(args) =>
        var added := Fresh(list, Flatten(args), unique, next);
        Replay(unique, list + added, next + |added|, actions[1..])
      case Remove(fns) => Replay(unique, WithoutAll(list, fns), next, actions[1..])
      case _ => Replay(unique, list, next, actions[1..])
  }

  ghost predicate Live(f: Flags, s: State) {
    !f.once && s.list.Some? && s.stack.Some?
  }

  // The passes change neither the list nor what was accepted and registered.
  ghost predicate SameList(f: Flags, s: State, t: State) {
    Live(f, t) && t.list == s.list && t.accepted == s.accepted && t.registered == s.registered
  }

  lemma {:induction false} AdvanceKeepsList(f: Flags, s: State)
    requires Live(f, s)
    ensures SameList(f, s, Advance(f, s))
    decreases StackDepth(s), 1
  {
    if !AtCall(s) {
      FinishKeepsList(f, s, Completed);
    }
  }

  lemma {:induction false} FinishKeepsList(f: Flags, s: State, ending: Ending)
    requires Live(f, s)
    ensures SameList(f, s, Finish(f, s, ending))
    decreases StackDepth(s), 0
  {
    hide Advance;
    var t := Close(s, ending);
    if t.stack.value != [] {
      var v := t.stack.value[0];
      var u := t.(memory := Remembered(v), stack := Some(t.stack.value[1..]));
      AdvanceKeepsList(f, Prepare(f, u, v, ByFire));
    }
  }

  lemma {:induction false} RemoveChangesList(f: Flags, s: State, fns: seq<Fn>)
    requires Live(f, s)
    ensures var t := RemoveStep(s, fns);
            Live(f, t) && t.list.value == WithoutAll(s.list.value, fns) && t.accepted == s.accepted &&
            t.registered == s.registered
    decreases |fns|
  {
    if fns != [] {
      RemoveChangesList(f, RemoveOne(s, fns[0]), fns[1..]);
    }
  }

  lemma AddChangesList(f: Flags, s: State, args: seq<Arg>)
    requires Live(f, s)
    ensures var t, added := AddStep(f, s, args), Fresh(s.list.value, Flatten(args), f.unique, |s.registered|);
            Live(f, t) && t.list.value == s.list.value + added && t.accepted == s.accepted &&
            t.registered == s.registered + added
  {
    hide Advance, Prepare, Fresh, Flatten;
    var added := Fresh(s.list.value, Flatten(args), f.unique, |s.registered|);
    if !s.firing && s.memory.Remembered? {
      var t := s.(list := Some(s.list.value + added), registered := s.registered + added,
                  firingStart := |s.list.value|);
      PrepareKeepsList(f, t, s.memory.v, ByAdd);
      AdvanceKeepsList(f, Prepare(f, t, s.memory.v, ByAdd));
    }
  }

  lemma PrepareKeepsList(f: Flags, s: State, v: Value, cause: Cause)
    requires Live(f, s)
    ensures SameList(f, s, Prepare(f, s, v, cause))
  {
  }

  lemma FireChangesAccepted(f: Flags, s: State, v: Value)
    requires Live(f, s)
    ensures var t := FireStep(f, s, v);
            Live(f, t) && t.list == s.list && t.accepted == s.accepted + [v] && t.registered == s.registered
  {
    hide Advance, Prepare;
    if !s.firing {
      var t := s.(accepted := s.accepted + [v]);
      PrepareKeepsList(f, t, v, ByFire);
      AdvanceKeepsList(f, Prepare(f, t, v, ByFire));
    }
  }

  lemma ReturnKeepsList(f: Flags, s: State, isFalse: bool)
    requires Live(f, s)
    ensures SameList(f, s, ReturnStep(f, s, isFalse))
  {
    hide Advance, Finish;
    if isFalse && f.stopOnFalse {
      FinishKeepsList(f, s.(memory := Halted), Stopped);
    } else {
      AdvanceKeepsList(f, s.(firingIndex := s.firingIndex + 1));
    }
  }

  lemma {:induction false} RunFollows(f: Flags, s: State, actions: seq<Action>)
    requires Live(f, s) && Open(actions)
    ensures var t := Run(f, s, actions);
            && Live(f, t)
            && t.list.value == Replay(f.unique, s.list.value, |s.registered|, actions)
            && t.accepted == s.accepted + Fires(actions)
    decreases |actions|
  {
    if actions != [] {
      var a := actions[0];
      StepFollows(f, s, a);
      hide Step;
      RunFollows(f, Step(f, s, a), actions[1..]);
    }
  }

  lemma StepFollows(f: Flags, s: State, a: Action)
    requires Live(f, s) && !a.Lock? && !a.Disable?
    ensures var t := Step(f, s, a);
            && Live(f, t)
            && (match a
                case Add(args) =>
                  var added := Fresh(s.list.value, Flatten(args), f.unique, |s.registered|);
                  t.list.value == s.list.value + added && |t.registered| == |s.registered| + |added|
                case Remove(fns) => t.list.value == WithoutAll(s.list.value, fns) && t.registered == s.registered
                case _ => t.list == s.list && t.registered == s.registered)
            && t.accepted == if a.FireWith? then s.accepted + [a.v] else s.accepted
  {
    hide AddStep, RemoveStep, FireStep, ReturnStep;
    match a
    case Add(args) => AddChangesList(f, s, args);
    case Remove(fns) => RemoveChangesList(f, s, fns);
    case FireWith(v) => FireChangesAccepted(f, s, v);
    case Return(isFalse) => if s.firing { ReturnKeepsList(f, s, isFalse); }
  }

  // ---- after a lock or a disable

  // No fire is accepted any more, and none that was pending gets a pass.
  ghost predicate NoMoreFires(s: State, t: State) {
    t.stack.None? && t.accepted == s.accepted && FiredValues(t.passes) == FiredValues(s.passes)
  }

  lemma AdvanceFiresNone(f: Flags, s: State)
    requires !f.once && s.stack.None?
    ensures NoMoreFires(s, Advance(f, s))
  {
    if AtCall(s) {
      FiredValuesReplace(s.passes, Last(Called(s)));
    } else {
      FinishFiresNone(f, s, if s.list.Some? then Completed else Disabled);
    }
  }

  lemma FinishFiresNone(f: Flags, s: State, ending: Ending)
    requires !f.once && s.stack.None?
    ensures NoMoreFires(s, Finish(f, s, ending))
  {
    if s.passes != [] {
      FiredValuesReplace(s.passes, Last(s).(ending := ending));
    }
  }

  lemma {:induction false} RemoveFiresNone(s: State, fns: seq<Fn>)
    requires s.stack.None?
    ensures NoMoreFires(s, RemoveStep(s, fns))
    decreases |fns|
  {
    if s.list.Some? && fns != [] {
      RemoveOneFiresNone(s, fns[0]);
      RemoveFiresNone(RemoveOne(s, fns[0]), fns[1..]);
    }
  }

  lemma RemoveOneFiresNone(s: State, fn: Fn)
    requires s.stack.None? && s.list.Some?
    ensures NoMoreFires(s, RemoveOne(s, fn))
  {
    hide FiredValues, Without, Uncalled, AllCalls;
    if s.passes != [] {
      FiredValuesReplace(s.passes, Last(RemoveOne(s, fn)));
    }
  }

  lemma AddFiresNone(f: Flags, s: State, args: seq<Arg>)
    requires !f.once && s.stack.None?
    ensures NoMoreFires(s, AddStep(f, s, args))
  {
    hide FiredValues, Advance, Fresh, Flatten;
    if s.list.Some? {
      var added := Fresh(s.list.value, Flatten(args), f.unique, |s.registered|);
      if s.firing {
        if s.passes != [] {
          FiredValuesReplace(s.passes, Last(s).(eligible := Last(s).eligible + added));
        }
      } else if s.memory.Remembered? {
        var t := s.(list := Some(s.list.value + added), registered := s.registered + added,
                    firingStart := |s.list.value|);
        var u := Prepare(f, t, s.memory.v, ByAdd);
        FiredValuesAppend(s.passes, Last(u));
        assert FiredValues(s.passes) + [] == FiredValues(s.passes);
        AdvanceFiresNone(f, u);
      }
    }
  }

  lemma StepFiresNone(f: Flags, s: State, a: Action)
    requires !f.once && s.stack.None?
    ensures NoMoreFires(s, Step(f, s, a))
  {
    hide AddStep, RemoveStep, Advance, Finish, FiredValues;
    match a
    case Add(args) => AddFiresNone(f, s, args);
    case Remove(fns) => RemoveFiresNone(s, fns);
    case FireWith(v) =>
    case Lock =>
    case Disable =>
    case Return(isFalse) =>
      if isFalse && f.stopOnFalse {
        FinishFiresNone(f, s.(memory := Halted), if s.list.Some? then Stopped else Disabled);
      } else {
        AdvanceFiresNone(f, s.(firingIndex := s.firingIndex + 1));
      }
  }

  lemma {:induction false} RunFiresNone(f: Flags, s: State, actions: seq<Action>)
    requires !f.once && s.stack.None?
    ensures NoMoreFires(s, Run(f, s, actions))
    decreases |actions|
  {
    if actions != [] {
      StepFiresNone(f, s, actions[0]);
      hide Step;
      RunFiresNone(f, Step(f, s, actions[0]), actions[1..]);
    }
  }

  lemma {:induction false} RunAppend(f: Flags, s: State, first: seq<Action>, second: seq<Action>)
    ensures Run(f, s, first + second) == Run(f, Run(f, s, first), second)
    decreases |first|
  {
    if first == [] {
      assert first + second == second;
    } else {
      assert (first + second)[0] == first[0] && (first + second)[1..] == first[1..] + second;
      RunAppend(f, Step(f, s, first[0]), first[1..], second);
    }
  }

  lemma AfterClosing(f: Flags, actions: seq<Action>)
    requires !f.once
    ensures var open, s := Run(f, Initial, actions[..ClosedAt(actions)]), Run(f, Initial, actions);
            s.accepted == open.accepted && FiredValues(s.passes) == FiredValues(open.passes)
  {
    var n := ClosedAt(actions);
    var open := Run(f, Initial, actions[..n]);
    assert actions == actions[..n] + actions[n..];
    RunAppend(f, Initial, actions[..n], actions[n..]);
    if n < |actions| {
      RunFiresNone(f, Step(f, open, actions[n]), actions[n..][1..]);
    }
  }

  // No fire is lost: of every run those fires are accepted that come before the first lock or
  // disable, and the passes started by fires are theirs, in order, all of them if the list was
  // at rest by then. Until then the list is what adding and removing have made of it.
  lemma NoFireLost(f: Flags, actions: seq<Action>)
    requires !f.once
    ensures var before := actions[..ClosedAt(actions)];
            var open, s := Run(f, Initial, before), Run(f, Initial, actions);
            && open.list == Some(Replay(f.unique, [], 0, before))
            && s.accepted == Fires(before)
            && FiredValues(s.passes) <= Fires(before)
            && (!open.firing ==> FiredValues(s.passes) == Fires(before))
  {
    var before := actions[..ClosedAt(actions)];
    RunFollows(f, Initial, before);
    NestedFiresInOrder(f, before);
    AfterClosing(f, actions);
    hide Run, FiredValues, Fires, Replay;
    assert [] + Fires(before) == Fires(before);
  }

  // A fire at rest begins a pass over the whole list as it is, with its first callback called.
  lemma FireStarts(f: Flags, actions: seq<Action>, v: Value)
    requires !f.once && Open(actions) && !Run(f, Initial, actions).firing && Replay(f.unique, [], 0, actions) != []
    ensures var list := Replay(f.unique, [], 0, actions);
            var before, after := Run(f, Initial, actions), Step(f, Run(f, Initial, actions), FireWith(v));
            after.firing && after.passes == before.passes + [Pass(ByFire, v, list, {}, [Call(list[0].id, v)], Running)]
  {
    var s := Run(f, Initial, actions);
    InitialInv(f);
    RunInv(f, Initial, actions);
    RunFollows(f, Initial, actions);
    StartsAtZero(f, s);
    hide Run, Replay, Inv;
    assert s.list.value[0..] == s.list.value;
    PassBegins(f, s.(accepted := s.accepted + [v]), v, ByFire);
  }

  lemma PassBegins(f: Flags, s: State, v: Value, cause: Cause)
    requires s.list.Some? && s.firingStart < |s.list.value|
    ensures var t, pending := Enter(f, s, v, cause), s.list.value[s.firingStart..];
            t.firing && t.passes == s.passes + [Pass(cause, v, pending, {}, [Call(pending[0].id, v)], Running)]
  {
    var pending := s.list.value[s.firingStart..];
    var t := Prepare(f, s, v, cause);
    var p := Pass(cause, v, pending, {}, [], Running);
    assert AtCall(t) && Advance(f, t) == Called(t) && t.passes == s.passes + [p] && Last(t) == p;
    assert p.calls + [Call(pending[0].id, v)] == [Call(pending[0].id, v)];
    assert (s.passes + [p])[|s.passes| := p.(calls := [Call(pending[0].id, v)])] ==
           s.passes + [p.(calls := [Call(pending[0].id, v)])];
  }

  lemma StartsAtZero(f: Flags, s: State)
    requires Inv(f, s)
    ensures s.firingStart == 0
  {
  }

  // With memory, adding at rest begins a pass over just what was added, with the last value.
  lemma AddReplays(f: Flags, actions: seq<Action>, args: seq<Arg>)
    requires var s := Run(f, Initial, actions);
             s.list.Some? && !s.firing && s.memory.Remembered? &&
             Fresh(s.list.value, Flatten(args), f.unique, |s.registered|) != []
    ensures var before, after := Run(f, Initial, actions), Step(f, Run(f, Initial, actions), Add(args));
            var added := Fresh(before.list.value, Flatten(args), f.unique, |before.registered|);
            var v := before.memory.v;
            after.firing && after.passes == before.passes + [Pass(ByAdd, v, added, {}, [Call(added[0].id, v)], Running)]
  {
    var s := Run(f, Initial, actions);
    hide Run, Fresh, Flatten;
    var added := Fresh(s.list.value, Flatten(args), f.unique, |s.registered|);
    var t := s.(list := Some(s.list.value + added), registered := s.registered + added, firingStart := |s.list.value|);
    assert (s.list.value + added)[|s.list.value|..] == added;
    PassBegins(f, t, s.memory.v, ByAdd);
  }
}
