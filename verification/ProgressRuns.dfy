/** The progress list of a Deferred lives through a run of its own: what the moves do to it are
    actions of a callback list, and what it delivers can be told from the notifications. */
module ProgressRuns {
  import opened CallbackMachine
  import opened CallbackPasses
  import opened Deferred
  import opened DeferredRuns
  import opened RepeatableLists

  // The action on the progress list that a move amounts to, if any.
  ghost function ActionOf(w: World, m: Move): seq<Action> {
    match m
    case Register(side, fns) => if side == Progress then [Add(UserArgs(fns))] else []
    case Settle(side, v) => if side == Progress then [FireWith(v)] else if w.status == Pending then [Lock] else []
    case Leave(isFalse) => if w.control != [] && w.control[0] == Progress then [Return(isFalse)] else []
  }

  ghost function Actions(w: World, moves: seq<Move>): seq<Action>
    decreases |moves|
  {
    if moves == [] then [] else ActionOf(w, moves[0]) + Actions(Play(w, moves[0]), moves[1..])
  }

  lemma MoveIsAction(w: World, m: Move)
    requires DeferredInv(w)
    ensures Play(w, m).progress == Run(REPEATED, w.progress, ActionOf(w, m))
  {
    MoveInv(w, m);
    InnermostFires(w);
    hide *;
    AfterIsAction(w, m);
  }

  lemma AfterIsAction(w: World, m: Move)
    requires w.control != [] && w.control[0] == Progress ==> w.progress.firing
    ensures ProgressAfter(w, m) == Run(REPEATED, w.progress, ActionOf(w, m))
  {
    hide AddStep, FireStep, ReturnStep, LockStep, Run;
    RunNone(w.progress);
    match m
    case Register(side, fns) => RunOne(w.progress, Add(UserArgs(fns)));
    case Settle(side, v) =>
      RunOne(w.progress, FireWith(v));
      RunOne(w.progress, Lock);
    case Leave(isFalse) => RunOne(w.progress, Return(isFalse));
  }

  lemma InnermostFires(w: World)
    requires DeferredInv(w)
    ensures w.control != [] && w.control[0] == Progress ==> w.progress.firing
  {
    hide Waiting, Won, Lost, ProgressOk;
    if w.control != [] && w.control[0] == Progress {
      assert Get(w, Progress).firing;
    }
  }

  lemma RunNone(s: State)
    ensures Run(REPEATED, s, []) == s
  {
  }

  lemma RunOne(s: State, a: Action)
    ensures Run(REPEATED, s, [a]) == Step(REPEATED, s, a)
  {
    hide Step;
    assert [a][1..] == [];
  }

  lemma {:induction false} ProgressIsRun(w: World, moves: seq<Move>)
    requires DeferredInv(w)
    ensures PlayAll(w, moves).progress == Run(REPEATED, w.progress, Actions(w, moves))
    decreases |moves|
  {
    hide Play, Step, DeferredInv;
    if moves == [] {
      RunNone(w.progress);
    } else {
      MoveIsAction(w, moves[0]);
      MoveInv(w, moves[0]);
      ProgressIsRun(Play(w, moves[0]), moves[1..]);
      RunAppend(REPEATED, w.progress, ActionOf(w, moves[0]), Actions(Play(w, moves[0]), moves[1..]));
    }
  }

  // The notifications before the first resolve or reject.
  ghost function Notified(moves: seq<Move>): seq<Value> {
    if moves == [] || (moves[0].Settle? && moves[0].side != Progress) then []
    else if moves[0].Settle? then [moves[0].v] + Notified(moves[1..])
    else Notified(moves[1..])
  }

  ghost function FiresBefore(actions: seq<Action>): seq<Value> {
    Fires(actions[..ClosedAt(actions)])
  }

  lemma FiresBeforeFirst(a: Action, rest: seq<Action>)
    ensures FiresBefore([a] + rest) ==
            if a.Lock? || a.Disable? then [] else if a.FireWith? then [a.v] + FiresBefore(rest) else FiresBefore(rest)
  {
    var all := [a] + rest;
    assert all[1..] == rest;
    if !a.Lock? && !a.Disable? {
      var n := ClosedAt(rest);
      assert all[..n + 1][1..] == rest[..n] && all[..n + 1][0] == a;
    }
  }

  lemma {:induction false} FiresAreNotified(w: World, moves: seq<Move>)
    requires DeferredInv(w) && w.status == Pending
    ensures FiresBefore(Actions(w, moves)) == Notified(moves)
    decreases |moves|
  {
    hide Play, DeferredInv, FiresBefore, Fires;
    if moves == [] {
      NoFires();
    } else {
      var w' := Play(w, moves[0]);
      MoveInv(w, moves[0]);
      var first, rest := ActionOf(w, moves[0]), Actions(w', moves[1..]);
      if first == [] {
        assert [] + rest == rest;
      } else {
        assert first == [first[0]];
        FiresBeforeFirst(first[0], rest);
      }
      if !(moves[0].Settle? && moves[0].side != Progress) {
        FiresAreNotified(w', moves[1..]);
      }
    }
  }

  lemma NoFires()
    ensures FiresBefore([]) == []
  {
  }

  // What was delivered are the first notifications before the settling, in order; and a pass
  // that was ever started has the value of the last one delivered.
  lemma DeliveredIsNotified(moves: seq<Move>)
    ensures var s := PlayAll(Start(), moves).progress;
            && FiredValues(s.passes) <= Notified(moves)
            && (s.passes != [] ==> FiredValues(s.passes) != [] &&
                                   Last(s).v == FiredValues(s.passes)[|FiredValues(s.passes)| - 1])
  {
    hide Play, PlayAll, Run, Fires, Notified, FiredValues, DeferredInv, Actions, Inv;
    StartInv();
    ProgressIsRun(Start(), moves);
    FiresAreNotified(Start(), moves);
    StartsPending();
    var actions := Actions(Start(), moves);
    NoFireLost(REPEATED, actions);
    InitialInv(REPEATED);
    RunInv(REPEATED, Initial, actions);
    HistoryTells(Run(REPEATED, Initial, actions));
  }

  lemma HistoryTells(s: State)
    requires Inv(REPEATED, s)
    ensures s.passes != [] ==> FiredValues(s.passes) != [] &&
                               Last(s).v == FiredValues(s.passes)[|FiredValues(s.passes)| - 1]
  {
    if s.passes != [] {
      LastNotified(s.passes, s.registered);
    }
  }
}
