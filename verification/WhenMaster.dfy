// The closure of jQuery.when as an object, and what its calls make of the master deferred.
module WhenMaster {
  import opened Options
  import CallbackMachine
  import opened Deferred
  import DeferredRuns
  import opened WhenJoin

  class When {
    var args: array<Slot>
    var pValues: array<Slot>
    var count: int
    ghost var calls: seq<MasterCall>   // on the master deferred

    ghost function View(): Join
      reads this, args, pValues
    {
      Join(args[..], pValues[..], count, calls)
    }

    ghost predicate Valid()
      reads this
    {
      args != pValues && args.Length == pValues.Length
    }

    // The call of `when`.
    constructor (inputs: seq<Input>)
      ensures Valid() && fresh(args) && fresh(pValues)
      ensures View() == HandleAll(Begin(inputs), History(inputs, []))
    {
      args := new Slot[|inputs|](i requires 0 <= i < |inputs| => SlotOf(inputs[i]));
      pValues := new Slot[|inputs|](i => Undefined);
      count := |inputs|;
      calls := [];
      new;
      hide HandleAll, History;
      assert forall i :: 0 <= i < |inputs| ==> args[i] == SlotOf(inputs[i]) && pValues[i] == Undefined;
      assert View() == Begin(inputs);
      Attach(inputs);
    }

    // The loop over the arguments, with each argument's `then`, and the test after it.
    method Attach(inputs: seq<Input>)
      requires Valid() && View() == Begin(inputs)
      modifies this`count, this`calls, args, pValues
      ensures View() == HandleAll(Begin(inputs), History(inputs, []))
    {
      hide Handle, HandleAll, InLoop, AtOnce, History;
      BeginLoop(inputs);
      assert args.Length == |View().args| == |Begin(inputs).args|;
      for i := 0 to |inputs|
        invariant args.Length == |inputs|
        invariant View() == HandleAll(Begin(inputs), InLoop(inputs, i))
      {
        LoopGoesOn(inputs, i);
        Then(i, inputs[i]);
      }
      LoopIsOver(inputs);
      if count == 0 {
        calls := calls + [ResolveWith(args[..])];
      }
    }

    // What the loop does with argument i: `then` calls back at once what is already known.
    method Then(i: nat, input: Input)
      requires Valid() && i < args.Length
      modifies this`count, this`calls, args, pValues
      ensures View() == HandleAll(old(View()), AtOnce(i, input))
    {
      hide Handle, HandleAll;
      ghost var s := View();
      match input
      case Plain(_) =>
        HandleSkip(s, i);
        count := count - 1;
      case Promise(standing, notified) =>
        ThenSettled(i, standing);
        ghost var settled := AtOnce(i, Promise(standing, None));
        if notified.Some? {
          HandleOneMore(s, settled, Notify(i, notified.value));
          AtOnceNotifies(i, standing, notified.value);
          ProgressFunc(i, notified.value);
        }
    }

    method ThenSettled(i: nat, standing: Standing)
      requires Valid() && i < args.Length
      modifies this`count, this`calls, args
      ensures View() == HandleAll(old(View()), AtOnce(i, Promise(standing, None)))
    {
      hide Handle, HandleAll, AtOnce;
      HandleSettled(View(), i, standing);
      match standing {
        case Unsettled =>
        case ResolvedWith(values) => ResolveFunc(i, values);
        case RejectedWith(values) => RejectFunc(i, values);
      }
    }

    method ResolveFunc(i: nat, values: seq<int>)
      requires Valid() && i < args.Length
      modifies this`count, this`calls, args
      ensures View() == Handle(old(View()), Resolve(i, values))
    {
      args[i] := Pack(values);
      count := count - 1;
      if count == 0 {
        calls := calls + [ResolveWith(args[..])];
      }
    }

    method RejectFunc(i: nat, values: seq<int>)
      requires Valid()
      modifies this`calls
      ensures View() == Handle(old(View()), Reject(i, values))
    {
      calls := calls + [RejectWith(values)];
    }

    method ProgressFunc(i: nat, values: seq<int>)
      requires Valid() && i < pValues.Length
      modifies this`calls, pValues
      ensures View() == Handle(old(View()), Notify(i, values))
    {
      pValues[i] := Pack(values);
      calls := calls + [NotifyWith(pValues[..])];
    }
  }

  lemma HandleSettled(s: Join, i: nat, standing: Standing)
    ensures HandleAll(s, AtOnce(i, Promise(standing, None))) ==
            if standing.Unsettled? then s
            else if standing.ResolvedWith? then Handle(s, Resolve(i, standing.values))
            else Handle(s, Reject(i, standing.values))
  {
    match standing
    case Unsettled =>
    case ResolvedWith(values) =>
      HandleOneMore(s, [], Resolve(i, values));
      assert [] + [Resolve(i, values)] == AtOnce(i, Promise(standing, None));
    case RejectedWith(values) =>
      HandleOneMore(s, [], Reject(i, values));
      assert [] + [Reject(i, values)] == AtOnce(i, Promise(standing, None));
  }

  lemma HandleSkip(s: Join, i: nat)
    ensures HandleAll(s, [Skip(i)]) == s.(count := s.count - 1)
  {
    HandleOneMore(s, [], Skip(i));
    assert [] + [Skip(i)] == [Skip(i)];
  }

  lemma AtOnceNotifies(i: nat, standing: Standing, values: seq<int>)
    ensures AtOnce(i, Promise(standing, Some(values))) == AtOnce(i, Promise(standing, None)) + [Notify(i, values)]
  {
  }

  lemma BeginLoop(inputs: seq<Input>)
    ensures HandleAll(Begin(inputs), InLoop(inputs, 0)) == Begin(inputs)
  {
  }

  lemma LoopGoesOn(inputs: seq<Input>, i: nat)
    requires i < |inputs|
    ensures HandleAll(Begin(inputs), InLoop(inputs, i + 1)) ==
            HandleAll(HandleAll(Begin(inputs), InLoop(inputs, i)), AtOnce(i, inputs[i]))
  {
    HandleAppend(Begin(inputs), InLoop(inputs, i), AtOnce(i, inputs[i]));
  }

  lemma LoopIsOver(inputs: seq<Input>)
    ensures var s := HandleAll(Begin(inputs), InLoop(inputs, |inputs|));
            HandleAll(Begin(inputs), History(inputs, [])) ==
            if s.count == 0 then s.(calls := s.calls + [ResolveWith(s.args)]) else s
  {
    HandleOneMore(Begin(inputs), InLoop(inputs, |inputs|), EndOfLoop);
    assert History(inputs, []) == InLoop(inputs, |inputs|) + [EndOfLoop];
  }

  lemma HandleAppend(s: Join, first: seq<Event>, second: seq<Event>)
    ensures HandleAll(s, first + second) == HandleAll(HandleAll(s, first), second)
    decreases |second|
  {
    if second == [] {
      assert first + second == first;
    } else {
      assert (first + second)[..|first + second| - 1] == first + second[..|second| - 1];
      HandleAppend(s, first, second[..|second| - 1]);
    }
  }

  lemma HandleOneMore(s: Join, events: seq<Event>, e: Event)
    ensures HandleAll(s, events + [e]) == Handle(HandleAll(s, events), e)
  {
    assert (events + [e])[..|events|] == events;
  }

  // ---- the master's state

  function SideOf(c: MasterCall): Side {
    match c case ResolveWith(_) => Done case RejectWith(_) => Fail case NotifyWith(_) => Progress
  }

  // The calls as moves of a Deferred, the arguments of call number k being value k.
  ghost function AsMoves(calls: seq<MasterCall>): seq<Move> {
    seq(|calls|, k requires 0 <= k < |calls| => Settle(SideOf(calls[k]), k))
  }

  // The moves that settle or notify; the others are registrations on the master's promise
  // and returns of its callbacks.
  ghost function Settling(moves: seq<Move>): seq<Move> {
    if moves == [] then []
    else if moves[0].Settle? then [moves[0]] + Settling(moves[1..])
    else Settling(moves[1..])
  }

  lemma FirstOfSettling(moves: seq<Move>)
    ensures DeferredRuns.FirstSettle(moves) == DeferredRuns.FirstSettle(Settling(moves))
  {
    if moves != [] {
      FirstOfSettling(moves[1..]);
      if moves[0].Settle? {
        assert Settling(moves)[1..] == Settling(moves[1..]);
      }
    }
  }

  lemma FirstSettleAppend(moves: seq<Move>, m: Move)
    ensures DeferredRuns.FirstSettle(moves + [m]) ==
            if DeferredRuns.FirstSettle(moves).Some? then DeferredRuns.FirstSettle(moves)
            else if m.Settle? && m.side != Progress then Some((m.side, m.v)) else None
  {
    if moves != [] {
      assert (moves + [m])[1..] == moves[1..] + [m];
      FirstSettleAppend(moves[1..], m);
    }
  }

  lemma NoMovesNoSettle()
    ensures DeferredRuns.FirstSettle(AsMoves([])) == None
  {
  }

  lemma VerdictIsFirst(calls: seq<MasterCall>)
    ensures var first := DeferredRuns.FirstSettle(AsMoves(calls));
            if first.None? then Verdict(calls) == None
            else
              && 0 <= first.value.1 < |calls|
              && Verdict(calls) == Some(calls[first.value.1])
              && first.value.0 == SideOf(calls[first.value.1])
  {
    hide DeferredRuns.FirstSettle;
    if calls == [] {
      NoMovesNoSettle();
    } else {
      var front := calls[..|calls| - 1];
      VerdictIsFirst(front);
      assert AsMoves(calls) == AsMoves(front) + [Settle(SideOf(calls[|calls| - 1]), |calls| - 1)];
      FirstSettleAppend(AsMoves(front), Settle(SideOf(calls[|calls| - 1]), |calls| - 1));
    }
  }

  // The callbacks of this list that have been called were called in registration order with
  // the arguments of the given call.
  ghost predicate CalledWith(list: CallbackMachine.State, calls: seq<MasterCall>, call: MasterCall) {
    exists k :: 0 <= k < |calls| && calls[k] == call
      && CallbackMachine.AllCalls(list.passes) <= CallbackMachine.CallsOf(list.registered, k)
  }

  // For every interleaving of the join's calls with what users do to the master's promise:
  // the master resolves iff no input rejects and all deferred inputs resolve, and then its
  // done callbacks get the values in argument order; it rejects iff some input rejects,
  // and then its fail callbacks get the first rejection's arguments.
  lemma MasterFollowsJoin(inputs: seq<Input>, later: seq<Event>, moves: seq<Move>)
    requires Possible(inputs, later)
    requires Settling(moves) == AsMoves(HandleAll(Begin(inputs), History(inputs, later)).calls)
    ensures var h := History(inputs, later);
            var s := HandleAll(Begin(inputs), h);
            var w := PlayAll(Start(), moves);
            && (w.status == Resolved <==> FirstReject(h).None? && Accounted(h) == Range(|inputs|))
            && (w.status == Rejected <==> FirstReject(h).Some?)
            && (w.status == Resolved ==> CalledWith(w.done, s.calls, ResolveWith(s.args)))
            && (w.status == Rejected ==> CalledWith(w.fail, s.calls, RejectWith(FirstReject(h).value)))
  {
    JoinIsCorrect(inputs, later);
    FirstOfSettling(moves);
    VerdictIsFirst(HandleAll(Begin(inputs), History(inputs, later)).calls);
    DeferredRuns.SettlesOnce(moves);
    hide History, HandleAll, Accounted, FirstReject, Verdict, PlayAll, Begin, AsMoves, Settling;
  }
}
