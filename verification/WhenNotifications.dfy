/** The array that the join hands to notifyWith: the master's callbacks get a reference to it, and
    later notifications overwrite it whether they are delivered or not. Here the join, the master
    and what users do to the master's promise are taken together. */
module WhenNotifications {
  import opened Options
  import opened CallbackMachine
  import opened CallbackPasses
  import opened Deferred
  import opened DeferredRuns
  import opened ProgressRuns
  import opened WhenJoin
  import opened WhenMaster

  // ---- the array itself

  ghost function LastNote(events: seq<Event>, i: nat): Option<Slot> {
    if events == [] then None
    else
      var e := events[|events| - 1];
      if e.Notify? && e.i == i then Some(Pack(e.values)) else LastNote(events[..|events| - 1], i)
  }

  lemma {:induction false} LaterNotes(s: Join, more: seq<Event>, i: nat)
    requires i < |s.pValues|
    ensures |HandleAll(s, more).pValues| == |s.pValues|
    ensures HandleAll(s, more).pValues[i] == if LastNote(more, i).Some? then LastNote(more, i).value else s.pValues[i]
  {
    if more != [] {
      LaterNotes(s, more[..|more| - 1], i);
    }
  }

  // Later notifications leave the array as it is if and only if every input's last one, if any,
  // is what it holds already.
  lemma RememberedArray(s: Join, more: seq<Event>)
    ensures HandleAll(s, more).pValues == s.pValues <==>
            forall i :: 0 <= i < |s.pValues| && LastNote(more, i).Some? ==> LastNote(more, i).value == s.pValues[i]
  {
    var t := HandleAll(s, more);
    if s.pValues == [] {
      LaterNotesEmpty(s, more);
    } else {
      LaterNotes(s, more, 0);
    }
    forall i | 0 <= i < |s.pValues|
      ensures t.pValues[i] == if LastNote(more, i).Some? then LastNote(more, i).value else s.pValues[i]
    {
      LaterNotes(s, more, i);
    }
  }

  lemma LaterNotesEmpty(s: Join, more: seq<Event>)
    requires s.pValues == []
    ensures HandleAll(s, more).pValues == []
  {
    if more != [] {
      LaterNotesEmpty(s, more[..|more| - 1]);
    }
  }


  // ---- the join and its master together

  ghost function Joined(inputs: seq<Input>, later: seq<WhenJoin.Event>): Join {
    HandleAll(Begin(inputs), History(inputs, later))
  }

  // The moves settle and notify the master as the join calls it, with any registrations and
  // returns in between.
  ghost predicate Together(inputs: seq<Input>, later: seq<WhenJoin.Event>, moves: seq<Move>) {
    Possible(inputs, later) && WhenMaster.Settling(moves) == AsMoves(Joined(inputs, later).calls)
  }

  ghost function Master(moves: seq<Move>): World {
    PlayAll(Start(), moves)
  }

  lemma {:induction false} NotifiedIsSettling(moves: seq<Move>)
    ensures Notified(moves) == Notified(WhenMaster.Settling(moves))
    decreases |moves|
  {
    if moves != [] {
      NotifiedIsSettling(moves[1..]);
      if moves[0].Settle? {
        assert WhenMaster.Settling(moves)[1..] == WhenMaster.Settling(moves[1..]);
      }
    }
  }

  ghost predicate Counting(numbers: seq<Value>, calls: seq<MasterCall>, n: nat) {
    forall j :: 0 <= j < |numbers| ==> numbers[j] == n + j < |calls| && calls[n + j].NotifyWith?
  }

  // Before the master is settled every call notifies, so the numbers run from zero.
  lemma {:induction false} NotifiedNumbers(calls: seq<MasterCall>, n: nat)
    requires n <= |calls|
    ensures Counting(Notified(AsMoves(calls)[n..]), calls, n)
    decreases |calls| - n
  {
    var moves := AsMoves(calls);
    if n < |calls| {
      NotifiedNumbers(calls, n + 1);
      assert moves[n..][1..] == moves[n + 1..] && moves[n..][0] == moves[n];
      var more := Notified(moves[n + 1..]);
      if calls[n].NotifyWith? {
        assert Notified(moves[n..]) == [n] + more;
        forall j | 0 <= j < |[n] + more| ensures ([n] + more)[j] == n + j < |calls| && calls[n + j].NotifyWith? {
          if j > 0 {
            assert more[j - 1] == n + 1 + (j - 1) < |calls| && calls[n + 1 + (j - 1)].NotifyWith?;
          }
        }
      }
    }
  }

  // A call that was delivered is a notification of the join.
  lemma PassIsNotification(inputs: seq<Input>, later: seq<WhenJoin.Event>, moves: seq<Move>)
    requires Together(inputs, later, moves) && Master(moves).progress.passes != []
    ensures var k, calls := Last(Master(moves).progress).v, Joined(inputs, later).calls;
            && 0 <= k < |calls| && calls[k].NotifyWith?
            && FiredValues(Master(moves).progress.passes) != []
            && k == FiredValues(Master(moves).progress.passes)[|FiredValues(Master(moves).progress.passes)| - 1]
  {
    hide FiredValues, PlayAll, HandleAll, History, Possible;
    var calls := Joined(inputs, later).calls;
    DeliveredIsNotified(moves);
    NotifiedIsSettling(moves);
    NotifiedNumbers(calls, 0);
    assert AsMoves(calls)[0..] == AsMoves(calls);
    var delivered := FiredValues(Master(moves).progress.passes);
    assert delivered[|delivered| - 1] == Notified(moves)[|delivered| - 1];
  }

  // ---- where a call was made

  lemma HandleCallsOnce(s: Join, e: WhenJoin.Event)
    ensures var t := Handle(s, e);
            && |s.calls| <= |t.calls| <= |s.calls| + 1 && t.calls[..|s.calls|] == s.calls
            && (|t.calls| > |s.calls| && t.calls[|s.calls|].NotifyWith? ==> t.calls[|s.calls|].slots == t.pValues)
  {
  }

  // The number of events up to the one that made call k.
  ghost function MadeBy(s: Join, events: seq<WhenJoin.Event>, k: nat): (e: nat)
    ensures e <= |events|
  {
    if events == [] then 0
    else if k < |HandleAll(s, events[..|events| - 1]).calls| then MadeBy(s, events[..|events| - 1], k)
    else |events|
  }

  lemma {:induction false} MadeThere(s: Join, events: seq<WhenJoin.Event>, k: nat)
    requires s.calls == [] && k < |HandleAll(s, events).calls|
    ensures var t, now := HandleAll(s, events[..MadeBy(s, events, k)]), HandleAll(s, events);
            && t.calls == now.calls[..k + 1]
            && (now.calls[k].NotifyWith? ==> now.calls[k].slots == t.pValues)
    decreases |events|
  {
    var n := |events| - 1;
    assert events != [];
    var before := HandleAll(s, events[..n]);
    HandleCallsOnce(before, events[n]);
    hide Handle;
    if k < |before.calls| {
      MadeThere(s, events[..n], k);
      var e := MadeBy(s, events[..n], k);
      assert events[..n][..e] == events[..e];
      assert HandleAll(s, events).calls[..k + 1] == before.calls[..k + 1];
      assert HandleAll(s, events).calls[k] == before.calls[k];
    } else {
      assert events[..|events|] == events;
      assert HandleAll(s, events).calls[..k + 1] == HandleAll(s, events).calls;
    }
  }

  // No input's last notification since call k differs from what it delivered.
  ghost predicate StillShown(inputs: seq<Input>, later: seq<WhenJoin.Event>, k: nat)
    requires k < |Joined(inputs, later).calls| && Joined(inputs, later).calls[k].NotifyWith?
  {
    var h, slots := History(inputs, later), Joined(inputs, later).calls[k].slots;
    var since := h[MadeBy(Begin(inputs), h, k)..];
    forall i :: 0 <= i < |slots| && LastNote(since, i).Some? ==> LastNote(since, i).value == slots[i]
  }

  lemma ArrayShows(inputs: seq<Input>, later: seq<WhenJoin.Event>, k: nat)
    requires k < |Joined(inputs, later).calls| && Joined(inputs, later).calls[k].NotifyWith?
    ensures var s := Joined(inputs, later); s.pValues == s.calls[k].slots <==> StillShown(inputs, later, k)
  {
    hide HandleAll, History, LastNote;
    var s0, h := Begin(inputs), History(inputs, later);
    var e := MadeBy(s0, h, k);
    MadeThere(s0, h, k);
    HandleAppend(s0, h[..e], h[e..]);
    assert h == h[..e] + h[e..];
    RememberedArray(HandleAll(s0, h[..e]), h[e..]);
  }

  // ---- what progress callbacks see

  // At any time the newest pass of the master's progress callbacks is for some notifying call of
  // the join. A callback that it calls is handed the array as it is by then, which holds what was
  // delivered by that call if and only if no input has notified of anything else since.
  lemma ShownToCallbacks(inputs: seq<Input>, later: seq<WhenJoin.Event>, moves: seq<Move>)
    requires Together(inputs, later, moves) && Master(moves).progress.passes != []
    ensures var k, s := Last(Master(moves).progress).v, Joined(inputs, later);
            && 0 <= k < |s.calls| && s.calls[k].NotifyWith?
            && (s.pValues == s.calls[k].slots <==> StillShown(inputs, later, k))
  {
    hide Joined, StillShown, PlayAll;
    PassIsNotification(inputs, later, moves);
    ArrayShows(inputs, later, Last(Master(moves).progress).v);
  }

  // A callback registered after the master was settled is not called if nothing was delivered.
  // Otherwise it is in the pass now running, for the last call delivered, with the array as it
  // is: what was last delivered if and only if no input has notified of anything else since.
  lemma LateCallbackSees(inputs: seq<Input>, later: seq<WhenJoin.Event>, moves: seq<Move>, fns: seq<nat>)
    requires Together(inputs, later, moves) && FirstSettle(moves).Some? && fns != []
    ensures var w, s := Master(moves), Joined(inputs, later);
            var t := Play(w, Register(Progress, fns)).progress;
            if FiredValues(w.progress.passes) == [] then t == w.progress
            else
              && GetsLastNotified(w.progress, t, fns) && t.firing && t.passes != []
              && var k := Last(t).v;
                 && 0 <= k < |s.calls| && s.calls[k].NotifyWith?
                 && (s.pValues == s.calls[k].slots <==> StillShown(inputs, later, k))
  {
    hide Joined, StillShown, PlayAll, FiredValues, Play;
    LateProgress(moves, fns);
    var w := Master(moves);
    if FiredValues(w.progress.passes) != [] {
      NothingFired();
      ShownToCallbacks(inputs, later, moves);
      PassIsNotification(inputs, later, moves);
    }
  }

  lemma NothingFired()
    ensures FiredValues([]) == []
  {
  }

  // ---- a notification from inside a progress callback

  lemma SettlingAppend(moves: seq<Move>, m: Move)
    ensures WhenMaster.Settling(moves + [m]) == WhenMaster.Settling(moves) + if m.Settle? then [m] else []
  {
    if moves == [] {
      assert [] + [m] == [m] && [m][1..] == [];
    } else {
      assert (moves + [m])[1..] == moves[1..] + [m];
      SettlingAppend(moves[1..], m);
    }
  }

  lemma {:induction false} PlayOneMore(w: World, moves: seq<Move>, m: Move)
    ensures PlayAll(w, moves + [m]) == Play(PlayAll(w, moves), m)
    decreases |moves|
  {
    hide Play;
    if moves == [] {
      assert [] + [m] == [m] && [m][1..] == [];
    } else {
      assert (moves + [m])[0] == moves[0] && (moves + [m])[1..] == moves[1..] + [m];
      PlayOneMore(Play(w, moves[0]), moves[1..], m);
    }
  }

  // The master and the join after an input notifies of more values.
  ghost predicate Noted(inputs: seq<Input>, later: seq<WhenJoin.Event>, moves: seq<Move>, i: nat, values: seq<int>) {
    var s, t := Joined(inputs, later), Joined(inputs, later + [Notify(i, values)]);
    && Together(inputs, later + [Notify(i, values)], moves + [Settle(Progress, |s.calls|)])
    && i < |s.pValues| && t.pValues == s.pValues[i := Pack(values)]
  }

  lemma NotePossible(inputs: seq<Input>, later: seq<WhenJoin.Event>, i: nat, values: seq<int>)
    requires Possible(inputs, later) && i < |inputs| && inputs[i].Promise?
    ensures Possible(inputs, later + [Notify(i, values)])
  {
  }

  lemma NoteHandled(inputs: seq<Input>, later: seq<WhenJoin.Event>, i: nat, values: seq<int>)
    requires Possible(inputs, later) && i < |inputs|
    ensures var s, t := Joined(inputs, later), Joined(inputs, later + [Notify(i, values)]);
            && i < |s.pValues| && t.pValues == s.pValues[i := Pack(values)]
            && t.calls == s.calls + [NotifyWith(t.pValues)]
  {
    var note := Notify(i, values);
    assert History(inputs, later + [note]) == History(inputs, later) + [note];
    HistoryWellFormed(inputs, later);
    CountsAll(inputs, History(inputs, later));
    hide History, HandleAll, Possible, WellFormed;
    HandleOneMore(Begin(inputs), History(inputs, later), note);
  }

  lemma InputNotifies(inputs: seq<Input>, later: seq<WhenJoin.Event>, moves: seq<Move>, i: nat, values: seq<int>)
    requires Together(inputs, later, moves) && i < |inputs| && inputs[i].Promise?
    ensures Noted(inputs, later, moves, i, values)
  {
    NotePossible(inputs, later, i, values);
    NoteHandled(inputs, later, i, values);
    hide Joined, Possible, WhenMaster.Settling;
    var s, t := Joined(inputs, later), Joined(inputs, later + [Notify(i, values)]);
    var m := Settle(Progress, |s.calls|);
    SettlingAppend(moves, m);
    assert AsMoves(t.calls) == AsMoves(s.calls) + [m];
  }

  // A callback that runs in a pass for call k has an input notify of more values, and returns:
  // the next callback of the same pass is called, still for call k, but with the array that the
  // notification has overwritten.
  lemma NestedNoteOverwrites(inputs: seq<Input>, later: seq<WhenJoin.Event>, moves: seq<Move>, i: nat, values: seq<int>)
    requires Together(inputs, later, moves) && i < |inputs| && inputs[i].Promise?
    requires var w := Master(moves);
             && w.control != [] && w.control[0] == Progress
             && w.progress.list.Some? && 0 <= w.progress.firingIndex + 1 < |w.progress.list.value|
    ensures var s, p := Joined(inputs, later), Master(moves).progress;
            var later', moves' := later + [Notify(i, values)], moves + [Settle(Progress, |s.calls|), Leave(false)];
            var t, q := Joined(inputs, later'), Master(moves').progress;
            && Together(inputs, later', moves') && i < |s.pValues| && t.pValues == s.pValues[i := Pack(values)]
            && p.passes != [] && q.passes != [] && Last(q).v == Last(p).v
            && Last(q).calls == Last(p).calls + [Call(p.list.value[p.firingIndex + 1].id, Last(p).v)]
  {
    InputNotifies(inputs, later, moves, i, values);
    var number := |Joined(inputs, later).calls|;
    NextIsCalled(moves, number);
    var middle := moves + [Settle(Progress, number)];
    assert moves + [Settle(Progress, number), Leave(false)] == middle + [Leave(false)];
    SettlingAppend(middle, Leave(false));
    hide Joined, Possible, PlayAll, AsMoves, WhenMaster.Settling;
    var settled := WhenMaster.Settling(middle);
    assert settled + [] == settled;
  }

  lemma NoteIsQueued(w: World, number: nat)
    requires w.control != [] && w.control[0] == Progress && w.progress.firing
    ensures Play(w, Settle(Progress, number)) == w.(progress := FireStep(REPEATED, w.progress, number))
  {
  }

  lemma NextInWorld(w: World, number: nat)
    requires DeferredInv(w) && w.control != [] && w.control[0] == Progress
    requires w.progress.list.Some? && 0 <= w.progress.firingIndex + 1 < |w.progress.list.value|
    ensures var p, q := w.progress, Play(Play(w, Settle(Progress, number)), Leave(false)).progress;
            && p.passes != [] && q.passes != [] && Last(q).v == Last(p).v
            && Last(q).calls == Last(p).calls + [Call(p.list.value[p.firingIndex + 1].id, Last(p).v)]
  {
    hide DeferredInv, Play, ReturnStep;
    InnermostFires(w);
    ProgressRunning(w);
    NoteIsQueued(w, number);
    MoveInv(w, Settle(Progress, number));
    MoveInv(Play(w, Settle(Progress, number)), Leave(false));
    NextInPass(FireStep(REPEATED, w.progress, number));
  }

  lemma NextIsCalled(moves: seq<Move>, number: nat)
    requires var w := Master(moves);
             && w.control != [] && w.control[0] == Progress
             && w.progress.list.Some? && 0 <= w.progress.firingIndex + 1 < |w.progress.list.value|
    ensures var p, q := Master(moves).progress, Master(moves + [Settle(Progress, number)] + [Leave(false)]).progress;
            && p.passes != [] && q.passes != [] && Last(q).v == Last(p).v
            && Last(q).calls == Last(p).calls + [Call(p.list.value[p.firingIndex + 1].id, Last(p).v)]
  {
    hide DeferredInv, PlayAll, Play;
    MasterKeeps(moves);
    NextInWorld(Master(moves), number);
    PlayOneMore(Start(), moves, Settle(Progress, number));
    PlayOneMore(Start(), moves + [Settle(Progress, number)], Leave(false));
  }

  lemma NextInPass(s: State)
    requires s.list.Some? && s.passes != [] && s.firingLength == |s.list.value|
    requires 0 <= s.firingIndex + 1 < |s.list.value|
    ensures var t := ReturnStep(REPEATED, s, false);
            && t.passes != [] && Last(t).v == Last(s).v
            && Last(t).calls == Last(s).calls + [Call(s.list.value[s.firingIndex + 1].id, Last(s).v)]
  {
    assert AtCall(s.(firingIndex := s.firingIndex + 1));
  }

  lemma MasterKeeps(moves: seq<Move>)
    ensures DeferredInv(Master(moves))
  {
    StartInv();
    StartsPending();
    hide DeferredInv, PlayAll;
    SettlesByFirst(Start(), moves);
  }

  lemma ProgressRunning(w: World)
    requires DeferredInv(w) && w.progress.firing
    ensures w.progress.passes != [] && (w.progress.list.Some? ==> w.progress.firingLength == |w.progress.list.value|)
  {
  }

  // ---- where it shows

  // [undefined, 4] was delivered, the join was rejected, and a later notification, which is not
  // delivered, leaves [undefined, 5] in the array. A callback registered after all this is
  // called for the first notification, with the array as it is.
  lemma RememberedArrayCanChange()
    ensures var p := Promise(Unsettled, None);
            var later := [Notify(1, [4]), Reject(0, [9]), Notify(1, [5])];
            var moves := [Settle(Progress, 0), Settle(Fail, 1), Settle(Progress, 2)];
            var s, t := Joined([p, p], later), Play(Master(moves), Register(Progress, [0])).progress;
            && Together([p, p], later, moves) && Master(moves).status == Rejected
            && t.firing && t.passes != [] && Last(t).v == 0
            && s.calls[0] == NotifyWith([Undefined, Given(4)]) && s.pValues == [Undefined, Given(5)]
  {
    var p := Promise(Unsettled, None);
    var later := [Notify(1, [4]), Reject(0, [9]), Notify(1, [5])];
    var moves := [Settle(Progress, 0), Settle(Fail, 1), Settle(Progress, 2)];
    ThreeCalls();
    SettlingOfThree();
    hide Joined, Play, PlayAll, FiredValues;
    assert Together([p, p], later, moves);
    FirstDelivered();
    SettlesOnce(moves);
    assert FirstSettle(moves) == Some((Fail, 1)) by { FirstOfThree(); }
    LateCallbackSees([p, p], later, moves, [0]);
  }

  lemma ThreeCalls()
    ensures var p := Promise(Unsettled, None);
            var later := [Notify(1, [4]), Reject(0, [9]), Notify(1, [5])];
            var s := Joined([p, p], later);
            && Possible([p, p], later)
            && s.calls == [NotifyWith([Undefined, Given(4)]), RejectWith([9]), NotifyWith([Undefined, Given(5)])]
            && s.pValues == [Undefined, Given(5)]
  {
    var p := Promise(Unsettled, None);
    var e1, e2, e3 := Notify(1, [4]), Reject(0, [9]), Notify(1, [5]);
    TwoCalls(e1, e2);
    assert [e1, e2] + [e3] == [e1, e2, e3];
    NoteHandled([p, p], [e1, e2], 1, [5]);
    hide Joined;
    assert [Undefined, Given(4)][1 := Given(5)] == [Undefined, Given(5)];
  }

  lemma TwoPending(inputs: seq<Input>, events: seq<WhenJoin.Event>)
    requires inputs == [Promise(Unsettled, None), Promise(Unsettled, None)]
    ensures History(inputs, events) == [EndOfLoop] + events
    ensures HandleAll(Begin(inputs), [EndOfLoop]) == Begin(inputs)
  {
    assert InLoop(inputs, 0) == [] && InLoop(inputs, 1) == [] && InLoop(inputs, 2) == [];
    HandleOneMore(Begin(inputs), [], EndOfLoop);
    assert [] + [EndOfLoop] == [EndOfLoop];
  }

  lemma TwoCalls(e1: WhenJoin.Event, e2: WhenJoin.Event)
    requires e1 == Notify(1, [4]) && e2 == Reject(0, [9])
    ensures var p := Promise(Unsettled, None);
            var s := Joined([p, p], [e1, e2]);
            && Possible([p, p], [e1, e2])
            && s.calls == [NotifyWith([Undefined, Given(4)]), RejectWith([9])] && s.pValues == [Undefined, Given(4)]
  {
    hide HandleAll, History, InLoop;
    var p := Promise(Unsettled, None);
    var inputs := [p, p];
    var e0 := EndOfLoop;
    var none, four := [Undefined, Undefined], [Undefined, Given(4)];
    var s := Begin(inputs);
    assert s == Join([Promised, Promised], none, 2, []);
    TwoPending(inputs, [e1, e2]);
    assert [e0] + [e1, e2] == [e0] + [e1] + [e2];
    HandleOneMore(s, [e0], e1);
    HandleOneMore(s, [e0] + [e1], e2);
    assert none[1 := Given(4)] == four;
    assert [] + [NotifyWith(four)] + [RejectWith([9])] == [NotifyWith(four), RejectWith([9])];
  }

  lemma SettlingOfThree()
    ensures var moves := [Settle(Progress, 0), Settle(Fail, 1), Settle(Progress, 2)];
            && WhenMaster.Settling(moves) == moves
            && AsMoves([NotifyWith([Undefined, Given(4)]), RejectWith([9]), NotifyWith([Undefined, Given(5)])]) == moves
  {
    var m0, m1, m2 := Settle(Progress, 0), Settle(Fail, 1), Settle(Progress, 2);
    SettlingAppend([], m0);
    SettlingAppend([] + [m0], m1);
    SettlingAppend([] + [m0] + [m1], m2);
    assert [] + [m0] + [m1] + [m2] == [m0, m1, m2];
  }

  lemma FirstOfThree()
    ensures FirstSettle([Settle(Progress, 0), Settle(Fail, 1), Settle(Progress, 2)]) == Some((Fail, 1))
  {
    assert [Settle(Progress, 0), Settle(Fail, 1), Settle(Progress, 2)][1..] == [Settle(Fail, 1), Settle(Progress, 2)];
  }

  // The first notification of that run was delivered, and no other.
  lemma FirstDelivered()
    ensures FiredValues(Master([Settle(Progress, 0), Settle(Fail, 1), Settle(Progress, 2)]).progress.passes) == [0]
  {
    hide DeferredInv, Play, FiredValues, Advance, Inv, FireStep, LockStep;
    var m0, m1, m2 := Settle(Progress, 0), Settle(Fail, 1), Settle(Progress, 2);
    PlayOneMore(Start(), [], m0);
    PlayOneMore(Start(), [m0], m1);
    PlayOneMore(Start(), [m0, m1], m2);
    assert [] + [m0] == [m0] && [m0] + [m1] == [m0, m1] && [m0, m1] + [m2] == [m0, m1, m2];
    StartInv();
    StartsPending();
    var w0, w1, w2 := Start(), Play(Start(), m0), Play(Play(Start(), m0), m1);
    MoveInv(w0, m0);
    MoveInv(w1, m1);
    MoveInv(w2, m2);
    EmptyPass(0);
    LockKeepsFired(w1.progress);
  }

  lemma EmptyPass(v: Value)
    ensures FiredValues(FireStep(REPEATED, Initial, v).passes) == [v]
  {
    var s := Initial.(accepted := [] + [v]);
    var t := Prepare(REPEATED, s, v, ByFire);
    var p := Pass(ByFire, v, [], {}, [], Running);
    assert t.passes == [] + [p] == [p] && Last(t) == p;
    var u := Close(t, Completed);
    assert u.passes == [p.(ending := Completed)];
    assert !AtCall(t) && t.list == Some([]) && t.stack == Some([]);
    assert Advance(REPEATED, t) == Finish(REPEATED, t, Completed) == u;
    assert FireStep(REPEATED, Initial, v) == Enter(REPEATED, s, v, ByFire);
    assert u.passes[..0] == [];
  }

  lemma LockKeepsFired(s: State)
    ensures LockStep(s).passes == s.passes
  {
  }
}
