/** The object jQuery.Callbacks returns, with its closure variables as fields and its loops
    as loops, proved to do what the machine in CallbackMachine does.

    A user callback is a call back into this object. What the callbacks of a run choose to
    do is the field `script`, consumed action by action: a callback runs until the next
    Return in it, and a script that ends inside a callback is a run observed up to that
    moment (the methods then report cut and leave everything as it is). Since the machine's
    theorems hold for every sequence of actions, they hold for this object under all
    callbacks. */
module CallbackObject {
  import opened Options
  import opened CallbackMachine
  import opened RegistrationLists
  import opened CallbackPasses

  lemma RunStep(f: Flags, s: State, actions: seq<Action>)
    requires actions != []
    ensures Run(f, s, actions) == Run(f, Step(f, s, actions[0]), actions[1..])
  {
  }

  lemma RunNothing(f: Flags, s: State)
    ensures Run(f, s, []) == s
  {
  }

  lemma RemoveStepOnce(s: State, fns: seq<Fn>, i: nat)
    requires s.list.Some? && i < |fns|
    ensures RemoveStep(s, fns[i..]) == RemoveStep(RemoveOne(s, fns[i]), fns[i + 1..])
  {
    assert fns[i..][1..] == fns[i + 1..];
  }

  lemma RemoveNothing(s: State)
    ensures RemoveStep(s, []) == s
  {
  }

  lemma RemoveNowhere(s: State, fns: seq<Fn>)
    requires s.list.None?
    ensures RemoveStep(s, fns) == s
  {
  }

  lemma HeadFacts(f: Flags, s: State)
    requires AtHead(f, s)
    ensures s.passes != [] && s.firing
  {
  }

  lemma LeavingFacts(f: Flags, s: State, ending: Ending)
    requires Leaving(f, s, ending)
    ensures s.passes != []
  {
  }

  lemma FreshAppend(list: seq<Entry>, xs: seq<Fn>, ys: seq<Fn>, unique: bool, next: nat)
    ensures Fresh(list, xs + ys, unique, next) ==
            Fresh(list, xs, unique, next) +
            Fresh(list + Fresh(list, xs, unique, next), ys, unique, next + |Fresh(list, xs, unique, next)|)
    decreases |xs|
  {
    hide Fresh, Has;
    if xs == [] {
      FreshNone(list, unique, next);
      assert xs + ys == ys;
      assert list + [] == list;
    } else {
      FreshStep(list, xs, unique, next);
      FreshStep(list, xs + ys, unique, next);
      assert (xs + ys)[1..] == xs[1..] + ys;
      if unique && Has(list, xs[0]) {
        FreshAppend(list, xs[1..], ys, unique, next);
      } else {
        var e := Entry(xs[0], next);
        FreshAppend(list + [e], xs[1..], ys, unique, next + 1);
        var rest := Fresh(list + [e], xs[1..], unique, next + 1);
        assert list + ([e] + rest) == list + [e] + rest;
      }
    }
  }

  lemma FlattenAppend(xs: seq<Arg>, ys: seq<Arg>)
    ensures Flatten(xs + ys) == Flatten(xs) + Flatten(ys)
    decreases |xs|
  {
    if xs == [] {
      assert xs + ys == ys;
    } else {
      assert (xs + ys)[1..] == xs[1..] + ys;
      FlattenAppend(xs[1..], ys);
    }
  }

  lemma FlattenOne(a: Arg)
    ensures Flatten([a]) == ItemOf(a)
  {
    assert Flatten([a][1..]) == [];
  }

  ghost function ItemOf(a: Arg): seq<Fn> {
    match a case Func(fn) => [fn] case Nested(items) => Flatten(items) case NotCallable => []
  }

  // Adding fns to list0, of which registered0 registrations were made, gives list.
  ghost predicate Added(unique: bool, list0: seq<Entry>, registered0: seq<Entry>, fns: seq<Fn>,
                        list: seq<Entry>, registered: seq<Entry>)
  {
    var added := Fresh(list0, fns, unique, |registered0|);
    list == list0 + added && registered == registered0 + added
  }

  lemma AddedNothing(unique: bool, list: seq<Entry>, registered: seq<Entry>)
    ensures Added(unique, list, registered, Flatten([]), list, registered)
    ensures Added(unique, list, registered, [], list, registered)
  {
  }

  lemma AddedThen(unique: bool, list0: seq<Entry>, registered0: seq<Entry>, args: seq<Arg>, i: nat,
                  list1: seq<Entry>, registered1: seq<Entry>, list2: seq<Entry>, registered2: seq<Entry>)
    requires i < |args|
    requires Added(unique, list0, registered0, Flatten(args[..i]), list1, registered1)
    requires Added(unique, list1, registered1, ItemOf(args[i]), list2, registered2)
    ensures Added(unique, list0, registered0, Flatten(args[..i + 1]), list2, registered2)
  {
    hide Flatten, Fresh;
    assert args[..i + 1] == args[..i] + [args[i]];
    FlattenAppend(args[..i], [args[i]]);
    FlattenOne(args[i]);
    FreshAppend(list0, Flatten(args[..i]), ItemOf(args[i]), unique, |registered0|);
  }

  // How many of the first n entries are registrations of fn.
  ghost function RemovedBefore(list: seq<Entry>, fn: Fn, n: int): int
    requires 0 <= n <= |list|
  {
    n - |Without(list[..n], fn)|
  }

  lemma WithoutStep(list: seq<Entry>, fn: Fn, j: nat)
    requires j < |list|
    ensures Without(list[..j + 1], fn) == Without(list[..j], fn) + if list[j].fn == fn then [] else [list[j]]
    ensures list[j..] == [list[j]] + list[j + 1..]
  {
    assert list[..j + 1][..j] == list[..j];
  }

  // How far back the index at of `fire` has moved once the first j entries are examined.
  ghost function RemovedUpTo(list: seq<Entry>, fn: Fn, j: nat, at: int): int
    requires j <= |list| && -1 <= at < |list|
  {
    RemovedBefore(list, fn, if j <= at + 1 then j else at + 1)
  }

  // Having examined the first j entries of before, i of them are kept; the index of `fire`
  // was at and is now index.
  ghost predicate Scanned(before: seq<Entry>, fn: Fn, at: int, j: nat, i: nat, list: seq<Entry>, index: int) {
    && j <= |before|
    && i == |Without(before[..j], fn)|
    && list == Without(before[..j], fn) + before[j..]
    && (-1 <= at < |before| ==> index == at - RemovedUpTo(before, fn, j, at))
  }

  lemma ScanStart(before: seq<Entry>, fn: Fn, at: int)
    ensures Scanned(before, fn, at, 0, 0, before, at)
  {
    assert before[..0] == [] && [] + before[0..] == before;
  }

  lemma ScanStep(before: seq<Entry>, fn: Fn, at: int, j: nat, i: nat, list: seq<Entry>, index: int)
    requires Scanned(before, fn, at, j, i, list, index) && i < |list|
    ensures j < |before| && |list| == i + |before| - j && list[i] == before[j]
    ensures list[i].fn != fn ==> Scanned(before, fn, at, j + 1, i + 1, list, index)
    ensures list[i].fn == fn ==>
              Scanned(before, fn, at, j + 1, i, list[..i] + list[i + 1..], if i <= index then index - 1 else index)
    ensures |list| <= |before|
  {
    WithoutMembers(before[..j], fn);
    WithoutStep(before, fn, j);
    hide Without;
    if -1 <= at < |before| {
      RemovalStep(before, fn, j, at);
    }
    assert list[i].fn == fn ==> list[..i] + list[i + 1..] == Without(before[..j], fn) + before[j + 1..];
    assert list[i].fn != fn ==> list == Without(before[..j], fn) + [before[j]] + before[j + 1..];
  }

  lemma ScanEnd(before: seq<Entry>, fn: Fn, at: int, j: nat, i: nat, list: seq<Entry>, index: int)
    requires Scanned(before, fn, at, j, i, list, index) && i == |list|
    ensures list == Without(before, fn)
    ensures -1 <= at < |before| ==> index == at - RemovedBefore(before, fn, at + 1)
  {
    assert j == |before| && before[..j] == before;
  }

  // In a list without duplicates the scan may stop at the first occurrence.
  lemma ScanUnique(before: seq<Entry>, fn: Fn, at: int, j: nat, i: nat, list: seq<Entry>, index: int)
    requires Scanned(before, fn, at, j, i, list, index)
    requires DistinctFns(before) && 0 < j && before[j - 1].fn == fn
    ensures list == Without(before, fn)
    ensures -1 <= at < |before| ==> index == at - RemovedBefore(before, fn, at + 1)
  {
    NoneAfter(before, fn, j);
    hide Without, DistinctFns, Has;
    if j < at + 1 <= |before| {
      NoneBetween(before, fn, j, at + 1);
    }
  }

  lemma NoneAfter(list: seq<Entry>, fn: Fn, j: nat)
    requires DistinctFns(list) && 0 < j <= |list| && list[j - 1].fn == fn
    ensures !Has(list[j..], fn)
    ensures Without(list, fn) == Without(list[..j], fn) + list[j..]
  {
    assert !Has(list[j..], fn);
    hide Without, DistinctFns, Has;
    assert list == list[..j] + list[j..];
    WithoutAppend(list[..j], list[j..], fn);
    WithoutAbsent(list[j..], fn);
  }

  lemma NoneBetween(list: seq<Entry>, fn: Fn, j: nat, n: nat)
    requires j <= n <= |list| && !Has(list[j..], fn)
    ensures RemovedBefore(list, fn, n) == RemovedBefore(list, fn, j)
  {
    hide Without;
    assert !Has(list[j..n], fn) by {
      assert forall i :: 0 <= i < n - j ==> list[j..n][i] == list[j..][i];
    }
    hide Has;
    assert list[..n] == list[..j] + list[j..n];
    WithoutAppend(list[..j], list[j..n], fn);
    WithoutAbsent(list[j..n], fn);
  }

  // The entry at j now stands at or before the index of `fire` iff it did originally.
  lemma RemovalStep(list: seq<Entry>, fn: Fn, j: nat, at: int)
    requires -1 <= at < |list| && j < |list|
    ensures |Without(list[..j], fn)| <= at - RemovedUpTo(list, fn, j, at) <==> j <= at
    ensures RemovedUpTo(list, fn, j + 1, at) ==
            RemovedUpTo(list, fn, j, at) + if j <= at && list[j].fn == fn then 1 else 0
  {
    WithoutStep(list, fn, j);
    hide Without;
    if at + 1 < j {
      assert list[..j] == list[..at + 1] + list[at + 1..j];
      WithoutAppend(list[..at + 1], list[at + 1..j], fn);
    }
  }

  lemma WithoutAbsent(list: seq<Entry>, fn: Fn)
    requires !Has(list, fn)
    ensures Without(list, fn) == list
  {
    if list != [] {
      assert forall i :: 0 <= i < |list| - 1 ==> list[..|list| - 1][i] == list[i];
      WithoutAbsent(list[..|list| - 1], fn);
    }
  }

  class CallbackList {
    const flags: Flags

    var list: Option<seq<Entry>>
    var stack: Option<seq<Value>>
    var memory: Memory
    var fired: bool
    var firing: bool
    var firingStart: nat
    var firingLength: int
    var firingIndex: int

    var script: seq<Action>   // what the environment will do

    var nextId: nat           // names the next registration
    ghost var registered: seq<Entry>
    ghost var withdrawn: set<nat>
    ghost var accepted: seq<Value>
    ghost var passes: seq<Pass>

    ghost function Abs(): State
      reads this
    {
      State(list, stack, memory, fired, firing, firingStart, firingLength, firingIndex,
            registered, withdrawn, accepted, passes)
    }

    // Here and below "== true" makes the verifier take the invariant as one fact.
    ghost predicate Valid()
      reads this
    {
      (Inv(flags, Abs()) == true) && nextId == |registered|
    }

    // What remains of the script, from the state now, completes what the whole script
    // makes of state t; if the script ended inside a callback, that is the state now.
    twostate predicate Continues(t: State, cut: bool)
      reads this
    {
      && Valid() && |script| <= old(|script|)
      && Run(flags, Abs(), script) == Run(flags, t, old(script))
      && (cut ==> script == [] && firing)
    }

    // While a callback runs no other is called: the operation is all that happened.
    twostate predicate JustDid(t: State, cut: bool)
      reads this
    {
      !cut && Abs() == t && script == old(script) && firing
    }

    constructor (flags: Flags, script: seq<Action>)
      ensures this.flags == flags && this.script == script
      ensures Abs() == Initial && Valid()
    {
      this.flags := flags;
      this.script := script;
      list, stack, memory := Some([]), Some([]), Nothing;
      fired, firing, firingStart, firingLength, firingIndex := false, false, 0, 0, 0;
      nextId, registered, withdrawn, accepted, passes := 0, [], {}, [], [];
    }

    method Has(fn: Fn) returns (found: bool)
      ensures found == (list.Some? && CallbackMachine.Has(list.value, fn))
    {
      if list.Some? {
        for i := 0 to |list.value|
          invariant forall j :: 0 <= j < i ==> list.value[j].fn != fn
        {
          if fn == list.value[i].fn {
            return true;
          }
        }
      }
      return false;
    }

    method AddItem(item: Arg)
      requires list.Some? && nextId == |registered|
      modifies this`list, this`nextId, this`registered
      ensures list.Some? && nextId == |registered|
      ensures Added(flags.unique, old(list.value), old(registered), ItemOf(item), list.value, registered)
      decreases item, 1
    {
      match item
      case Nested(items) =>
        AddAll(items);
      case Func(fn) =>
        var known := Has(fn);
        if !flags.unique || !known {
          assert Fresh(list.value, [fn], flags.unique, nextId) == [Entry(fn, nextId)];
          list, registered := Some(list.value + [Entry(fn, nextId)]), registered + [Entry(fn, nextId)];
          nextId := nextId + 1;
        }
      case NotCallable =>
        AddedNothing(flags.unique, list.value, registered);
    }

    method AddAll(args: seq<Arg>)
      requires list.Some? && nextId == |registered|
      modifies this`list, this`nextId, this`registered
      ensures list.Some? && nextId == |registered|
      ensures Added(flags.unique, old(list.value), old(registered), Flatten(args), list.value, registered)
      decreases args
    {
      hide *;
      AddedNothing(flags.unique, list.value, registered);
      assert args[..0] == [];
      for i := 0 to |args|
        invariant list.Some? && nextId == |registered|
        invariant Added(flags.unique, old(list.value), old(registered), Flatten(args[..i]), list.value, registered)
      {
        ghost var list1, registered1 := list.value, registered;
        AddItem(args[i]);
        AddedThen(flags.unique, old(list.value), old(registered), args, i, list1, registered1, list.value, registered);
      }
      assert args[..|args|] == args;
    }

    // The inner loop of remove: every occurrence of fn goes (a "unique" list has at most
    // one), and while firing the loop bounds of `fire` follow.
    method RemoveOccurrences(fn: Fn)
      requires list.Some?
      requires flags.unique ==> DistinctFns(list.value)
      requires firing ==> firingLength == |list.value| && -1 <= firingIndex < |list.value|
      modifies this`list, this`firingLength, this`firingIndex
      ensures list == Some(Without(old(list.value), fn))
      ensures !firing ==> firingLength == old(firingLength) && firingIndex == old(firingIndex)
      ensures firing ==>
                && firingLength == |list.value|
                && firingIndex == old(firingIndex) - RemovedBefore(old(list.value), fn, old(firingIndex) + 1)
    {
      hide *;
      ghost var before, at, j := list.value, firingIndex, 0;
      ghost var index := at;   // where the loop of `fire` would stand
      var i := 0;
      ScanStart(before, fn, at);
      while i < |list.value|
        invariant list.Some? && i <= |list.value| && Scanned(before, fn, at, j, i, list.value, index)
        invariant if firing then firingLength == |list.value| && firingIndex == index
                  else firingLength == old(firingLength) && firingIndex == at
        decreases |before| - j
      {
        ScanStep(before, fn, at, j, i, list.value, index);
        if fn == list.value[i].fn {
          index := if i <= index then index - 1 else index;
          if firing {
            if i <= firingLength {
              firingLength := firingLength - 1;
              if i <= firingIndex {
                firingIndex := firingIndex - 1;
              }
            }
          }
          list := Some(list.value[..i] + list.value[i + 1..]);
          j := j + 1;
          if flags.unique {
            ScanUnique(before, fn, at, j, i, list.value, index);
            return;
          }
        } else {
          i, j := i + 1, j + 1;
        }
      }
      ScanEnd(before, fn, at, j, i, list.value, index);
    }

    method RemoveFunction(fn: Fn)
      requires Valid() && list.Some?
      modifies this
      ensures Valid() && list.Some? && Abs() == RemoveOne(old(Abs()), fn)
      ensures script == old(script) && firing == old(firing)
    {
      hide Ordered, AllRegistered, DistinctFns, Numbered, HistoryOk, EndingsOk, PassOk, Kept,
           FiredValues, Fifo, Uncalled, Without, AllCalls;
      ghost var before := Abs();
      OneRemoval(flags, before, fn);
      RemoveOccurrences(fn);
      withdrawn := withdrawn + Uncalled(before.list.value, fn, AllCalls(passes));
      if firing {
        ghost var p := passes[|passes| - 1];
        passes := passes[|passes| - 1 := p.(removed := p.removed + Uncalled(before.list.value, fn, p.calls))];
      }
      assert Abs() == RemoveOne(before, fn);
    }

    method Remove(fns: seq<Fn>)
      requires Valid()
      modifies this
      ensures Valid() && Abs() == RemoveStep(old(Abs()), fns)
      ensures script == old(script) && firing == old(firing)
    {
      hide Inv, RemoveStep, RemoveOne;
      assert fns[0..] == fns;
      if list.Some? {
        var argIndex := 0;
        while argIndex < |fns|
          invariant 0 <= argIndex <= |fns|
          invariant list.Some? && Valid() && script == old(script) && firing == old(firing)
          invariant RemoveStep(Abs(), fns[argIndex..]) == RemoveStep(old(Abs()), fns)
        {
          RemoveStepOnce(Abs(), fns, argIndex);
          RemoveFunction(fns[argIndex]);
          argIndex := argIndex + 1;
        }
        assert fns[argIndex..] == [];
        RemoveNothing(Abs());
      } else {
        RemoveNowhere(Abs(), fns);
      }
    }

    method DisableList()
      requires Valid()
      modifies this
      ensures Valid() && Abs() == DisableStep(old(Abs())) && script == old(script) && firing == old(firing)
    {
      DisableInv(flags, Abs());
      list, stack, memory := None, None, Nothing;
    }

    method LockList()
      requires Valid()
      modifies this
      ensures Valid() && Abs() == LockStep(old(Abs())) && script == old(script) && firing == old(firing)
    {
      DisableInv(flags, Abs());
      stack := None;
      if memory == Nothing || memory == Halted {
        list, stack, memory := None, None, Nothing;
      }
    }

    // While a callback runs, adding only extends the list; at rest a remembered value is
    // replayed to what was added.
    method Add(args: seq<Arg>) returns (cut: bool)
      requires Valid()
      modifies this
      ensures Continues(AddStep(flags, old(Abs()), args), cut)
      ensures if old(firing) then JustDid(AddStep(flags, old(Abs()), args), cut) else firing == cut
      decreases |script|, StackDepth(Abs()), 6
    {
      hide Inv, AddStep, Run, Enter, AtHead, Prepare, Flatten, Fresh;
      ghost var before := Abs();
      AddInv(flags, before, args);
      AddCases(flags, before, args);
      cut := false;
      if list.Some? {
        var length := |list.value|;
        AddAll(args);
        if firing {
          ghost var p := passes[|passes| - 1];
          passes := passes[|passes| - 1 := p.(eligible := p.eligible + list.value[length..])];
          firingLength := |list.value|;
        } else if memory.Remembered? {
          ReplayReady(flags, before, args);
          firingStart := length;
          cut := Fire(memory.v, ByAdd);
        }
      }
    }

    method FireWith(v: Value, ghost pending: bool := false) returns (cut: bool)
      requires pending || Valid()
      requires pending ==> list.Some? && stack.Some? && !firing && !flags.once && nextId == |registered|
      requires pending ==> AtHead(flags, Prepare(flags, Abs(), v, ByFire)) == true
      modifies this
      ensures Continues(if pending then Enter(flags, old(Abs()), v, ByFire) else FireStep(flags, old(Abs()), v), cut)
      ensures if old(firing) then JustDid(FireStep(flags, old(Abs()), v), cut) else firing == cut
      decreases |script|, StackDepth(Abs()), 5
    {
      hide Inv, Run, Enter, AtHead, Prepare;
      cut := false;
      if !pending {
        FireInv(flags, Abs(), v);
        StackNeedsList(flags, Abs());
      }
      if stack.Some? {
        if firing {
          if !flags.once {
            stack := Some(stack.value + [v]);
            accepted := accepted + [v];
          }
        } else if !(flags.once && memory != Nothing) {
          if !pending {
            FireReady(flags, Abs(), v);
            accepted := accepted + [v];
          }
          cut := Fire(v, ByFire);
        }
      }
    }

    method Fire(v: Value, ghost cause: Cause) returns (cut: bool)
      requires list.Some? && !firing && nextId == |registered|
      requires AtHead(flags, Prepare(flags, Abs(), v, cause)) == true
      modifies this
      ensures Continues(Enter(flags, old(Abs()), v, cause), cut) && firing == cut
      decreases |script|, StackDepth(Abs()), 4
    {
      EnterIsHead(flags, Abs(), v, cause);
      Begin(v, cause);
      hide *;
      var halted;
      halted, cut := Loop();
      if !cut {
        cut := Leave(LoopEnding(halted));
      }
    }

    method Begin(v: Value, ghost cause: Cause)
      requires list.Some?
      modifies this
      ensures Abs() == Prepare(flags, old(Abs()), v, cause)
      ensures script == old(script) && nextId == old(nextId)
    {
      passes := Prepare(flags, Abs(), v, cause).passes;
      memory := if flags.memory then Remembered(v) else Halted;
      fired := true;
      firing := true;
      firingIndex := firingStart;
      firingStart := 0;
      firingLength := |list.value|;
    }

    ghost function LoopEnding(halted: bool): Ending
      reads this
    {
      if list.None? then Disabled else if halted then Stopped else Completed
    }

    method Loop() returns (halted: bool, cut: bool)
      requires AtHead(flags, Abs()) == true && nextId == |registered|
      modifies this
      ensures nextId == |registered|
      ensures cut ==> Valid() && firing && script == [] && Abs() == Run(flags, Advance(flags, old(Abs())), old(script))
      ensures !cut ==> Leaving(flags, Abs(), LoopEnding(halted)) == true
      ensures !cut ==> Run(flags, Finish(flags, Abs(), LoopEnding(halted)), script) ==
                       Run(flags, Advance(flags, old(Abs())), old(script))
      ensures !cut ==> |script| < |old(script)| || (script == old(script) && stack == old(stack))
      decreases |script|, 0, 2
    {
      hide Inv, AtHead, Leaving, Advance, Finish, ReturnStep, Run;
      ghost var goal := Run(flags, Advance(flags, Abs()), script);
      halted := false;
      while list.Some? && firingIndex < firingLength
        invariant AtHead(flags, Abs()) == true && nextId == |registered|
        invariant Run(flags, Advance(flags, Abs()), script) == goal
        invariant |script| < |old(script)| || (script == old(script) && stack == old(stack))
        decreases |script|
      {
        var isFalse;
        isFalse, cut := CallNext();
        if cut {
          return;
        }
        if isFalse && flags.stopOnFalse {
          LoopHalts(flags, Abs());
          memory := Halted;
          halted := true;
          return;
        }
        LoopGoesOn(flags, Abs(), isFalse);
        firingIndex := firingIndex + 1;
      }
      GuardFails(flags, Abs());
      cut := false;
    }

    // The call of list[ firingIndex ], and what it does.
    method CallNext() returns (isFalse: bool, cut: bool)
      requires AtHead(flags, Abs()) == true && nextId == |registered|
      requires list.Some? && firingIndex < firingLength
      modifies this
      ensures Valid() && firing
      ensures cut ==> script == [] && Abs() == Run(flags, Advance(flags, old(Abs())), old(script))
      ensures !cut ==> |script| < |old(script)|
      ensures !cut ==> Run(flags, Advance(flags, old(Abs())), old(script)) ==
                       Run(flags, ReturnStep(flags, Abs(), isFalse), script)
      decreases |script|, 0, 1
    {
      hide Inv, AtHead, Leaving, Advance, Finish, ReturnStep, Run;
      GuardHolds(flags, Abs());
      ghost var head := Abs();
      HeadFacts(flags, head);
      ghost var p := passes[|passes| - 1];
      passes := passes[|passes| - 1 := p.(calls := p.calls + [Call(list.value[firingIndex].id, p.v)])];
      assert Abs() == Called(head);
      isFalse, cut := RunCallback();
    }

    // What `fire` does after its loop.
    method Leave(ghost ending: Ending) returns (cut: bool)
      requires Leaving(flags, Abs(), ending) == true && nextId == |registered|
      modifies this
      ensures Continues(Finish(flags, old(Abs()), ending), cut) && firing == cut
      decreases |script|, StackDepth(Abs()), 3
    {
      hide Inv, AtHead, Leaving, Advance, Run, Finish, Enter, Prepare;
      ghost var last := Abs();
      FinishInv(flags, last, ending);
      LeavingFacts(flags, last, ending);
      FinishCases(flags, last, ending);
      firing := false;
      passes := passes[|passes| - 1 := passes[|passes| - 1].(ending := ending)];
      assert Abs() == Close(last, ending);
      cut := false;
      if list.Some? {
        if !flags.once {
          if stack.Some? && stack.value != [] {
            PendingReady(flags, last, ending);
            var next := stack.value[0];
            memory, stack := Remembered(next), Some(stack.value[1..]);
            assert Abs() == Shifted(last, ending);
            cut := FireWith(next, true);
          }
        } else if memory == Halted {
          list, stack, memory := None, None, Nothing;
        } else {
          list := Some([]);
        }
      }
    }

    // The callback that was just called does what the script says until it returns.
    method RunCallback() returns (isFalse: bool, cut: bool)
      requires Valid() && firing
      modifies this
      ensures Valid() && firing
      ensures cut ==> script == [] && Abs() == Run(flags, old(Abs()), old(script))
      ensures !cut ==> |script| < |old(script)|
      ensures !cut ==> Run(flags, old(Abs()), old(script)) == Run(flags, ReturnStep(flags, Abs(), isFalse), script)
      decreases |script|, 0, 0
    {
      hide Inv, AddStep, RemoveStep, FireStep, LockStep, DisableStep, ReturnStep, Run;
      ghost var goal := Run(flags, Abs(), script);
      while script != []
        invariant Valid() && firing && |script| <= |old(script)|
        invariant Run(flags, Abs(), script) == goal
        decreases |script|
      {
        var action := script[0];
        RunStep(flags, Abs(), script);
        StepInv(flags, Abs(), action);
        script := script[1..];
        match action
        case Return(b) => return b, false;
        case Add(args) => var _ := Add(args);
        case Remove(fns) => Remove(fns);
        case FireWith(v) => var _ := FireWith(v);
        case Lock => LockList();
        case Disable => DisableList();
      }
      RunNothing(flags, Abs());
      return false, true;
    }

    // A whole run: client code performs the script, and so do the callbacks it sets off.
    method Play()
      requires Valid() && !firing
      modifies this
      ensures Valid() && Abs() == Run(flags, old(Abs()), old(script))
    {
      hide Inv, AddStep, RemoveStep, FireStep, LockStep, DisableStep, ReturnStep, Run;
      ghost var goal := Run(flags, Abs(), script);
      var cut := false;
      while script != [] && !cut
        invariant Valid() && (if cut then script == [] else !firing)
        invariant Run(flags, Abs(), script) == goal
        decreases |script|
      {
        var action := script[0];
        RunStep(flags, Abs(), script);
        script := script[1..];
        match action
        case Return(_) =>   // no callback is running: nothing returns
        case Add(args) => cut := Add(args);
        case Remove(fns) => Remove(fns);
        case FireWith(v) => cut := FireWith(v);
        case Lock => LockList();
        case Disable => DisableList();
      }
      RunNothing(flags, Abs());
    }
  }
}
