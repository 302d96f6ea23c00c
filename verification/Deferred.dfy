/** jQuery.Deferred: three callback lists whose first callbacks act on one another, driven
    by every possible mixture of resolve, reject, notify and registrations, made from
    outside or from inside running callbacks.

    A callback of one list may fire another list, so a stack records which lists are
    inside a callback, the innermost first. */
module Deferred {
  import opened CallbackMachine

  datatype Side = Done | Fail | Progress

  datatype Status = Pending | Resolved | Rejected

  datatype World = World(done: State, fail: State, progress: State, status: Status, control: seq<Side>)

  datatype Move =
    | Register(side: Side, fns: seq<nat>)   // done, fail, progress (then and always are several)
    | Settle(side: Side, v: Value)          // resolve, reject, notify
    | Leave(isFalse: bool)                  // the running user callback returns

  const ONCE := Flags(true, true, false, false)
  const REPEATED := Flags(false, true, false, false)

  // The three functions the constructor registers; a user's function k is number k + 3.
  const SET_STATE: Fn := 0
  const DISABLE_OTHER: Fn := 1
  const LOCK_PROGRESS: Fn := 2
  const BUILTINS: seq<Fn> := [SET_STATE, DISABLE_OTHER, LOCK_PROGRESS]

  function Funcs(fns: seq<Fn>): seq<Arg> {
    seq(|fns|, i requires 0 <= i < |fns| => Func(fns[i]))
  }

  function UserArgs(fns: seq<nat>): seq<Arg> {
    Funcs(seq(|fns|, i requires 0 <= i < |fns| => fns[i] + 3))
  }

  function FlagsOf(side: Side): Flags {
    if side == Progress then REPEATED else ONCE
  }

  function Get(w: World, side: Side): State {
    match side case Done => w.done case Fail => w.fail case Progress => w.progress
  }

  function Put(w: World, side: Side, s: State): World {
    match side case Done => w.(done := s) case Fail => w.(fail := s) case Progress => w.(progress := s)
  }

  function Other(side: Side): Side {
    if side == Done then Fail else Done
  }

  function Start(): World {
    World(AddStep(ONCE, Initial, Funcs(BUILTINS)), AddStep(ONCE, Initial, Funcs(BUILTINS)), Initial, Pending, [])
  }

  // The function whose call is in progress on this list.
  function Current(s: State): Fn {
    if s.passes != [] && Last(s).calls != [] then
      var id := Last(s).calls[|Last(s).calls| - 1].id;
      if id < |s.registered| then s.registered[id].fn else 3
    else 3
  }

  function Effect(w: World, side: Side, fn: Fn): World
    requires side != Progress
  {
    if fn == SET_STATE then w.(status := if side == Done then Resolved else Rejected)
    else if fn == DISABLE_OTHER then Put(w, Other(side), DisableStep(Get(w, Other(side))))
    else w.(progress := LockStep(w.progress))
  }

  lemma ReturnAdvances(s: State)
    requires AtCall(s)
    ensures var t := ReturnStep(ONCE, s, false);
            t.firing ==> AtCall(t) && Left(t) < Left(s)
  {
    var u := s.(firingIndex := s.firingIndex + 1);
    assert AtCall(u) || !Finish(ONCE, u, if u.list.Some? then Completed else CallbackMachine.Disabled).firing;
  }

  // A call on list side has begun. If it is of one of the three functions above, it has its
  // effect, returns, and the list goes on to its next call.
  function Proceed(w: World, side: Side): World
    decreases Left(Get(w, side))
  {
    var fn := Current(Get(w, side));
    if side == Progress || fn >= 3 || !AtCall(Get(w, side)) then w
    else
      var s := ReturnStep(ONCE, Get(w, side), false);
      ReturnAdvances(Get(w, side));
      var w' := Put(Effect(w, side, fn), side, s);
      if s.firing then Proceed(w', side) else w'.(control := if w.control != [] then w.control[1..] else [])
  }

  function Left(s: State): nat {
    if AtCall(s) then |s.list.value| - s.firingIndex else 0
  }

  // After an operation on list side, s being its new state.
  function After(w: World, side: Side, s: State): World {
    if s.firing && side !in w.control then
      Proceed(Put(w, side, s).(control := [side] + w.control), side)
    else Put(w, side, s)
  }

  function Play(w: World, m: Move): World
  {
    match m
    case Register(side, fns) => After(w, side, AddStep(FlagsOf(side), Get(w, side), UserArgs(fns)))
    case Settle(side, v) => After(w, side, FireStep(FlagsOf(side), Get(w, side), v))
    case Leave(isFalse) =>
      if w.control == [] then w
      else
        var side := w.control[0];
        var s := ReturnStep(FlagsOf(side), Get(w, side), isFalse);
        if s.firing then Proceed(Put(w, side, s), side)
        else Put(w, side, s).(control := w.control[1..])
  }

  function PlayAll(w: World, moves: seq<Move>): World
    decreases |moves|
  {
    if moves == [] then w else PlayAll(Play(w, moves[0]), moves[1..])
  }
}
