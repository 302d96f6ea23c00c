/** jQuery.Callbacks as a state machine.

    A user callback may do anything to the list that is calling it, so control returns to
    the environment every time a callback starts. The machine therefore has one step per
    action of the environment: an operation on the list, or the return of the callback
    that is running. Every behaviour of every set of callbacks, cut off at any moment, is
    `Run` of some finite sequence of actions.

    The eight closure variables of the source are the first eight fields of State. The
    rest is history that no operation inspects: a registration is named by an id that is
    its position in `registered`. */
module CallbackMachine {
  import opened Options

  type Fn = nat      // identity of a function object, all that `===` sees
  type Value = int   // a [context, args] pair, never looked into

  datatype Arg = Func(fn: Fn) | Nested(items: seq<Arg>) | NotCallable

  datatype Flags = Flags(once: bool, memory: bool, unique: bool, stopOnFalse: bool)

  datatype Entry = Entry(fn: Fn, id: nat)

  // `memory`: undefined, true, or the last fire value
  datatype Memory = Nothing | Halted | Remembered(v: Value)

  datatype Call = Call(id: nat, v: Value)

  datatype Cause = ByFire | ByAdd

  datatype Ending = Running | Completed | Stopped | Disabled

  // One execution of the loop in `fire`.
  //   eligible: registrations present at the start or added during the pass
  //   removed:  those of them removed before their turn
  datatype Pass = Pass(cause: Cause, v: Value, eligible: seq<Entry>, removed: set<nat>,
                       calls: seq<Call>, ending: Ending)

  datatype State = State(
    list: Option<seq<Entry>>,
    stack: Option<seq<Value>>,
    memory: Memory,
    fired: bool,
    firing: bool,
    firingStart: nat,
    firingLength: int,
    firingIndex: int,
    registered: seq<Entry>,   // every registration ever made
    withdrawn: set<nat>,      // registrations removed before any pass called them
    accepted: seq<Value>,     // values of the fireWith calls that were not ignored
    passes: seq<Pass>)

  datatype Action =
    | Add(args: seq<Arg>)
    | Remove(fns: seq<Fn>)
    | FireWith(v: Value)
    | Lock
    | Disable
    | Return(isFalse: bool)   // the running callback returns

  const Initial := State(Some([]), Some([]), Nothing, false, false, 0, 0, 0, [], {}, [], [])

  // ---- lists of registrations

  function Flatten(args: seq<Arg>): seq<Fn>
  {
    if args == [] then [] else
      (match args[0]
       case Func(fn) => [fn]
       case Nested(items) => Flatten(items)
       case NotCallable => []) + Flatten(args[1..])
  }

  predicate Has(list: seq<Entry>, fn: Fn) {
    exists i :: 0 <= i < |list| && list[i].fn == fn
  }

  // The entries that adding fns to list appends, the first one being number next.
  function Fresh(list: seq<Entry>, fns: seq<Fn>, unique: bool, next: nat): seq<Entry>
    decreases |fns|
  {
    if fns == [] then []
    else if unique && Has(list, fns[0]) then Fresh(list, fns[1..], unique, next)
    else
      var e := Entry(fns[0], next);
      [e] + Fresh(list + [e], fns[1..], unique, next + 1)
  }

  function Without(list: seq<Entry>, fn: Fn): seq<Entry>
  {
    if list == [] then []
    else if list[|list| - 1].fn == fn then Without(list[..|list| - 1], fn)
    else Without(list[..|list| - 1], fn) + [list[|list| - 1]]
  }

  // The entries not named in gone.
  function Kept(list: seq<Entry>, gone: set<nat>): seq<Entry>
  {
    if list == [] then []
    else if list[|list| - 1].id in gone then Kept(list[..|list| - 1], gone)
    else Kept(list[..|list| - 1], gone) + [list[|list| - 1]]
  }

  function CallsOf(list: seq<Entry>, v: Value): seq<Call> {
    seq(|list|, i requires 0 <= i < |list| => Call(list[i].id, v))
  }

  // Every call made, in the order made.
  function AllCalls(passes: seq<Pass>): seq<Call>
  {
    if passes == [] then [] else AllCalls(passes[..|passes| - 1]) + passes[|passes| - 1].calls
  }

  // ---- the steps

  function StackDepth(s: State): nat {
    if s.stack.Some? then |s.stack.value| else 0
  }

  function Last(s: State): Pass
    requires |s.passes| > 0
  {
    s.passes[|s.passes| - 1]
  }

  function WithLast(s: State, p: Pass): State
    requires |s.passes| > 0
  {
    s.(passes := s.passes[|s.passes| - 1 := p])
  }

  // Everything `fire` does before its loop, then the loop head.
  function Enter(f: Flags, s: State, v: Value, cause: Cause): State
    requires s.list.Some?
    decreases StackDepth(s), 1
  {
    Advance(f, Prepare(f, s, v, cause))
  }

  function Prepare(f: Flags, s: State, v: Value, cause: Cause): State
    requires s.list.Some?
  {
    var eligible := if s.firingStart <= |s.list.value| then s.list.value[s.firingStart..] else [];
    s.(memory := if f.memory then Remembered(v) else Halted,
       fired := true,
       firing := true,
       firingIndex := s.firingStart,
       firingStart := 0,
       firingLength := |s.list.value|,
       passes := s.passes + [Pass(cause, v, eligible, {}, [], Running)])
  }

  predicate AtCall(s: State) {
    s.list.Some? && 0 <= s.firingIndex < s.firingLength && s.firingIndex < |s.list.value| && |s.passes| > 0
  }

  // The head of the loop: call the next callback, or leave the loop.
  function Advance(f: Flags, s: State): State
    decreases StackDepth(s), 0
  {
    if AtCall(s) then
      Called(s)
    else
      Finish(f, s, if s.list.Some? then Completed else Disabled)
  }

  function Called(s: State): State
    requires AtCall(s)
  {
    var p := Last(s);
    WithLast(s, p.(calls := p.calls + [Call(s.list.value[s.firingIndex].id, p.v)]))
  }

  function Close(s: State, ending: Ending): State {
    var t := s.(firing := false);
    if |s.passes| > 0 then WithLast(t, Last(s).(ending := ending)) else t
  }

  // What `fire` does after its loop; a pending fire starts the next pass.
  function Finish(f: Flags, s: State, ending: Ending): State
    decreases StackDepth(s), 0, 0
  {
    var t := Close(s, ending);
    if t.list.None? then t
    else if !f.once then
      if t.stack.Some? && t.stack.value != [] then
        var v := t.stack.value[0];
        Enter(f, t.(memory := Remembered(v), stack := Some(t.stack.value[1..])), v, ByFire)
      else t
    else if t.memory == Halted then DisableStep(t)
    else t.(list := Some([]))
  }

  function ReturnStep(f: Flags, s: State, isFalse: bool): State
  {
    if isFalse && f.stopOnFalse then
      Finish(f, s.(memory := Halted), if s.list.Some? then Stopped else Disabled)
    else
      Advance(f, s.(firingIndex := s.firingIndex + 1))
  }

  function AddStep(f: Flags, s: State, args: seq<Arg>): State
  {
    if s.list.None? then s
    else
      var added := Fresh(s.list.value, Flatten(args), f.unique, |s.registered|);
      var t := s.(list := Some(s.list.value + added), registered := s.registered + added);
      if s.firing then
        var t' := t.(firingLength := |t.list.value|);
        if |s.passes| > 0 then WithLast(t', Last(s).(eligible := Last(s).eligible + added)) else t'
      else if s.memory.Remembered? then
        Enter(f, t.(firingStart := |s.list.value|), s.memory.v, ByAdd)
      else t
  }

  predicate CalledIn(calls: seq<Call>, id: nat) {
    exists i :: 0 <= i < |calls| && calls[i].id == id
  }

  // The registrations of fn in list that calls does not contain.
  function Uncalled(list: seq<Entry>, fn: Fn, calls: seq<Call>): set<nat> {
    set i | 0 <= i < |list| && list[i].fn == fn && !CalledIn(calls, list[i].id) :: list[i].id
  }

  function RemoveOne(s: State, fn: Fn): State
    requires s.list.Some?
  {
    var calls := if s.firing && |s.passes| > 0 then Last(s).calls else [];
    var gone := Uncalled(s.list.value, fn, calls);
    var t := s.(list := Some(Without(s.list.value, fn)),
                withdrawn := s.withdrawn + Uncalled(s.list.value, fn, AllCalls(s.passes)));
    if s.firing then
      var upto := if 0 <= s.firingIndex + 1 <= |s.list.value| then s.list.value[..s.firingIndex + 1] else [];
      var t' := t.(firingLength := s.firingLength - (|s.list.value| - |t.list.value|),
                   firingIndex := s.firingIndex - (|upto| - |Without(upto, fn)|));
      if |s.passes| > 0 then WithLast(t', Last(s).(removed := Last(s).removed + gone)) else t'
    else t
  }

  function RemoveStep(s: State, fns: seq<Fn>): State
    decreases |fns|
  {
    if s.list.None? || fns == [] then s else RemoveStep(RemoveOne(s, fns[0]), fns[1..])
  }

  function DisableStep(s: State): State {
    s.(list := None, stack := None, memory := Nothing)
  }

  function LockStep(s: State): State {
    var t := s.(stack := None);
    if s.memory.Remembered? then t else DisableStep(t)
  }

  function FireStep(f: Flags, s: State, v: Value): State
  {
    if s.stack.None? || s.list.None? then s
    else if s.firing then
      if f.once then s
      else s.(stack := Some(s.stack.value + [v]), accepted := s.accepted + [v])
    else if f.once && s.memory != Nothing then s
    else Enter(f, s.(accepted := s.accepted + [v]), v, ByFire)
  }

  function Step(f: Flags, s: State, a: Action): State
  {
    match a
    case Add(args) => AddStep(f, s, args)
    case Remove(fns) => RemoveStep(s, fns)
    case FireWith(v) => FireStep(f, s, v)
    case Lock => LockStep(s)
    case Disable => DisableStep(s)
    case Return(isFalse) => if s.firing then ReturnStep(f, s, isFalse) else s
  }

  function Run(f: Flags, s: State, actions: seq<Action>): State
    decreases |actions|
  {
    if actions == [] then s else Run(f, Step(f, s, actions[0]), actions[1..])
  }
}
