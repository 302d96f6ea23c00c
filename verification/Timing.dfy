/** Throttling and debouncing as machines over calls and timers: what each event does to the
    state, and what holds of every run. Times never go back, and timers are never early. */
module Timing {
  import opened Options

  type Args = nat

  datatype Event = Call(now: nat, args: Args) | Fire(now: nat)

  datatype Invocation = Invocation(time: nat, args: Args)

  // ---- throttle

  // timeout: when the pending timer is due.
  datatype Throttle = Throttle(previous: int, timeout: Option<int>, args: Args, log: seq<Invocation>)

  const NewThrottle := Throttle(0, None, 0, [])

  function ThrottleStep(wait: int, s: Throttle, e: Event): Throttle {
    match e
    case Call(now, args) =>
      var remaining := wait - (now - s.previous);
      if remaining <= 0 then Throttle(now, None, args, s.log + [Invocation(now, args)])
      else if s.timeout.None? then s.(args := args, timeout := Some(now + remaining))
      else s.(args := args)
    case Fire(now) => Throttle(now, None, s.args, s.log + [Invocation(now, s.args)])
  }

  function ThrottleRun(wait: int, trace: seq<Event>): Throttle {
    if trace == [] then NewThrottle
    else ThrottleStep(wait, ThrottleRun(wait, trace[..|trace| - 1]), trace[|trace| - 1])
  }

  function LastTime(trace: seq<Event>): nat {
    if trace == [] then 0 else trace[|trace| - 1].now
  }

  // Only a pending timer fires, and not before it is due.
  predicate MayFollow(timeout: Option<int>, last: nat, e: Event) {
    last <= e.now && (e.Fire? ==> timeout.Some? && timeout.value <= e.now)
  }

  predicate ThrottleTrace(wait: int, trace: seq<Event>) {
    trace == [] ||
    (ThrottleTrace(wait, trace[..|trace| - 1]) &&
     MayFollow(ThrottleRun(wait, trace[..|trace| - 1]).timeout, LastTime(trace[..|trace| - 1]), trace[|trace| - 1]))
  }

  function LastCall(trace: seq<Event>): (e: Option<Event>)
    ensures e.Some? ==> e.value.Call? && e.value in trace
  {
    if trace == [] then None
    else if trace[|trace| - 1].Call? then Some(trace[|trace| - 1])
    else LastCall(trace[..|trace| - 1])
  }

  predicate Spaced(wait: int, log: seq<Invocation>) {
    forall i, j :: 0 <= i < j < |log| ==> log[j].time - log[i].time >= wait * (j - i)
  }

  lemma SpacedAdds(wait: int, log: seq<Invocation>, v: Invocation)
    requires Spaced(wait, log) && (log == [] || v.time - log[|log| - 1].time >= wait)
    ensures Spaced(wait, log + [v])
  {
    var all := log + [v];
    forall i, j | 0 <= i < j < |all| ensures all[j].time - all[i].time >= wait * (j - i) {
      if j == |log| && i < j - 1 {
        assert log[j - 1].time - log[i].time >= wait * (j - 1 - i);
        assert wait * (j - i) == wait * (j - 1 - i) + wait;
      }
    }
  }

  predicate ThrottleInv(wait: int, s: Throttle, trace: seq<Event>) {
    && s.previous == (if s.log == [] then 0 else s.log[|s.log| - 1].time)
    && s.previous <= LastTime(trace)
    && (s.timeout.Some? ==> s.timeout.value == s.previous + wait && LastCall(trace).Some?)
    && (match LastCall(trace)
        case None => s.log == []
        case Some(call) =>
          s.args == call.args && (s.timeout.None? ==> s.log != [] && s.log[|s.log| - 1].args == call.args))
    && Spaced(wait, s.log)
  }

  lemma {:induction false} ThrottleHolds(wait: int, trace: seq<Event>)
    requires ThrottleTrace(wait, trace)
    ensures ThrottleInv(wait, ThrottleRun(wait, trace), trace)
    decreases |trace|
  {
    hide Spaced;
    if trace == [] {
      SpacedNone(wait);
    } else {
      var before, e := trace[..|trace| - 1], trace[|trace| - 1];
      ThrottleHolds(wait, before);
      var s := ThrottleRun(wait, before);
      if e.Fire? {
        SpacedAdds(wait, s.log, Invocation(e.now, s.args));
      } else if wait - (e.now - s.previous) <= 0 {
        SpacedAdds(wait, s.log, Invocation(e.now, e.args));
      }
    }
  }

  lemma SpacedNone(wait: int)
    ensures Spaced(wait, [])
  {
  }

  // Invocations are at least `wait` apart, each number of them as many waits; and whenever no
  // timer is pending, the arguments of the last call have been delivered by the last invocation.
  lemma ThrottleIsRight(wait: int, trace: seq<Event>)
    requires ThrottleTrace(wait, trace)
    ensures var s := ThrottleRun(wait, trace);
            && (forall i :: 0 <= i < |s.log| - 1 ==> s.log[i + 1].time - s.log[i].time >= wait)
            && Spaced(wait, s.log)
            && (s.timeout.None? && LastCall(trace).Some? ==>
                  s.log != [] && s.log[|s.log| - 1].args == LastCall(trace).value.args)
            && (s.timeout.Some? ==> s.timeout.value == wait + if s.log == [] then 0 else s.log[|s.log| - 1].time)
  {
    ThrottleHolds(wait, trace);
    var log := ThrottleRun(wait, trace).log;
    forall i | 0 <= i < |log| - 1 ensures log[i + 1].time - log[i].time >= wait {
      assert wait * (i + 1 - i) == wait;
    }
  }

  // What an event adds: a timer always delivers, a call exactly if a wait has passed since the
  // last invocation (since the beginning of time, if there is none); and what is delivered is
  // always the latest.
  lemma ThrottleDelivers(wait: int, trace: seq<Event>, e: Event)
    requires ThrottleTrace(wait, trace + [e])
    ensures var before, after := ThrottleRun(wait, trace).log, ThrottleRun(wait, trace + [e]).log;
            var since := e.now - if before == [] then 0 else before[|before| - 1].time;
            LastCall(trace + [e]).Some? &&
            after == if e.Fire? || since >= wait then before + [Invocation(e.now, LastCall(trace + [e]).value.args)]
                     else before
  {
    assert (trace + [e])[..|trace|] == trace;
    ThrottleHolds(wait, trace);
  }

  // ---- debounce

  // The pending timer carries the arguments of the call that set it.
  datatype Timer = Timer(due: int, args: Args)

  datatype Debounce = Debounce(timeout: Option<Timer>, log: seq<Invocation>)

  const NewDebounce := Debounce(None, [])

  function DebounceStep(wait: nat, immediate: bool, s: Debounce, e: Event): Debounce {
    match e
    case Call(now, args) =>
      var callNow := immediate && s.timeout.None?;
      Debounce(Some(Timer(now + wait, args)), if callNow then s.log + [Invocation(now, args)] else s.log)
    case Fire(now) =>
      if s.timeout.None? then s   // does not happen
      else Debounce(None, if immediate then s.log else s.log + [Invocation(now, s.timeout.value.args)])
  }

  function DebounceRun(wait: nat, immediate: bool, trace: seq<Event>): Debounce {
    if trace == [] then NewDebounce
    else DebounceStep(wait, immediate, DebounceRun(wait, immediate, trace[..|trace| - 1]), trace[|trace| - 1])
  }

  function Due(timeout: Option<Timer>): Option<int> {
    if timeout.Some? then Some(timeout.value.due) else None
  }

  predicate DebounceTrace(wait: nat, immediate: bool, trace: seq<Event>) {
    trace == [] ||
    (DebounceTrace(wait, immediate, trace[..|trace| - 1]) &&
     MayFollow(Due(DebounceRun(wait, immediate, trace[..|trace| - 1]).timeout), LastTime(trace[..|trace| - 1]),
               trace[|trace| - 1]))
  }

  // The bursts of a trace that are over: each is ended by a timer, and remembered by its last
  // call and the time of the timer.
  datatype Burst = Burst(last: Event, end: nat)

  function Bursts(trace: seq<Event>): seq<Burst> {
    if trace == [] then [] else
      var before, e := trace[..|trace| - 1], trace[|trace| - 1];
      match (e, LastCall(before))
      case (Fire(now), Some(call)) => Bursts(before) + [Burst(call, now)]
      case _ => Bursts(before)
  }

  function Delivery(b: Burst): Invocation
    requires b.last.Call?
  {
    Invocation(b.end, b.last.args)
  }

  // The calls that open a burst: the first one, and those that come right after a timer.
  function Openings(trace: seq<Event>): seq<Invocation> {
    if trace == [] then [] else
      var before, e := trace[..|trace| - 1], trace[|trace| - 1];
      if e.Call? && (before == [] || before[|before| - 1].Fire?) then Openings(before) + [Invocation(e.now, e.args)]
      else Openings(before)
  }

  predicate DebounceInv(wait: nat, s: Debounce, trace: seq<Event>) {
    && (s.timeout.Some? <==> trace != [] && trace[|trace| - 1].Call?)
    && (s.timeout.Some? ==> LastCall(trace).Some?)
    && (s.timeout.Some? ==> s.timeout.value == Timer(LastCall(trace).value.now + wait, LastCall(trace).value.args))
  }

  lemma {:induction false} DebounceHolds(wait: nat, immediate: bool, trace: seq<Event>)
    requires DebounceTrace(wait, immediate, trace)
    ensures DebounceInv(wait, DebounceRun(wait, immediate, trace), trace)
    decreases |trace|
  {
    if trace != [] {
      DebounceHolds(wait, immediate, trace[..|trace| - 1]);
    }
  }

  // Trailing: one invocation for each burst that is over, in their order, with the arguments of
  // its last call, and at least a wait after that call.
  lemma {:induction false} TrailingIsRight(wait: nat, trace: seq<Event>)
    requires DebounceTrace(wait, false, trace)
    ensures var log, bursts := DebounceRun(wait, false, trace).log, Bursts(trace);
            |log| == |bursts| &&
            forall i :: 0 <= i < |log| ==>
              bursts[i].last.Call? && log[i] == Delivery(bursts[i]) && log[i].time - bursts[i].last.now >= wait
    decreases |trace|
  {
    if trace != [] {
      TrailingIsRight(wait, trace[..|trace| - 1]);
      DebounceHolds(wait, false, trace[..|trace| - 1]);
    }
  }

  // Immediate: one invocation for each call that opens a burst, and no other.
  lemma {:induction false} LeadingIsRight(wait: nat, trace: seq<Event>)
    requires DebounceTrace(wait, true, trace)
    ensures DebounceRun(wait, true, trace).log == Openings(trace)
    decreases |trace|
  {
    if trace != [] {
      LeadingIsRight(wait, trace[..|trace| - 1]);
      DebounceHolds(wait, true, trace[..|trace| - 1]);
    }
  }

  lemma {:induction false} EventMayFollow(wait: nat, immediate: bool, trace: seq<Event>, k: nat)
    requires DebounceTrace(wait, immediate, trace) && k < |trace|
    ensures DebounceTrace(wait, immediate, trace[..k])
    ensures MayFollow(Due(DebounceRun(wait, immediate, trace[..k]).timeout), LastTime(trace[..k]), trace[k])
    decreases |trace|
  {
    var n := |trace| - 1;
    if k < n {
      EventMayFollow(wait, immediate, trace[..n], k);
      assert trace[..n][..k] == trace[..k] && trace[..n][k] == trace[k];
    }
  }

  // Two calls less than a wait apart are in one burst: no timer fires between them, and so the
  // later one does not open a burst.
  lemma {:induction false} NoTimerBetween(wait: nat, immediate: bool, trace: seq<Event>, i: nat, k: nat)
    requires DebounceTrace(wait, immediate, trace) && i <= k < |trace| && trace[i].Call?
    requires trace[k].now - trace[i].now < wait
    ensures trace[i].now <= trace[k].now && forall m :: i <= m <= k ==> trace[m].Call?
    decreases k
  {
    if i < k {
      EventMayFollow(wait, immediate, trace, k);
      assert LastTime(trace[..k]) == trace[k - 1].now;
      NoTimerBetween(wait, immediate, trace, i, k - 1);
      DebounceHolds(wait, immediate, trace[..k]);
      assert LastCall(trace[..k]) == Some(trace[k - 1]);
    }
  }

  // So an immediate invocation comes only where a burst opens, which is after a wait without
  // calls: it happens in a call, at least a wait after every earlier one.
  lemma LeadingAfterQuiet(wait: nat, trace: seq<Event>, k: nat, i: nat)
    requires DebounceTrace(wait, true, trace) && i < k < |trace| && trace[i].Call?
    requires DebounceRun(wait, true, trace[..k + 1]).log != DebounceRun(wait, true, trace[..k]).log
    ensures trace[k].Call? && trace[k].now - trace[i].now >= wait
  {
    EventMayFollow(wait, true, trace, k);
    assert trace[..k + 1][..k] == trace[..k];
    DebounceHolds(wait, true, trace[..k]);
    assert trace[..k][k - 1] == trace[k - 1];
    if trace[k].now - trace[i].now < wait {
      NoTimerBetween(wait, true, trace, i, k);
    }
  }
}
