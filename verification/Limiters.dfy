/** The functions that `throttle` and `debounce` return, with the variables they close over. The
    function they limit may call them again while it runs. */
module Limiters {
  import opened Options
  import opened Timing

  // One run of the limited function: the calls it makes of its own limiter, each after some
  // time, and what it returns.
  datatype Body = Body(calls: seq<Nested>, ret: int)
  datatype Nested = Nested(delay: nat, args: Args, body: Body)

  lemma ThrottleExtends(wait: int, trace: seq<Event>, e: Event)
    requires ThrottleTrace(wait, trace) && MayFollow(ThrottleRun(wait, trace).timeout, LastTime(trace), e)
    ensures ThrottleTrace(wait, trace + [e])
    ensures ThrottleRun(wait, trace + [e]) == ThrottleStep(wait, ThrottleRun(wait, trace), e)
    ensures LastTime(trace + [e]) == e.now
  {
    assert (trace + [e])[..|trace|] == trace;
  }

  lemma DebounceExtends(wait: nat, immediate: bool, trace: seq<Event>, e: Event)
    requires DebounceTrace(wait, immediate, trace)
    requires MayFollow(Due(DebounceRun(wait, immediate, trace).timeout), LastTime(trace), e)
    ensures DebounceTrace(wait, immediate, trace + [e])
    ensures DebounceRun(wait, immediate, trace + [e]) ==
            DebounceStep(wait, immediate, DebounceRun(wait, immediate, trace), e)
    ensures LastTime(trace + [e]) == e.now
  {
    assert (trace + [e])[..|trace|] == trace;
  }

  class Throttled {
    const wait: int
    var previous: int
    var timeout: Option<int>
    var args: Args
    var result: int
    var clock: nat               // new Date
    ghost var log: seq<Invocation>
    ghost var trace: seq<Event>  // every call and every timer so far, nested ones included

    ghost predicate Valid()
      reads this
    {
      && ThrottleTrace(wait, trace) == true
      && ThrottleRun(wait, trace) == Throttle(previous, timeout, args, log)
      && LastTime(trace) <= clock
    }

    constructor (wait: int)
      ensures Valid() && this.wait == wait && trace == [] && log == []
    {
      this.wait := wait;
      previous, timeout, args, result, clock := 0, None, 0, 0, 0;
      log, trace := [], [];
    }

    method Wait(delay: nat)
      requires Valid()
      modifies this`clock
      ensures Valid() && clock == old(clock) + delay
    {
      clock := clock + delay;
    }

    // The limited function runs: it gets the arguments, and may call back.
    method Apply(body: Body)
      requires Valid()
      modifies this
      ensures Valid() && old(clock) <= clock && old(trace) <= trace && result == body.ret
      decreases body, 0
    {
      var i := 0;
      while i < |body.calls|
        invariant i <= |body.calls|
        invariant Valid() && old(clock) <= clock && old(trace) <= trace
      {
        Wait(body.calls[i].delay);
        var _ := Invoke(body.calls[i].args, body.calls[i].body);
        i := i + 1;
      }
      result := body.ret;
    }

    // The returned function is called. The calls that the limited function makes meanwhile come
    // after this one in the trace, and leave their results behind before it leaves its own.
    method Invoke(a: Args, body: Body) returns (r: int)
      requires Valid()
      modifies this
      ensures Valid() && old(clock) <= clock && old(trace) + [Call(old(clock), a)] <= trace
      ensures r == result == if old(wait - (clock - previous)) <= 0 then body.ret else old(result)
      decreases body, 1
    {
      hide ThrottleTrace, ThrottleRun, LastTime;
      var now := clock;
      var remaining := wait - (now - previous);
      ThrottleExtends(wait, trace, Call(now, a));
      args := a;
      trace := trace + [Call(now, a)];
      if remaining <= 0 {
        timeout := None;
        previous := now;
        log := log + [Invocation(now, args)];
        Apply(body);
      } else if timeout.None? {
        timeout := Some(now + remaining);
      }
      return result;
    }

    // A pending timer that is due fires.
    method Later(body: Body)
      requires Valid() && timeout.Some? && timeout.value <= clock
      modifies this
      ensures Valid() && old(clock) <= clock && old(trace) + [Fire(old(clock))] <= trace
      ensures result == body.ret
    {
      hide ThrottleTrace, ThrottleRun, LastTime;
      ThrottleExtends(wait, trace, Fire(clock));
      trace := trace + [Fire(clock)];
      previous := clock;
      timeout := None;
      log := log + [Invocation(clock, args)];
      Apply(body);
    }
  }

  class Debounced {
    const wait: nat
    const immediate: bool
    var timeout: Option<Timer>
    var result: int
    var clock: nat
    ghost var log: seq<Invocation>
    ghost var trace: seq<Event>

    ghost predicate Valid()
      reads this
    {
      && DebounceTrace(wait, immediate, trace) == true
      && DebounceRun(wait, immediate, trace) == Debounce(timeout, log)
      && LastTime(trace) <= clock
    }

    constructor (wait: nat, immediate: bool)
      ensures Valid() && this.wait == wait && this.immediate == immediate && trace == [] && log == []
    {
      this.wait, this.immediate := wait, immediate;
      timeout, result, clock := None, 0, 0;
      log, trace := [], [];
    }

    method Wait(delay: nat)
      requires Valid()
      modifies this`clock
      ensures Valid() && clock == old(clock) + delay
    {
      clock := clock + delay;
    }

    method Apply(body: Body)
      requires Valid()
      modifies this
      ensures Valid() && old(clock) <= clock && old(trace) <= trace && result == body.ret
      decreases body, 0
    {
      var i := 0;
      while i < |body.calls|
        invariant i <= |body.calls|
        invariant Valid() && old(clock) <= clock && old(trace) <= trace
      {
        Wait(body.calls[i].delay);
        var _ := Invoke(body.calls[i].args, body.calls[i].body);
        i := i + 1;
      }
      result := body.ret;
    }

    method Invoke(a: Args, body: Body) returns (r: int)
      requires Valid()
      modifies this
      ensures Valid() && old(clock) <= clock && old(trace) + [Call(old(clock), a)] <= trace
      ensures r == result == if immediate && old(timeout).None? then body.ret else old(result)
      decreases body, 1
    {
      hide DebounceTrace, DebounceRun, LastTime;
      var callNow := immediate && timeout.None?;
      DebounceExtends(wait, immediate, trace, Call(clock, a));
      trace := trace + [Call(clock, a)];
      timeout := Some(Timer(clock + wait, a));
      if callNow {
        log := log + [Invocation(clock, a)];
        Apply(body);
      }
      return result;
    }

    method Later(body: Body)
      requires Valid() && timeout.Some? && timeout.value.due <= clock
      modifies this
      ensures Valid() && old(clock) <= clock && old(trace) + [Fire(old(clock))] <= trace
      ensures result == if immediate then old(result) else body.ret
    {
      hide DebounceTrace, DebounceRun, LastTime;
      DebounceExtends(wait, immediate, trace, Fire(clock));
      trace := trace + [Fire(clock)];
      var args := timeout.value.args;
      timeout := None;
      if !immediate {
        log := log + [Invocation(clock, args)];
        Apply(body);
      }
    }
  }
}
