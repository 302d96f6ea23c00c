/** The handler list of an element, spliced in place, and the dispatch of events to it. */
module EventElement {
  import opened Dom
  import opened Namespaces
  import opened EventHandlers
  import opened EventDispatch

  // jQuery.Event, as far as handlers change it.
  class EventObject {
    var propagationStopped: bool
    var immediatePropagationStopped: bool
    var defaultPrevented: bool
    var result: Return

    constructor ()
      ensures Now() == Flags(false, false, false, Undefined)
    {
      propagationStopped, immediatePropagationStopped, defaultPrevented := false, false, false;
      result := Undefined;
    }

    ghost function Now(): Flags
      reads this
    {
      Flags(propagationStopped, immediatePropagationStopped, defaultPrevented, result)
    }

    method PreventDefault()
      modifies this
      ensures Now() == old(Now()).(prevented := true)
    {
      defaultPrevented := true;
    }

    method StopPropagation()
      modifies this
      ensures Now() == old(Now()).(stopped := true)
    {
      propagationStopped := true;
    }

    method StopImmediatePropagation()
      modifies this
      ensures Now() == old(Now()).(stopped := true, immediate := true)
    {
      immediatePropagationStopped := true;
      StopPropagation();
    }
  }

  // The edits made by the handlers that were called.
  function EditsOf(log: seq<(nat, nat)>, react: (nat, nat) -> Reaction): seq<Edit> {
    if log == [] then [] else
      var c := log[|log| - 1];
      EditsOf(log[..|log| - 1], react) + react(c.0, c.1).edits
  }

  lemma EditsOfAdds(log: seq<(nat, nat)>, c: (nat, nat), react: (nat, nat) -> Reaction)
    ensures EditsOf(log + [c], react) == EditsOf(log, react) + react(c.0, c.1).edits
  {
    assert (log + [c])[..|log|] == log;
  }

  lemma {:induction false} NoneDelegated(page: Page, path: seq<int>)
    ensures Bubble(page, path, []) == []
    decreases |path|
  {
    if path != [] {
      NoneDelegated(page, path[..|path| - 1]);
    }
  }

  // cur.parentNode || this
  function Outward(d: Doc, cur: int, this_: int): (up: int)
    requires Dom.Valid(d) && IsNode(d, cur)
    ensures up == this_ || (IsNode(d, up) && up < cur)
  {
    if Parent(d, cur) == NULL then this_ else Parent(d, cur)
  }

  lemma PathFrom(d: Doc, cur: int, this_: int)
    requires Dom.Valid(d) && IsNode(d, cur)
    ensures var up := Outward(d, cur, this_);
            Path(d, cur, this_) == if cur == this_ then []
                                   else [cur] + if up == this_ then [] else Path(d, up, this_)
  {
  }

  lemma NothingBubbles(page: Page, delegated: seq<Handler>)
    ensures Bubble(page, [], delegated) == []
  {
  }

  lemma BubbleAdds(page: Page, path: seq<int>, elem: int, delegated: seq<Handler>)
    ensures var bubble, matches := Bubble(page, path, delegated), Where(delegated, Matching(page, elem));
            Bubble(page, path + [elem], delegated) ==
            if elem in page.disabled || matches == [] then bubble else bubble + [Entry(elem, matches)]
  {
    assert (path + [elem])[..|path|] == path;
  }

  lemma SpliceStep(all: seq<Handler>, k: nat, stays: Handler -> bool, s: seq<Handler>, c: Criterion)
    requires k < |all| && s == Where(all[..k], stays) + all[k..] && stays == Stays(c)
    ensures var j := |Where(all[..k], stays)|;
            && s[j] == all[k]
            && if Hit(c, all[k]) then
                 && j == |Where(all[..k + 1], stays)|
                 && s[..j] + s[j + 1..] == Where(all[..k + 1], stays) + all[k + 1..]
               else
                 && j + 1 == |Where(all[..k + 1], stays)|
                 && s == Where(all[..k + 1], stays) + all[k + 1..]
  {
    hide Where, Hit;
    StaysIsMissed(c, all[k]);
    WherePrefix(all, k, stays);
    SplicedAt(Where(all[..k], stays), all, k, s);
  }

  class HandlerList {
    var handlers: seq<Handler>
    var delegateCount: nat
    var next: nat               // tells the objects that are added apart
    ghost var registry: Registry

    ghost predicate Valid()
      reads this
    {
      && registry.next == next
      && Numbered(registry.list, next) == true
      && handlers == Segments(registry.list)
      && delegateCount == |Where(registry.list, Delegates)|
    }

    constructor ()
      ensures Valid() && registry == NoHandlers
    {
      handlers, delegateCount, next := [], 0, 0;
      registry := NoHandlers;
    }

    // Delegates go in front, behind the other delegates.
    method AddHandler(r: Registration)
      requires Valid()
      modifies this
      ensures Valid() && registry == Apply(old(registry), Add(r))
    {
      hide Numbered, Where, Segments, Join, Sort;
      var h := Entered(r, next);
      AddNumbered(registry.list, next, h);
      SegmentsAdd(registry.list, h);
      WhereAdds(registry.list, h, Delegates);
      SegmentsCount(registry.list);
      if h.selector != "" {
        handlers := handlers[..delegateCount] + [h] + handlers[delegateCount..];
        delegateCount := delegateCount + 1;
      } else {
        handlers := handlers + [h];
      }
      next := next + 1;
      registry := Apply(registry, Add(r));
    }

    // The loop of `remove`: whatever the criterion hits is spliced out where it stands.
    method SpliceHits(c: Criterion)
      requires delegateCount == |Where(handlers, Delegates)|
      modifies this`handlers, this`delegateCount
      ensures handlers == Where(old(handlers), Stays(c))
      ensures delegateCount == |Where(handlers, Delegates)|
    {
      hide *;
      ghost var all, stays := handlers, Stays(c);
      ghost var seen: nat := 0;
      WhereNone(all[..0], stays);
      var j := 0;
      while j < |handlers|
        invariant seen <= |all| && 0 <= j
        invariant j == |Where(all[..seen], stays)|
        invariant handlers == Where(all[..seen], stays) + all[seen..]
        invariant delegateCount == |Where(handlers, Delegates)|
        decreases |all| - seen
      {
        var h := handlers[j];
        SpliceStep(all, seen, stays, handlers, c);
        if Hit(c, h) {
          RemovedCount(handlers, j);
          handlers := handlers[..j] + handlers[j + 1..];
          j := j - 1;
          if h.selector != "" {
            delegateCount := delegateCount - 1;
          }
        }
        j := j + 1;
        seen := seen + 1;
      }
      assert all[..seen] == all && all[seen..] == [];
    }

    method RemoveHandlers(c: Criterion)
      requires Valid()
      modifies this
      ensures Valid() && registry == Apply(old(registry), Remove(c))
    {
      hide Hit, Segments, Where, Numbered;
      SegmentsCount(registry.list);
      SpliceHits(c);
      SegmentsRemove(registry.list, c);
      WhereNumbered(registry.list, next, Stays(c));
      registry := Apply(registry, Remove(c));
      SegmentsCount(registry.list);
    }

    // Everything a handler does to the list while it runs.
    method Perform(edits: seq<Edit>)
      requires Valid()
      modifies this
      ensures Valid() && registry == ApplyAll(old(registry), edits)
    {
      var k := 0;
      while k < |edits|
        invariant k <= |edits|
        invariant Valid() && registry == ApplyAll(old(registry), edits[..k])
      {
        assert edits[..k + 1] == edits[..k] + [edits[k]];
        ApplyAllAdds(old(registry), edits[..k], edits[k]);
        match edits[k] {
          case Add(what) => AddHandler(what);
          case Remove(which) => RemoveHandlers(which);
        }
        k := k + 1;
      }
      assert edits[..k] == edits;
    }

    // The delegated handlers whose selectors select cur, asking once for each selector.
    method MatchesFor(page: Page, cur: int) returns (matches: seq<Handler>)
      requires delegateCount <= |handlers|
      ensures matches == Where(handlers[..delegateCount], Matching(page, cur))
    {
      hide Where;
      WhereNone(handlers[..0], Matching(page, cur));
      var selMatch: map<string, bool> := map[];
      matches := [];
      var i := 0;
      while i < delegateCount
        invariant i <= delegateCount
        invariant matches == Where(handlers[..i], Matching(page, cur))
        invariant forall s :: s in selMatch ==> s !in page.inherited && selMatch[s] == page.selects(cur, s)
      {
        var h := handlers[i];
        var sel := h.selector;
        WherePrefix(handlers, i, Matching(page, cur));
        if sel !in selMatch && sel !in page.inherited {
          selMatch := selMatch[sel := page.selects(cur, sel)];
        }
        if sel in page.inherited || selMatch[sel] {
          matches := matches + [h];
        }
        i := i + 1;
      }
    }

    // From the target outward to the element whose handlers these are.
    method CollectBubble(page: Page, target: int, this_: int) returns (handlerQueue: seq<Entry>)
      requires delegateCount <= |handlers| && Dom.Valid(page.doc) && IsNode(page.doc, target)
      ensures handlerQueue == Bubble(page, Path(page.doc, target, this_), handlers[..delegateCount])
    {
      hide Bubble, Matched, Where, Path, Dom.Valid;
      ghost var delegated, path := handlers[..delegateCount], Path(page.doc, target, this_);
      handlerQueue := [];
      var cur := target;
      ghost var done: seq<int> := [];
      NothingBubbles(page, delegated);
      PathFrom(page.doc, target, this_);
      while cur != this_
        invariant cur != this_ ==> IsNode(page.doc, cur)
        invariant path == done + if cur == this_ then [] else Path(page.doc, cur, this_)
        invariant handlerQueue == Bubble(page, done, delegated)
        decreases if cur == this_ then 0 else cur + 1
      {
        PathFrom(page.doc, cur, this_);
        BubbleAdds(page, done, cur, delegated);
        if cur !in page.disabled {
          var matches := MatchesFor(page, cur);
          if matches != [] {
            handlerQueue := handlerQueue + [Entry(cur, matches)];
          }
        }
        done := done + [cur];
        cur := Outward(page.doc, cur, this_);
      }
      assert done == path;
    }

    method CollectQueue(page: Page, target: int, this_: int, o: Occasion) returns (handlerQueue: seq<Entry>)
      requires Valid() && Dom.Valid(page.doc) && IsNode(page.doc, target)
      ensures handlerQueue == Queue(page, target, this_, o, registry.list)
    {
      hide Segments, Numbered, Where, Bubble, Path, Dom.Valid;
      SegmentsCount(registry.list);
      NoneDelegated(page, Path(page.doc, target, this_));
      handlerQueue := [];
      if delegateCount != 0 && !o.buttonClick {
        handlerQueue := CollectBubble(page, target, this_);
      }
      if |handlers| > delegateCount {
        handlerQueue := handlerQueue + [Entry(this_, handlers[delegateCount..])];
      }
    }

    // One handler runs, and may change both the event and the list.
    method Call(e: EventObject, r: Reaction)
      requires Valid()
      modifies this, e
      ensures Valid() && registry == ApplyAll(old(registry), r.edits)
      ensures e.Now() == After(old(e.Now()), r)
    {
      if r.stop { e.StopPropagation(); }
      if r.stopImmediate { e.StopImmediatePropagation(); }
      if r.prevent { e.PreventDefault(); }
      Perform(r.edits);
      if r.ret != Undefined {
        e.result := r.ret;
        if r.ret == False {
          e.PreventDefault();
          e.StopPropagation();
        }
      }
    }

    method CallMatches(matches: seq<Handler>, i: nat, o: Occasion, e: EventObject, react: (nat, nat) -> Reaction,
                       before: seq<(nat, nat)>) returns (log: seq<(nat, nat)>)
      requires Valid()
      modifies this, e
      ensures Progress(e.Now(), log) == RunEntry(matches, i, |matches|, Progress(old(e.Now()), before), o, react)
      ensures before <= log
      ensures Valid() && registry == ApplyAll(old(registry), EditsOf(log[|before|..], react))
    {
      hide Eligible, After, Valid;
      log := before;
      ghost var start := Progress(e.Now(), before);
      var j := 0;
      while j < |matches| && !e.immediatePropagationStopped
        invariant j <= |matches| && before <= log
        invariant Progress(e.Now(), log) == RunEntry(matches, i, j, start, o, react)
        invariant Valid() && registry == ApplyAll(old(registry), EditsOf(log[|before|..], react))
      {
        if Eligible(o, matches[j]) {
          var r := react(i, j);
          Call(e, r);
          EditsOfAdds(log[|before|..], (i, j), react);
          ApplyAllConcat(old(registry), EditsOf(log[|before|..], react), r.edits);
          assert (log + [(i, j)])[|before|..] == log[|before|..] + [(i, j)];
          log := log + [(i, j)];
        }
        j := j + 1;
      }
      HaltedEntry(matches, i, j, start, o, react);
    }

    // Handlers added or removed by the handlers that run change the list, but not this dispatch:
    // what is queued depends on the list at its beginning alone.
    method Dispatch(page: Page, target: int, this_: int, o: Occasion, e: EventObject, react: (nat, nat) -> Reaction)
      returns (queue: seq<Entry>, log: seq<(nat, nat)>)
      requires Valid() && Dom.Valid(page.doc) && IsNode(page.doc, target)
      modifies this, e
      ensures queue == Queue(page, target, this_, o, old(registry.list))
      ensures Progress(e.Now(), log) == Run(queue, |queue|, old(e.Now()), o, react)
      ensures Valid() && registry == ApplyAll(old(registry), EditsOf(log, react))
    {
      hide Valid, Queue;
      queue := CollectQueue(page, target, this_, o);
      log := [];
      var i := 0;
      while i < |queue| && !e.propagationStopped
        invariant i <= |queue|
        invariant Progress(e.Now(), log) == Run(queue, i, old(e.Now()), o, react)
        invariant Valid() && registry == ApplyAll(old(registry), EditsOf(log, react))
      {
        ghost var before := log;
        log := CallMatches(queue[i].matches, i, o, e, react, log);
        assert log == before + log[|before|..];
        EditsOfConcat(before, log[|before|..], react);
        ApplyAllConcat(old(registry), EditsOf(before, react), EditsOf(log[|before|..], react));
        i := i + 1;
      }
      HaltedRun(queue, i, old(e.Now()), o, react);
    }
  }

  lemma AddNumbered(list: seq<Handler>, next: nat, h: Handler)
    requires Numbered(list, next) && h.id == next
    ensures Numbered(list + [h], next + 1)
  {
  }

  lemma StaysIsMissed(c: Criterion, h: Handler)
    ensures Stays(c)(h) <==> !Hit(c, h)
  {
  }

  lemma WherePrefix<T>(all: seq<T>, k: nat, p: T -> bool)
    requires k < |all|
    ensures Where(all[..k + 1], p) == if p(all[k]) then Where(all[..k], p) + [all[k]] else Where(all[..k], p)
  {
    assert all[..k + 1] == all[..k] + [all[k]];
    WhereAdds(all[..k], all[k], p);
  }

  lemma SplicedAt<T>(kept: seq<T>, all: seq<T>, k: nat, s: seq<T>)
    requires k < |all| && s == kept + all[k..]
    ensures s[|kept|] == all[k]
    ensures s[..|kept|] + s[|kept| + 1..] == kept + all[k + 1..]
    ensures s == kept + [all[k]] + all[k + 1..]
  {
  }

  lemma RemovedCount(handlers: seq<Handler>, j: nat)
    requires j < |handlers|
    ensures |Where(handlers, Delegates)| ==
            |Where(handlers[..j] + handlers[j + 1..], Delegates)| + if handlers[j].selector != "" then 1 else 0
  {
    var first, last := handlers[..j], handlers[j + 1..];
    assert handlers == (first + [handlers[j]]) + last;
    WhereConcat(first + [handlers[j]], last, Delegates);
    WhereAdds(first, handlers[j], Delegates);
    WhereConcat(first, last, Delegates);
  }

  lemma {:induction false} EditsOfConcat(first: seq<(nat, nat)>, second: seq<(nat, nat)>, react: (nat, nat) -> Reaction)
    ensures EditsOf(first + second, react) == EditsOf(first, react) + EditsOf(second, react)
    decreases |second|
  {
    if second == [] {
      assert first + second == first;
    } else {
      var n := |second| - 1;
      assert first + second == (first + second[..n]) + [second[n]] && second == second[..n] + [second[n]];
      EditsOfAdds(first + second[..n], second[n], react);
      EditsOfConcat(first, second[..n], react);
    }
  }

  // Once stopped, the rest of the loop would change nothing.
  lemma {:induction false} HaltedEntry(matches: seq<Handler>, i: nat, j: nat, p: Progress, o: Occasion,
                                       react: (nat, nat) -> Reaction)
    requires j <= |matches|
    requires j == |matches| || RunEntry(matches, i, j, p, o, react).flags.immediate
    ensures RunEntry(matches, i, |matches|, p, o, react) == RunEntry(matches, i, j, p, o, react)
    decreases |matches| - j
  {
    hide Eligible;
    if j < |matches| {
      HaltedEntry(matches, i, j + 1, p, o, react);
    }
  }

  lemma {:induction false} HaltedRun(queue: seq<Entry>, i: nat, f: Flags, o: Occasion, react: (nat, nat) -> Reaction)
    requires i <= |queue|
    requires i == |queue| || Run(queue, i, f, o, react).flags.stopped
    ensures Run(queue, |queue|, f, o, react) == Run(queue, i, f, o, react)
    decreases |queue| - i
  {
    if i < |queue| {
      HaltedRun(queue, i + 1, f, o, react);
    }
  }
}
