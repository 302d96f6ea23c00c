/** What the dispatch of an event calls: the queue of handlers, from the target outward, and
    the run through it under the two kinds of propagation stop. */
module EventDispatch {
  import opened Dom
  import opened Namespaces
  import opened EventHandlers

  // The page as the dispatch sees it: `selects` tells which elements a selector selects, and
  // `inherited` which names every object inherits. The memo of the selectors seen so far is a
  // plain object, so it seems to hold an answer for these.
  datatype Page = Page(doc: Doc, disabled: set<int>, selects: (int, string) -> bool, inherited: set<string>)

  // The names that section 15.2.4 of ECMAScript 5.1 lists; implementations add others.
  const INHERITED: set<string> := {"constructor", "toString", "toLocaleString", "valueOf",
                                   "hasOwnProperty", "isPrototypeOf", "propertyIsEnumerable"}

  // What is fixed in an event: its namespaces, already sorted by whoever made the expression.
  datatype Occasion = Occasion(buttonClick: bool, exclusive: bool, namespaces: seq<string>)

  datatype Return = Undefined | False | Other(value: int)

  // What a handler does when it is called.
  datatype Reaction = Reaction(stop: bool, stopImmediate: bool, prevent: bool, ret: Return, edits: seq<Edit>)

  // The fields of an event that handlers change.
  datatype Flags = Flags(stopped: bool, immediate: bool, prevented: bool, result: Return)

  datatype Entry = Entry(elem: int, matches: seq<Handler>)

  // ---- the queue

  predicate Matched(page: Page, elem: int, selector: string) {
    selector in page.inherited || page.selects(elem, selector)
  }

  function Matching(page: Page, elem: int): Handler -> bool {
    (h: Handler) => Matched(page, elem, h.selector)
  }

  // The elements from cur up to, but not including, the one whose handlers are dispatched.
  function Path(d: Doc, cur: int, this_: int): (path: seq<int>)
    requires Dom.Valid(d) && IsNode(d, cur)
    ensures forall i :: 0 <= i < |path| ==> IsNode(d, path[i])
    decreases cur
  {
    if cur == this_ then []
    else [cur] + if Parent(d, cur) == NULL then [] else Path(d, Parent(d, cur), this_)
  }

  function Visit(page: Page, elem: int, delegated: seq<Handler>): seq<Entry> {
    var matches := Where(delegated, Matching(page, elem));
    if elem in page.disabled || matches == [] then [] else [Entry(elem, matches)]
  }

  function Bubble(page: Page, path: seq<int>, delegated: seq<Handler>): seq<Entry> {
    if path == [] then [] else Bubble(page, path[..|path| - 1], delegated) + Visit(page, path[|path| - 1], delegated)
  }

  function Queue(page: Page, target: int, this_: int, o: Occasion, list: seq<Handler>): seq<Entry>
    requires Dom.Valid(page.doc) && IsNode(page.doc, target)
  {
    (if o.buttonClick then [] else Bubble(page, Path(page.doc, target, this_), Where(list, Delegates))) +
    (if Where(list, Direct) == [] then [] else [Entry(this_, Where(list, Direct))])
  }

  // ---- the run

  // Whether the event's namespaces let a handler be called.
  predicate Eligible(o: Occasion, h: Handler) {
    var namespace := Join(o.namespaces);
    || (!o.exclusive && namespace == "")
    || (namespace == "" && h.namespace == "")
    || (namespace != "" && Test(Pattern(o.namespaces), h.namespace))
  }

  // For plain namespaces: an event without any calls every handler, an exclusive one only those
  // without; an event with namespaces calls the handlers that have them all.
  lemma EligibleMeans(o: Occasion, r: Registration, id: nat)
    requires PlainNames(o.namespaces) && Sorted(o.namespaces) && Names(r.namespaces) && OneLine(r.namespaces)
    ensures Eligible(o, Entered(r, id)) <==> Fits(o, r)
  {
    hide Names, Test, Pattern, OneLine, Sorted, Sort, Join;
    EmptySort(r.namespaces);
    JoinedIsEmpty(o.namespaces);
    JoinedIsEmpty(Sort(r.namespaces));
    if o.namespaces != [] {
      PatternIsInclusion(o.namespaces, r.namespaces, o.namespaces, Sort(r.namespaces));
    }
  }

  ghost predicate Fits(o: Occasion, r: Registration) {
    if o.namespaces == [] then !o.exclusive || r.namespaces == []
    else multiset(o.namespaces) <= multiset(r.namespaces)
  }

  lemma JoinedIsEmpty(names: seq<string>)
    requires Names(names) || PlainNames(names)
    ensures Join(names) == "" <==> names == []
  {
  }

  lemma EmptySort(names: seq<string>)
    requires Names(names)
    ensures Names(Sort(names)) && (Sort(names) == [] <==> names == [])
  {
    hide Sort, Sorted;
    SameNames(names, Sort(names));
    assert |multiset(Sort(names))| == |multiset(names)|;
  }

  // What keeps the event from going further out.
  predicate Stops(r: Reaction) { r.stop || r.stopImmediate || r.ret == False }

  function After(f: Flags, r: Reaction): Flags {
    Flags(f.stopped || r.stop || r.stopImmediate || r.ret == False, f.immediate || r.stopImmediate,
          f.prevented || r.prevent || r.ret == False,
          if r.ret == Undefined then f.result else r.ret)
  }

  // The calls made so far, as positions in the queue, and the event.
  datatype Progress = Progress(flags: Flags, log: seq<(nat, nat)>)

  function RunEntry(matches: seq<Handler>, i: nat, k: nat, p: Progress, o: Occasion,
                    react: (nat, nat) -> Reaction): Progress
    requires k <= |matches|
  {
    if k == 0 then p else
      var q := RunEntry(matches, i, k - 1, p, o, react);
      if q.flags.immediate || !Eligible(o, matches[k - 1]) then q
      else Progress(After(q.flags, react(i, k - 1)), q.log + [(i, k - 1)])
  }

  function Run(queue: seq<Entry>, k: nat, f: Flags, o: Occasion, react: (nat, nat) -> Reaction): Progress
    requires k <= |queue|
  {
    if k == 0 then Progress(f, []) else
      var p := Run(queue, k - 1, f, o, react);
      if p.flags.stopped then p else RunEntry(queue[k - 1].matches, k - 1, |queue[k - 1].matches|, p, o, react)
  }

  // ---- which calls are made, and in what order

  predicate Later(c: (nat, nat), d: (nat, nat)) {
    c.0 < d.0 || (c.0 == d.0 && c.1 < d.1)
  }

  predicate InOrder(log: seq<(nat, nat)>) {
    forall m, n :: 0 <= m < n < |log| ==> Later(log[m], log[n])
  }

  predicate FlagsTell(f: Flags, p: Progress, react: (nat, nat) -> Reaction) {
    && (p.flags.stopped <==> f.stopped || exists c :: c in p.log && Stops(react(c.0, c.1)))
    && (p.flags.immediate <==> f.immediate || exists c :: c in p.log && react(c.0, c.1).stopImmediate)
    && (p.flags.prevented <==> f.prevented || exists c :: c in p.log && Prevents(react(c.0, c.1)))
    && p.flags.result == LastReturn(f.result, p.log, react)
  }

  predicate Prevents(r: Reaction) { r.prevent || r.ret == False }

  // The last return that is not undefined, or what was there before.
  function LastReturn(before: Return, log: seq<(nat, nat)>, react: (nat, nat) -> Reaction): Return {
    if log == [] then before else
      var c := log[|log| - 1];
      if react(c.0, c.1).ret != Undefined then react(c.0, c.1).ret else LastReturn(before, log[..|log| - 1], react)
  }

  // No call before place (i, j) has kept the event from getting there.
  predicate Free(f: Flags, log: seq<(nat, nat)>, i: nat, j: nat, react: (nat, nat) -> Reaction) {
    && !f.stopped && !f.immediate
    && (forall c :: c in log && c.0 < i ==> !Stops(react(c.0, c.1)))
    && (forall c :: c in log && c.0 == i && c.1 < j ==> !react(c.0, c.1).stopImmediate)
  }

  // What holds after k entries of the queue and m places of the next one.
  predicate Told(queue: seq<Entry>, k: nat, m: nat, f: Flags, p: Progress, o: Occasion, react: (nat, nat) -> Reaction)
    requires k <= |queue| && (m == 0 || (k < |queue| && m <= |queue[k].matches|))
  {
    && FlagsTell(f, p, react)
    && InOrder(p.log)
    && (forall c :: c in p.log ==> c.0 < k || (c.0 == k && c.1 < m))
    && (forall i: nat, j: nat :: i < |queue| && j < |queue[i].matches| && (i < k || (i == k && j < m)) ==>
          ((i, j) in p.log <==> Eligible(o, queue[i].matches[j]) && Free(f, p.log, i, j, react)))
  }

  lemma FreeExtends(f: Flags, log: seq<(nat, nat)>, c: (nat, nat), i: nat, j: nat, react: (nat, nat) -> Reaction)
    requires !Later(c, (i, j))
    ensures Free(f, log + [c], i, j, react) <==> Free(f, log, i, j, react)
  {
    assert forall d :: d in log + [c] <==> d in log || d == c;
  }

  lemma LogGrows(f: Flags, p: Progress, c: (nat, nat), react: (nat, nat) -> Reaction)
    requires FlagsTell(f, p, react)
    ensures FlagsTell(f, Progress(After(p.flags, react(c.0, c.1)), p.log + [c]), react)
  {
    assert forall d :: d in p.log + [c] <==> d in p.log || d == c;
    assert (p.log + [c])[..|p.log|] == p.log;
  }

  // Inside an entry that was reached, a place is free as long as nothing stopped it at once.
  lemma FreeHere(f: Flags, p: Progress, i: nat, j: nat, react: (nat, nat) -> Reaction)
    requires FlagsTell(f, p, react) && !f.stopped
    requires forall c :: c in p.log ==> Later(c, (i, j))
    requires forall c :: c in p.log && c.0 < i ==> !Stops(react(c.0, c.1))
    ensures Free(f, p.log, i, j, react) <==> !p.flags.immediate
  {
  }

  lemma NotStopped(f: Flags, p: Progress, react: (nat, nat) -> Reaction)
    requires FlagsTell(f, p, react) && !p.flags.stopped
    ensures !f.stopped && forall c :: c in p.log ==> !Stops(react(c.0, c.1))
  {
  }

  lemma {:induction false} EntryTold(queue: seq<Entry>, k: nat, m: nat, f: Flags, p: Progress, o: Occasion,
                                     react: (nat, nat) -> Reaction)
    requires k < |queue| && m <= |queue[k].matches|
    requires Told(queue, k, 0, f, p, o, react) && !p.flags.stopped
    ensures Told(queue, k, m, f, RunEntry(queue[k].matches, k, m, p, o, react), o, react)
    ensures var q := RunEntry(queue[k].matches, k, m, p, o, react);
            !f.stopped && forall c :: c in q.log && c.0 < k ==> !Stops(react(c.0, c.1))
    decreases m
  {
    hide Free, FlagsTell, Eligible, After, Later, InOrder;
    if m == 0 {
      NotStopped(f, p, react);
    } else {
      EntryTold(queue, k, m - 1, f, p, o, react);
      var q := RunEntry(queue[k].matches, k, m - 1, p, o, react);
      PlaceTold(queue, k, m - 1, f, q, o, react);
    }
  }

  lemma PlaceTold(queue: seq<Entry>, k: nat, j: nat, f: Flags, q: Progress, o: Occasion, react: (nat, nat) -> Reaction)
    requires k < |queue| && j < |queue[k].matches| && Told(queue, k, j, f, q, o, react)
    requires !f.stopped && forall c :: c in q.log && c.0 < k ==> !Stops(react(c.0, c.1))
    ensures var r := if q.flags.immediate || !Eligible(o, queue[k].matches[j]) then q
                     else Progress(After(q.flags, react(k, j)), q.log + [(k, j)]);
            && Told(queue, k, j + 1, f, r, o, react)
            && forall c :: c in r.log && c.0 < k ==> !Stops(react(c.0, c.1))
  {
    hide Free, FlagsTell, Eligible, After;
    FreeHere(f, q, k, j, react);
    if !q.flags.immediate && Eligible(o, queue[k].matches[j]) {
      var log := q.log + [(k, j)];
      LogGrows(f, q, (k, j), react);
      forall i: nat, n: nat | i < |queue| && n < |queue[i].matches| && (i < k || (i == k && n <= j))
        ensures Free(f, log, i, n, react) <==> Free(f, q.log, i, n, react)
      {
        FreeExtends(f, q.log, (k, j), i, n, react);
      }
      assert forall d :: d in log <==> d in q.log || d == (k, j);
      forall m, n | 0 <= m < n < |log| ensures Later(log[m], log[n]) {
        assert log[m] in q.log;
      }
    }
  }

  lemma {:induction false} RunTold(queue: seq<Entry>, k: nat, f: Flags, o: Occasion, react: (nat, nat) -> Reaction)
    requires k <= |queue|
    ensures Told(queue, k, 0, f, Run(queue, k, f, o, react), o, react)
    decreases k
  {
    hide Free, Eligible, After, Later;
    if k > 0 {
      RunTold(queue, k - 1, f, o, react);
      var p := Run(queue, k - 1, f, o, react);
      if p.flags.stopped {
        StoppedTold(queue, k - 1, f, p, o, react);
      } else {
        EntryTold(queue, k - 1, |queue[k - 1].matches|, f, p, o, react);
      }
    }
  }

  lemma StoppedTold(queue: seq<Entry>, k: nat, f: Flags, p: Progress, o: Occasion, react: (nat, nat) -> Reaction)
    requires k < |queue| && Told(queue, k, 0, f, p, o, react) && p.flags.stopped
    ensures Told(queue, k + 1, 0, f, p, o, react)
  {
    hide Eligible;
    forall j: nat | j < |queue[k].matches| ensures !Free(f, p.log, k, j, react) {
    }
  }

  // Of all the places in the queue exactly those are called, once each and in the order of the
  // queue, whose namespaces fit, and before which no call in an earlier entry has stopped the
  // event and no call in the same entry has stopped it at once. What became of the event is
  // what the calls have made of it.
  lemma CalledExactly(queue: seq<Entry>, f: Flags, o: Occasion, react: (nat, nat) -> Reaction)
    ensures var log := Run(queue, |queue|, f, o, react).log;
            && InOrder(log)
            && (forall c :: c in log ==> c.0 < |queue| && c.1 < |queue[c.0].matches|)
            && (forall i: nat, j: nat :: i < |queue| && j < |queue[i].matches| ==>
                  ((i, j) in log <==> Eligible(o, queue[i].matches[j]) && Free(f, log, i, j, react)))
    ensures FlagsTell(f, Run(queue, |queue|, f, o, react), react)
  {
    RunTold(queue, |queue|, f, o, react);
    RunInside(queue, |queue|, f, o, react);
  }

  // The same for a place whose handler was registered with proper namespaces.
  lemma CalledIfFits(queue: seq<Entry>, f: Flags, o: Occasion, react: (nat, nat) -> Reaction, i: nat, j: nat,
                     r: Registration, id: nat)
    requires i < |queue| && j < |queue[i].matches| && queue[i].matches[j] == Entered(r, id)
    requires PlainNames(o.namespaces) && Sorted(o.namespaces) && Names(r.namespaces) && OneLine(r.namespaces)
    ensures var log := Run(queue, |queue|, f, o, react).log;
            (i, j) in log <==> Fits(o, r) && Free(f, log, i, j, react)
  {
    hide Free, Fits, Eligible, Run;
    CalledExactly(queue, f, o, react);
    EligibleMeans(o, r, id);
  }

  lemma {:induction false} RunInside(queue: seq<Entry>, k: nat, f: Flags, o: Occasion, react: (nat, nat) -> Reaction)
    requires k <= |queue|
    ensures forall c :: c in Run(queue, k, f, o, react).log ==> c.0 < k && c.1 < |queue[c.0].matches|
    decreases k
  {
    if k > 0 {
      RunInside(queue, k - 1, f, o, react);
      EntryInside(queue[k - 1].matches, k - 1, |queue[k - 1].matches|, Run(queue, k - 1, f, o, react), o, react);
    }
  }

  lemma {:induction false} EntryInside(matches: seq<Handler>, i: nat, k: nat, p: Progress, o: Occasion,
                                       react: (nat, nat) -> Reaction)
    requires k <= |matches|
    ensures forall c :: c in RunEntry(matches, i, k, p, o, react).log ==> c in p.log || (c.0 == i && c.1 < k)
    decreases k
  {
    if k > 0 {
      EntryInside(matches, i, k - 1, p, o, react);
    }
  }

  // ---- what is in the queue, and in what order

  lemma {:induction false} PathIsAncestors(d: Doc, cur: int, this_: int, x: int)
    requires Dom.Valid(d) && IsNode(d, cur) && IsNode(d, x) && (cur == this_ || Ancestor(d, this_, cur))
    ensures x in Path(d, cur, this_) <==> cur != this_ && (x == cur || (Ancestor(d, x, cur) && Ancestor(d, this_, x)))
    decreases cur
  {
    if cur != this_ {
      var up := Parent(d, cur);
      PathIsAncestors(d, up, this_, x);
      if Along(d, Up, up, up) { AlongBelow(d, Up, up, up); }
      if Along(d, Up, x, up) && Along(d, Up, this_, x) {
        AlongBelow(d, Up, x, up);
        AlongBelow(d, Up, this_, x);
      }
    }
  }

  predicate Climbs(d: Doc, cur: int, path: seq<int>)
    requires Dom.Valid(d) && IsNode(d, cur) && forall i :: 0 <= i < |path| ==> IsNode(d, path[i])
  {
    (forall i :: 0 <= i < |path| ==> path[i] == cur || Ancestor(d, path[i], cur)) &&
    (forall i, j :: 0 <= i < j < |path| ==> Ancestor(d, path[j], path[i]))
  }

  // Along the path every node is below all the later ones.
  lemma {:induction false} PathClimbs(d: Doc, cur: int, this_: int)
    requires Dom.Valid(d) && IsNode(d, cur)
    ensures Climbs(d, cur, Path(d, cur, this_))
    decreases cur
  {
    if cur != this_ && Parent(d, cur) != NULL {
      PathClimbs(d, Parent(d, cur), this_);
      var rest := Path(d, Parent(d, cur), this_);
      var path := [cur] + rest;
      forall j | 0 < j < |path| ensures Ancestor(d, path[j], cur) {
        assert path[j] == rest[j - 1] && Go(d, Up, cur) == Parent(d, cur);
        assert rest[j - 1] == Parent(d, cur) || Along(d, Up, rest[j - 1], Parent(d, cur));
      }
    }
  }

  // Entry i of the bubbling part is for place at[i] of the path.
  predicate Placed(page: Page, path: seq<int>, delegated: seq<Handler>, entries: seq<Entry>, at: seq<nat>) {
    && |at| == |entries|
    && (forall i :: 0 <= i < |at| ==> at[i] < |path| && Visit(page, path[at[i]], delegated) == [entries[i]])
    && (forall i, j :: 0 <= i < j < |at| ==> at[i] < at[j])
    && (forall n :: 0 <= n < |path| && n !in at ==> Visit(page, path[n], delegated) == [])
  }

  lemma {:induction false} BubblePlaced(page: Page, path: seq<int>, delegated: seq<Handler>) returns (at: seq<nat>)
    ensures Placed(page, path, delegated, Bubble(page, path, delegated), at)
    decreases |path|
  {
    hide Visit;
    if path == [] {
      at := [];
    } else {
      var n := |path| - 1;
      at := BubblePlaced(page, path[..n], delegated);
      if Visit(page, path[n], delegated) != [] {
        VisitOnce(page, path[n], delegated);
        at := at + [n];
      }
    }
  }

  lemma VisitOnce(page: Page, elem: int, delegated: seq<Handler>)
    ensures |Visit(page, elem, delegated)| <= 1
  {
  }

  predicate Queued(queue: seq<Entry>, elem: int, h: Handler) {
    exists i :: 0 <= i < |queue| && queue[i].elem == elem && h in queue[i].matches
  }

  lemma VisitHas(page: Page, elem: int, list: seq<Handler>, h: Handler)
    ensures Queued(Visit(page, elem, Where(list, Delegates)), elem, h) <==>
            elem !in page.disabled && h in list && h.selector != "" && Matched(page, elem, h.selector)
  {
    var delegated := Where(list, Delegates);
    WhereHas(list, h, Delegates);
    WhereHas(delegated, h, Matching(page, elem));
    if Queued([Entry(elem, Where(delegated, Matching(page, elem)))], elem, h) {
      assert h in Where(delegated, Matching(page, elem));
    }
    if h in Where(delegated, Matching(page, elem)) {
      assert [Entry(elem, Where(delegated, Matching(page, elem)))][0].elem == elem;
    }
  }

  lemma BubbleHas(page: Page, path: seq<int>, list: seq<Handler>, elem: int, h: Handler)
    ensures Queued(Bubble(page, path, Where(list, Delegates)), elem, h) <==>
            elem in path && elem !in page.disabled && h in list && h.selector != "" && Matched(page, elem, h.selector)
  {
    hide Where, Delegates, Matched;
    var delegated := Where(list, Delegates);
    var entries := Bubble(page, path, delegated);
    var at := BubblePlaced(page, path, delegated);
    VisitHas(page, elem, list, h);
    if Queued(entries, elem, h) {
      var i :| 0 <= i < |entries| && entries[i].elem == elem && h in entries[i].matches;
      assert Visit(page, path[at[i]], delegated)[0] == entries[i];
    }
    if elem in path && Queued(Visit(page, elem, delegated), elem, h) {
      var n :| 0 <= n < |path| && path[n] == elem;
      assert n in at;
      var i :| 0 <= i < |at| && at[i] == n;
      assert entries[i] == Visit(page, elem, delegated)[0];
    }
  }

  lemma QueuedConcat(first: seq<Entry>, second: seq<Entry>, elem: int, h: Handler)
    ensures Queued(first + second, elem, h) <==> Queued(first, elem, h) || Queued(second, elem, h)
  {
    var all := first + second;
    assert forall i :: 0 <= i < |first| ==> all[i] == first[i];
    assert forall i :: 0 <= i < |second| ==> all[|first| + i] == second[i];
  }

  // A handler is queued for an element exactly when it is bound to the dispatching element
  // directly, or delegates to this one: an enabled element on the way up that its selector
  // selects.
  lemma QueuedExactly(page: Page, target: int, this_: int, o: Occasion, list: seq<Handler>, elem: int, h: Handler)
    requires Dom.Valid(page.doc) && IsNode(page.doc, target) && IsNode(page.doc, elem)
    requires target == this_ || Ancestor(page.doc, this_, target)
    ensures Queued(Queue(page, target, this_, o, list), elem, h) <==>
            h in list &&
            if h.selector == "" then elem == this_
            else !o.buttonClick && elem !in page.disabled &&
                 (h.selector in page.inherited || page.selects(elem, h.selector)) &&
                 Ancestor(page.doc, this_, elem) && (elem == target || Ancestor(page.doc, elem, target))
  {
    hide Bubble, Path;
    var path := Path(page.doc, target, this_);
    var bubble := if o.buttonClick then [] else Bubble(page, path, Where(list, Delegates));
    var direct := if Where(list, Direct) == [] then [] else [Entry(this_, Where(list, Direct))];
    QueuedConcat(bubble, direct, elem, h);
    BubbleHas(page, path, list, elem, h);
    WhereHas(list, h, Direct);
    PathIsAncestors(page.doc, target, this_, elem);
    if Along(page.doc, Up, this_, elem) { AlongBelow(page.doc, Up, this_, elem); }
    if Along(page.doc, Up, elem, target) { AlongBelow(page.doc, Up, elem, target); }
    DirectHas(this_, Where(list, Direct), elem, h);
  }

  lemma DirectHas(this_: int, direct: seq<Handler>, elem: int, h: Handler)
    ensures Queued(if direct == [] then [] else [Entry(this_, direct)], elem, h) <==> elem == this_ && h in direct
  {
    if h in direct { assert [Entry(this_, direct)][0].elem == this_; }
  }

  // The queue goes from the target outward, and on one element in the order of registration.
  lemma QueueOrder(page: Page, target: int, this_: int, o: Occasion, list: seq<Handler>, next: nat)
    requires Dom.Valid(page.doc) && IsNode(page.doc, target) && Numbered(list, next)
    requires target == this_ || Ancestor(page.doc, this_, target)
    ensures var queue := Queue(page, target, this_, o, list);
            && (forall i :: 0 <= i < |queue| ==>
                  IsNode(page.doc, queue[i].elem) && queue[i].matches != [] && Numbered(queue[i].matches, next))
            && (forall i, j :: 0 <= i < j < |queue| ==> Ancestor(page.doc, queue[j].elem, queue[i].elem))
  {
    hide Matched, Bubble, Path;
    var path := Path(page.doc, target, this_);
    var delegated := Where(list, Delegates);
    var entries := Bubble(page, path, delegated);
    var at := BubblePlaced(page, path, delegated);
    PathClimbs(page.doc, target, this_);
    WhereNumbered(list, next, Delegates);
    WhereNumbered(list, next, Direct);
    if target != this_ { AlongBelow(page.doc, Up, this_, target); }
    forall i | 0 <= i < |entries|
      ensures entries[i].elem == path[at[i]] && entries[i].matches != [] && Numbered(entries[i].matches, next)
      ensures Ancestor(page.doc, this_, entries[i].elem)
    {
      var elem := path[at[i]];
      assert Visit(page, elem, delegated)[0] == entries[i];
      WhereNumbered(delegated, next, Matching(page, elem));
      PathIsAncestors(page.doc, target, this_, elem);
    }
  }

  // ---- the memo

  // The page if the memo held nothing but what was put into it.
  function Asked(page: Page): Page {
    page.(inherited := {})
  }

  lemma {:induction false} WhereSame(s: seq<Handler>, p: Handler -> bool, q: Handler -> bool)
    requires forall h :: h in s ==> p(h) == q(h)
    ensures Where(s, p) == Where(s, q)
    decreases |s|
  {
    if s != [] {
      WhereSame(s[..|s| - 1], p, q);
    }
  }

  lemma {:induction false} BubbleSame(page: Page, path: seq<int>, delegated: seq<Handler>)
    requires forall h :: h in delegated ==> h.selector !in page.inherited
    ensures Bubble(page, path, delegated) == Bubble(Asked(page), path, delegated)
    decreases |path|
  {
    if path != [] {
      var elem := path[|path| - 1];
      WhereSame(delegated, Matching(page, elem), Matching(Asked(page), elem));
      BubbleSame(page, path[..|path| - 1], delegated);
    }
  }

  // Neither a selector of list nor any dispatch to it is confused by the memo.
  ghost predicate MemoHarmless(list: seq<Handler>, inherited: set<string>) {
    forall page: Page, target: int, this_: int, o: Occasion ::
      page.inherited == inherited && Dom.Valid(page.doc) && IsNode(page.doc, target) ==>
        Queue(page, target, this_, o, list) == Queue(Asked(page), target, this_, o, list)
  }

  // A document, its root element and a child of that, none of which any selector selects.
  function Unselected(inherited: set<string>): Page {
    Page(Doc([NULL, 0, 1], [false, true, true]), {}, (elem, selector) => false, inherited)
  }

  lemma UnselectedValid(inherited: set<string>)
    ensures Dom.Valid(Unselected(inherited).doc)
  {
  }

  // For given handlers, what is queued is on every page, for every target and event, what asking
  // for each selector would queue, if and only if no handler delegates by an inherited name.
  lemma MemoIsRight(list: seq<Handler>, inherited: set<string>)
    ensures MemoHarmless(list, inherited) <==> forall h :: h in list && Delegates(h) ==> h.selector !in inherited
  {
    if forall h :: h in list && Delegates(h) ==> h.selector !in inherited {
      var delegated := Where(list, Delegates);
      forall h | h in delegated ensures h.selector !in inherited { WhereHas(list, h, Delegates); }
      forall page: Page, target: int, this_: int, o: Occasion
        | page.inherited == inherited && Dom.Valid(page.doc) && IsNode(page.doc, target)
        ensures Queue(page, target, this_, o, list) == Queue(Asked(page), target, this_, o, list)
      {
        BubbleSame(page, Path(page.doc, target, this_), delegated);
      }
    } else {
      var h :| h in list && Delegates(h) && h.selector in inherited;
      ConfusedQueue(list, inherited, h);
    }
  }

  lemma ConfusedQueue(list: seq<Handler>, inherited: set<string>, h: Handler)
    requires h in list && Delegates(h) && h.selector in inherited
    ensures !MemoHarmless(list, inherited)
  {
    var page, o := Unselected(inherited), Occasion(false, false, []);
    UnselectedValid(inherited);
    assert Along(page.doc, Up, 1, 2);
    QueuedExactly(page, 2, 1, o, list, 2, h);
    QueuedExactly(Asked(page), 2, 1, o, list, 2, h);
    hide Queue, Queued;
    assert Queue(page, 2, 1, o, list) != Queue(Asked(page), 2, 1, o, list);
  }

  // On such a page a handler that delegates to `constructor` is called for the child.
  lemma UnselectedIsCalled(f: Flags, react: (nat, nat) -> Reaction)
    requires !f.stopped && !f.immediate
    ensures var page, o := Unselected(INHERITED), Occasion(false, false, []);
            var h := Handler(0, "click", 1, "constructor", "");
            && Dom.Valid(page.doc) && !page.selects(2, h.selector)
            && var queue := Queue(page, 2, 1, o, [h]);
               && queue == [Entry(2, [h])]
               && Run(queue, |queue|, f, o, react).log == [(0, 0)]
  {
    var page, o := Unselected(INHERITED), Occasion(false, false, []);
    var h := Handler(0, "click", 1, "constructor", "");
    UnselectedValid(INHERITED);
    assert [h][..0] == [];
    assert Where([h], Delegates) == [h] && Where([h], Direct) == [];
    assert Parent(page.doc, 2) == 1 && Path(page.doc, 1, 1) == [];
    assert Path(page.doc, 2, 1) == [2];
    assert Where([h], Matching(page, 2)) == [h];
    assert [2][..0] == [];
    assert Bubble(page, [2], [h]) == [Entry(2, [h])];
    OneCall(h, f, o, react);
  }

  lemma OneCall(h: Handler, f: Flags, o: Occasion, react: (nat, nat) -> Reaction)
    requires !f.stopped && !f.immediate && !o.exclusive && Join(o.namespaces) == ""
    ensures Run([Entry(2, [h])], 1, f, o, react).log == [(0, 0)]
  {
    var queue := [Entry(2, [h])];
    var p := Progress(f, []);
    assert Run(queue, 0, f, o, react) == p;
    assert RunEntry([h], 0, 0, p, o, react) == p;
    assert RunEntry([h], 0, 1, p, o, react).log == [] + [(0, 0)];
    assert Run(queue, 1, f, o, react) == RunEntry([h], 0, 1, p, o, react);
  }
}
