/** The handlers of one element for one type of event: what adding and removing mean for the
    registrations, and how the list splits into delegated and directly bound handlers. */
module EventHandlers {
  import opened Namespaces
  import opened Options

  // A registered handler. `id` tells registrations apart, in the order in which they were made;
  // `guid` is shared by all registrations of one function. No selector is the empty string.
  datatype Handler = Handler(id: nat, origType: string, guid: nat, selector: string, namespace: string)

  // What is passed to `add`, with the namespaces as they are split from the type.
  datatype Registration = Registration(origType: string, guid: nat, selector: string, namespaces: seq<string>)

  // What is passed to `remove`.
  datatype Criterion = Criterion(mappedTypes: bool, origType: string, guid: Option<nat>, namespaces: seq<string>,
                                 selector: string)

  datatype Edit = Add(what: Registration) | Remove(which: Criterion)

  // The registrations that are left, in the order in which they were made.
  datatype Registry = Registry(list: seq<Handler>, next: nat)

  function Entered(r: Registration, id: nat): Handler {
    Handler(id, r.origType, r.guid, r.selector, Join(Sort(r.namespaces)))
  }

  predicate Hit(c: Criterion, h: Handler) {
    && (c.mappedTypes || c.origType == h.origType)
    && (c.guid.None? || c.guid.value == h.guid)
    && (c.namespaces == [] || (SortKeepsSome(c.namespaces); Test(Pattern(Sort(c.namespaces)), h.namespace)))
    && (c.selector == "" || c.selector == h.selector || (c.selector == "**" && h.selector != ""))
  }

  lemma SortKeepsSome(names: seq<string>)
    requires names != []
    ensures Sort(names) != []
  {
    assert names[0] in multiset(Sort(names));
  }

  // For plain namespaces the expression asks for inclusion.
  lemma HitMeans(c: Criterion, r: Registration, id: nat)
    requires PlainNames(c.namespaces) && Names(r.namespaces) && OneLine(r.namespaces)
    ensures Hit(c, Entered(r, id)) <==>
            && (c.mappedTypes || c.origType == r.origType)
            && (c.guid.Some? ==> c.guid.value == r.guid)
            && multiset(c.namespaces) <= multiset(r.namespaces)
            && (c.selector == "" || c.selector == r.selector || (c.selector == "**" && r.selector != ""))
  {
    if c.namespaces != [] {
      PatternIsInclusion(c.namespaces, r.namespaces, Sort(c.namespaces), Sort(r.namespaces));
    }
  }

  // ---- selecting from a list, in its order

  function Where<T>(s: seq<T>, p: T -> bool): (r: seq<T>)
    ensures |r| <= |s|
  {
    if s == [] then [] else
      Where(s[..|s| - 1], p) + if p(s[|s| - 1]) then [s[|s| - 1]] else []
  }

  lemma WhereAdds<T>(s: seq<T>, x: T, p: T -> bool)
    ensures Where(s + [x], p) == Where(s, p) + if p(x) then [x] else []
  {
    assert (s + [x])[..|s|] == s;
  }

  lemma {:induction false} WhereConcat<T>(s: seq<T>, t: seq<T>, p: T -> bool)
    ensures Where(s + t, p) == Where(s, p) + Where(t, p)
    decreases |t|
  {
    if t == [] {
      assert s + t == s;
    } else {
      var n := |t| - 1;
      assert s + t == (s + t[..n]) + [t[n]] && t == t[..n] + [t[n]];
      WhereAdds(s + t[..n], t[n], p);
      WhereConcat(s, t[..n], p);
    }
  }

  lemma {:induction false} WhereHas<T>(s: seq<T>, x: T, p: T -> bool)
    ensures x in Where(s, p) <==> x in s && p(x)
    decreases |s|
  {
    if s != [] {
      var n := |s| - 1;
      WhereHas(s[..n], x, p);
      assert s == s[..n] + [s[n]];
    }
  }

  lemma {:induction false} WhereTwice<T>(s: seq<T>, p: T -> bool, q: T -> bool)
    ensures Where(Where(s, p), q) == Where(Where(s, q), p)
    decreases |s|
  {
    if s != [] {
      var n := |s| - 1;
      WhereTwice(s[..n], p, q);
      WhereAdds(Where(s[..n], p), s[n], q);
      WhereAdds(Where(s[..n], q), s[n], p);
      var one := [s[n]];
      assert Where(s[..n], p) + [] == Where(s[..n], p) && Where(s[..n], q) + [] == Where(s[..n], q);
    }
  }

  lemma {:induction false} WhereAll<T>(s: seq<T>, p: T -> bool)
    requires forall i :: 0 <= i < |s| ==> p(s[i])
    ensures Where(s, p) == s
    decreases |s|
  {
    if s != [] {
      var n := |s| - 1;
      WhereAll(s[..n], p);
      assert s == s[..n] + [s[n]];
    }
  }

  lemma {:induction false} WhereNone<T>(s: seq<T>, p: T -> bool)
    requires forall i :: 0 <= i < |s| ==> !p(s[i])
    ensures Where(s, p) == []
    decreases |s|
  {
    if s != [] {
      WhereNone(s[..|s| - 1], p);
    }
  }

  // ---- the two segments

  predicate Delegates(h: Handler) { h.selector != "" }
  predicate Direct(h: Handler) { h.selector == "" }

  function Segments(list: seq<Handler>): seq<Handler> {
    Where(list, Delegates) + Where(list, Direct)
  }

  function Stays(c: Criterion): Handler -> bool {
    h => !Hit(c, h)
  }

  function Apply(r: Registry, e: Edit): Registry {
    match e
    case Add(what) => Registry(r.list + [Entered(what, r.next)], r.next + 1)
    case Remove(which) => Registry(Where(r.list, Stays(which)), r.next)
  }

  function ApplyAll(r: Registry, edits: seq<Edit>): Registry
    decreases |edits|
  {
    if edits == [] then r else Apply(ApplyAll(r, edits[..|edits| - 1]), edits[|edits| - 1])
  }

  lemma ApplyAllAdds(r: Registry, edits: seq<Edit>, e: Edit)
    ensures ApplyAll(r, edits + [e]) == Apply(ApplyAll(r, edits), e)
  {
    assert (edits + [e])[..|edits|] == edits;
  }

  lemma {:induction false} ApplyAllConcat(r: Registry, first: seq<Edit>, second: seq<Edit>)
    ensures ApplyAll(r, first + second) == ApplyAll(ApplyAll(r, first), second)
    decreases |second|
  {
    if second == [] {
      assert first + second == first;
    } else {
      var n := |second| - 1;
      assert first + second == (first + second[..n]) + [second[n]] && second == second[..n] + [second[n]];
      ApplyAllAdds(r, first + second[..n], second[n]);
      ApplyAllConcat(r, first, second[..n]);
    }
  }

  // A handler with a selector goes behind the delegated ones, any other at the end.
  lemma SegmentsAdd(list: seq<Handler>, h: Handler)
    ensures var n := |Where(list, Delegates)|;
            Segments(list + [h]) == if Delegates(h) then Segments(list)[..n] + [h] + Segments(list)[n..]
                                    else Segments(list) + [h]
  {
    WhereAdds(list, h, Delegates);
    WhereAdds(list, h, Direct);
    hide Where;
    var d, r := Where(list, Delegates), Where(list, Direct);
    assert (d + r)[..|d|] == d && (d + r)[|d|..] == r;
    assert d + (r + [h]) == (d + r) + [h];
  }

  // Removing from the list keeps it split, and keeps the order in both segments.
  lemma SegmentsRemove(list: seq<Handler>, c: Criterion)
    ensures Segments(Where(list, Stays(c))) == Where(Segments(list), Stays(c))
  {
    WhereTwice(list, Delegates, Stays(c));
    WhereTwice(list, Direct, Stays(c));
    WhereConcat(Where(list, Delegates), Where(list, Direct), Stays(c));
  }

  lemma SegmentsCount(list: seq<Handler>)
    ensures |Where(Segments(list), Delegates)| == |Where(list, Delegates)|
    ensures Segments(list)[..|Where(list, Delegates)|] == Where(list, Delegates)
    ensures Segments(list)[|Where(list, Delegates)|..] == Where(list, Direct)
  {
    var d, r := Where(list, Delegates), Where(list, Direct);
    WhereConcat(d, r, Delegates);
    forall i | 0 <= i < |d| ensures Delegates(d[i]) { WhereHas(list, d[i], Delegates); }
    forall i | 0 <= i < |r| ensures !Delegates(r[i]) { WhereHas(list, r[i], Direct); }
    WhereAll(d, Delegates);
    WhereNone(r, Delegates);
  }

  // ---- every run of adding and removing

  predicate Numbered(list: seq<Handler>, next: nat) {
    && AllBelow(list, next)
    && (forall i, j :: 0 <= i < j < |list| ==> list[i].id < list[j].id)
  }

  predicate AllBelow(list: seq<Handler>, next: nat) {
    forall i :: 0 <= i < |list| ==> list[i].id < next
  }

  lemma {:induction false} WhereBelow(list: seq<Handler>, next: nat, p: Handler -> bool)
    requires AllBelow(list, next)
    ensures AllBelow(Where(list, p), next)
    decreases |list|
  {
    if list != [] {
      WhereBelow(list[..|list| - 1], next, p);
    }
  }

  lemma {:induction false} WhereNumbered(list: seq<Handler>, next: nat, p: Handler -> bool)
    requires Numbered(list, next)
    ensures Numbered(Where(list, p), next)
    decreases |list|
  {
    if list != [] {
      var n := |list| - 1;
      WhereNumbered(list[..n], next, p);
      WhereBelow(list[..n], list[n].id, p);
    }
  }

  lemma {:induction false} RunNumbered(r: Registry, edits: seq<Edit>)
    requires Numbered(r.list, r.next)
    ensures Numbered(ApplyAll(r, edits).list, ApplyAll(r, edits).next)
    decreases |edits|
  {
    if edits != [] {
      var n := |edits| - 1;
      RunNumbered(r, edits[..n]);
      if edits[n].Remove? {
        WhereNumbered(ApplyAll(r, edits[..n]).list, ApplyAll(r, edits[..n]).next, Stays(edits[n].which));
      }
    }
  }

  const NoHandlers := Registry([], 0)

  // The registration made by edit m of a run, and what became of it up to the end.
  function Made(edits: seq<Edit>, m: nat): Handler
    requires m < |edits| && edits[m].Add?
  {
    Entered(edits[m].what, ApplyAll(NoHandlers, edits[..m]).next)
  }

  predicate Survives(edits: seq<Edit>, m: nat)
    requires m < |edits| && edits[m].Add?
  {
    forall k :: m < k < |edits| && edits[k].Remove? ==> !Hit(edits[k].which, Made(edits, m))
  }

  ghost predicate Survivor(edits: seq<Edit>, h: Handler, m: int) {
    0 <= m < |edits| && edits[m].Add? && h == Made(edits, m) && Survives(edits, m)
  }

  lemma SurvivorKept(edits: seq<Edit>, h: Handler, m: int, e: Edit)
    requires 0 <= m < |edits|
    ensures Survivor(edits + [e], h, m) <==> Survivor(edits, h, m) && (e.Remove? ==> !Hit(e.which, h))
  {
    hide Hit, ApplyAll, Entered;
    var all := edits + [e];
    assert all[..m] == edits[..m] && all[m] == edits[m];
    assert forall k :: m < k < |edits| ==> all[k] == edits[k];
    assert all[|edits|] == e;
  }

  lemma SurvivorAdded(edits: seq<Edit>, h: Handler, e: Edit)
    ensures Survivor(edits + [e], h, |edits|) <==>
            e.Add? && h == Entered(e.what, ApplyAll(NoHandlers, edits).next)
  {
    hide Hit, ApplyAll, Entered;
    assert (edits + [e])[..|edits|] == edits;
  }

  lemma SurvivorInside(edits: seq<Edit>, h: Handler)
    ensures forall m :: Survivor(edits, h, m) ==> 0 <= m < |edits|
  {
  }

  // After any run the list holds exactly the registrations that no later removal asked for.
  lemma {:induction false} RegisteredExactly(edits: seq<Edit>, h: Handler)
    ensures h in ApplyAll(NoHandlers, edits).list <==> exists m :: Survivor(edits, h, m)
    decreases |edits|
  {
    hide Hit, Entered, Survivor, Where;
    if edits == [] {
      SurvivorInside(edits, h);
    } else {
      var n := |edits| - 1;
      var e := edits[n];
      assert edits == edits[..n] + [e];
      RegisteredExactly(edits[..n], h);
      SurvivorAdded(edits[..n], h, e);
      forall m | 0 <= m < n
        ensures Survivor(edits, h, m) <==> Survivor(edits[..n], h, m) && (e.Remove? ==> !Hit(e.which, h))
      {
        SurvivorKept(edits[..n], h, m, e);
      }
      SurvivorInside(edits, h);
      SurvivorInside(edits[..n], h);
      if e.Remove? {
        WhereHas(ApplyAll(NoHandlers, edits[..n]).list, h, Stays(e.which));
      }
    }
  }
}
