// Facts about lists of registrations that the proofs about callback lists use.
module RegistrationLists {
  import opened CallbackMachine

  ghost predicate Ordered(list: seq<Entry>) {
    forall i, j :: 0 <= i < j < |list| ==> list[i].id < list[j].id
  }

  ghost predicate DistinctFns(list: seq<Entry>) {
    forall i, j :: 0 <= i < j < |list| ==> list[i].fn != list[j].fn
  }

  ghost predicate AllRegistered(list: seq<Entry>, registered: seq<Entry>) {
    forall i :: 0 <= i < |list| ==> list[i].id < |registered| && registered[list[i].id] == list[i]
  }

  ghost predicate Numbered(registered: seq<Entry>) {
    forall i :: 0 <= i < |registered| ==> registered[i].id == i
  }

  lemma KeptAppend(xs: seq<Entry>, ys: seq<Entry>, gone: set<nat>)
    ensures Kept(xs + ys, gone) == Kept(xs, gone) + Kept(ys, gone)
    decreases |ys|
  {
    if ys == [] {
      assert xs + ys == xs;
    } else {
      assert (xs + ys)[..|xs + ys| - 1] == xs + ys[..|ys| - 1];
      KeptAppend(xs, ys[..|ys| - 1], gone);
    }
  }

  lemma KeptAll(xs: seq<Entry>, gone: set<nat>)
    requires forall i :: 0 <= i < |xs| ==> xs[i].id !in gone
    ensures Kept(xs, gone) == xs
  {
    if xs != [] {
      KeptAll(xs[..|xs| - 1], gone);
    }
  }

  lemma KeptTwice(xs: seq<Entry>, gone: set<nat>, more: set<nat>)
    ensures Kept(Kept(xs, gone), more) == Kept(xs, gone + more)
  {
    if xs != [] {
      var front := xs[..|xs| - 1];
      KeptTwice(front, gone, more);
      if xs[|xs| - 1].id !in gone {
        KeptAppend(Kept(front, gone), [xs[|xs| - 1]], more);
        assert Kept([xs[|xs| - 1]], more) == if xs[|xs| - 1].id in more then [] else [xs[|xs| - 1]];
      }
    }
  }

  lemma KeptMembers(xs: seq<Entry>, gone: set<nat>)
    ensures forall e :: e in Kept(xs, gone) <==> e in xs && e.id !in gone
  {
    if xs != [] {
      KeptMembers(xs[..|xs| - 1], gone);
      assert xs == xs[..|xs| - 1] + [xs[|xs| - 1]];
    }
  }

  lemma KeptOrdered(xs: seq<Entry>, gone: set<nat>)
    requires Ordered(xs)
    ensures Ordered(Kept(xs, gone))
  {
    if xs != [] {
      var front := xs[..|xs| - 1];
      KeptOrdered(front, gone);
      KeptMembers(front, gone);
      var k := Kept(front, gone);
      forall i | 0 <= i < |k|
        ensures k[i].id < xs[|xs| - 1].id
      {
        assert k[i] in front;
      }
    }
  }

  lemma WithoutAppend(xs: seq<Entry>, ys: seq<Entry>, fn: Fn)
    ensures Without(xs + ys, fn) == Without(xs, fn) + Without(ys, fn)
    decreases |ys|
  {
    if ys == [] {
      assert xs + ys == xs;
    } else {
      assert (xs + ys)[..|xs + ys| - 1] == xs + ys[..|ys| - 1];
      WithoutAppend(xs, ys[..|ys| - 1], fn);
    }
  }

  lemma WithoutIsKept(xs: seq<Entry>, fn: Fn, gone: set<nat>)
    requires forall i :: 0 <= i < |xs| ==> (xs[i].id in gone <==> xs[i].fn == fn)
    ensures Without(xs, fn) == Kept(xs, gone)
  {
    if xs != [] {
      WithoutIsKept(xs[..|xs| - 1], fn, gone);
    }
  }

  lemma WithoutMembers(xs: seq<Entry>, fn: Fn)
    ensures forall e :: e in Without(xs, fn) <==> e in xs && e.fn != fn
    ensures |Without(xs, fn)| <= |xs|
  {
    if xs != [] {
      WithoutMembers(xs[..|xs| - 1], fn);
      assert xs == xs[..|xs| - 1] + [xs[|xs| - 1]];
    }
  }

  // Removal keeps the rest in order, registered and free of duplicates.
  lemma WithoutKeepsOrder(xs: seq<Entry>, fn: Fn)
    ensures Ordered(xs) ==> Ordered(Without(xs, fn))
    ensures DistinctFns(xs) ==> DistinctFns(Without(xs, fn))
  {
    if xs != [] {
      var front := xs[..|xs| - 1];
      WithoutKeepsOrder(front, fn);
      WithoutMembers(front, fn);
      var k := Without(front, fn);
      hide Without;
      forall i | 0 <= i < |k|
        ensures Ordered(xs) ==> k[i].id < xs[|xs| - 1].id
        ensures DistinctFns(xs) ==> k[i].fn != xs[|xs| - 1].fn
      {
        assert k[i] in front;
      }
    }
  }

  lemma WithoutRegistered(xs: seq<Entry>, fn: Fn, registered: seq<Entry>)
    requires AllRegistered(xs, registered)
    ensures AllRegistered(Without(xs, fn), registered)
  {
    WithoutMembers(xs, fn);
    var k := Without(xs, fn);
    forall i | 0 <= i < |k|
      ensures k[i].id < |registered| && registered[k[i].id] == k[i]
    {
      assert k[i] in xs;
    }
  }

  lemma FreshStep(list: seq<Entry>, xs: seq<Fn>, unique: bool, next: nat)
    requires xs != []
    ensures Fresh(list, xs, unique, next) ==
            if unique && Has(list, xs[0]) then Fresh(list, xs[1..], unique, next)
            else [Entry(xs[0], next)] + Fresh(list + [Entry(xs[0], next)], xs[1..], unique, next + 1)
  {
  }

  lemma FreshNone(list: seq<Entry>, unique: bool, next: nat)
    ensures Fresh(list, [], unique, next) == []
  {
  }

  lemma FreshIds(list: seq<Entry>, fns: seq<Fn>, unique: bool, next: nat)
    ensures forall i :: 0 <= i < |Fresh(list, fns, unique, next)| ==> Fresh(list, fns, unique, next)[i].id == next + i
    decreases |fns|
  {
    if fns != [] {
      if unique && Has(list, fns[0]) {
        FreshIds(list, fns[1..], unique, next);
      } else {
        FreshIds(list + [Entry(fns[0], next)], fns[1..], unique, next + 1);
      }
    }
  }

  lemma FreshDistinct(list: seq<Entry>, fns: seq<Fn>, next: nat)
    requires DistinctFns(list)
    ensures DistinctFns(list + Fresh(list, fns, true, next))
    decreases |fns|
  {
    if fns == [] {
      assert list + [] == list;
    } else if Has(list, fns[0]) {
      FreshDistinct(list, fns[1..], next);
    } else {
      var e := Entry(fns[0], next);
      assert DistinctFns(list + [e]);
      FreshDistinct(list + [e], fns[1..], next + 1);
      assert list + ([e] + Fresh(list + [e], fns[1..], true, next + 1))
          == list + [e] + Fresh(list + [e], fns[1..], true, next + 1);
    }
  }

  lemma CallsOfAppend(xs: seq<Entry>, ys: seq<Entry>, v: Value)
    ensures CallsOf(xs + ys, v) == CallsOf(xs, v) + CallsOf(ys, v)
  {
  }

  // In a schedule k of which the first n are called and the others are the list from pos
  // on, taking away the uncalled registrations of fn is removing fn from that rest.
  lemma RemoveFromSchedule(k: seq<Entry>, n: nat, list: seq<Entry>, pos: nat, fn: Fn, calls: seq<Call>)
    requires Ordered(k) && n <= |k| && Ordered(list) && pos <= |list| && k[n..] == list[pos..]
    requires n == |calls| && forall i :: 0 <= i < n ==> calls[i].id == k[i].id
    ensures Kept(k, Uncalled(list, fn, calls)) == k[..n] + Without(list[pos..], fn)
  {
    hide Kept, Without;
    var gone := Uncalled(list, fn, calls);
    var rest := list[pos..];
    forall i | 0 <= i < n
      ensures k[..n][i].id !in gone
    {
      assert CalledIn(calls, k[i].id);
    }
    KeptAll(k[..n], gone);
    forall i | 0 <= i < |rest|
      ensures rest[i].id in gone <==> rest[i].fn == fn
    {
      assert rest[i] == k[n + i] == list[pos + i];
      if rest[i].id in gone {
        var j :| 0 <= j < |list| && list[j].fn == fn && list[j].id == rest[i].id;
        assert j == pos + i;
      }
    }
    WithoutIsKept(rest, fn, gone);
    KeptAppend(k[..n], rest, gone);
    assert k == k[..n] + rest;
  }

  // After adding, a function is in the list if it was, or was added.
  lemma {:induction false} FreshMembers(list: seq<Entry>, fns: seq<Fn>, unique: bool, next: nat, fn: Fn)
    ensures (exists e :: e in list + Fresh(list, fns, unique, next) && e.fn == fn) <==>
            fn in fns || exists e :: e in list && e.fn == fn
    decreases |fns|
  {
    if fns == [] {
      assert list + [] == list;
    } else if unique && Has(list, fns[0]) {
      var i :| 0 <= i < |list| && list[i].fn == fns[0];
      assert list[i] in list;
      FreshMembers(list, fns[1..], unique, next, fn);
    } else {
      var e := Entry(fns[0], next);
      FreshMembers(list + [e], fns[1..], unique, next + 1, fn);
      assert list + Fresh(list, fns, unique, next) == (list + [e]) + Fresh(list + [e], fns[1..], unique, next + 1);
      assert forall x :: x in list + [e] <==> x in list || x == e;
    }
  }
}
