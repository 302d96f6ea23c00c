/** The CHILD filter for "nth": the numbers cached on the nodes, and the answer. */
module NthChild {
  import opened Dom
  import DocumentOrder
  import N = NthFormula

  // The number of element children of p with a number below y.
  ghost function CountBelow(d: Doc, p: int, y: int): nat
    requires Valid(d) && 0 <= y <= |d.parent|
    decreases y
  {
    if y == 0 then 0
    else CountBelow(d, p, y - 1) + if d.element[y - 1] && d.parent[y - 1] == p then 1 else 0
  }

  // The index of x among the element children of its parent, counted from one.
  ghost function IndexOf(d: Doc, x: int): nat
    requires Valid(d) && IsNode(d, x)
  {
    CountBelow(d, d.parent[x], x) + 1
  }

  lemma NoneBetween(d: Doc, p: int, y: int, z: int)
    requires Valid(d) && 0 <= y <= z <= |d.parent|
    requires forall w :: y <= w < z ==> d.parent[w] != p
    ensures CountBelow(d, p, z) == CountBelow(d, p, y)
    decreases z - y
  {
    if y < z {
      NoneBetween(d, p, y, z - 1);
    }
  }

  // Children are found from the first one on; there are none before it.
  lemma FirstChildIsFirst(d: Doc, p: int)
    requires Valid(d) && IsNode(d, p)
    ensures var c := DocumentOrder.FirstChild(d, p);
            forall w :: 0 <= w < (if c == NULL then |d.parent| else c) ==> d.parent[w] != p
  {
    if p + 1 < |d.parent| && d.parent[p + 1] != p {
      forall w | p + 1 < w < |d.parent|
        ensures d.parent[w] != p
      {
        if d.parent[w] == p {
          assert DocumentOrder.Below(d, p, w);
          DocumentOrder.SubtreeIsInterval(d, p, p + 1, w);
          DocumentOrder.BelowBounds(d, p, d.parent[p + 1]);
        }
      }
    }
  }

  ghost function UpTo(d: Doc, node: int): int {
    if node == NULL then |d.parent| else node
  }

  // The element children of p below upto are numbered, and nothing else is changed.
  ghost predicate ChildrenDone(d: Doc, p: int, upto: int, before: seq<int>, now: seq<int>) {
    && Valid(d) && |before| == |now| == |d.parent|
    && (forall x :: 0 <= x < |now| && x < upto && d.parent[x] == p && d.element[x] ==> now[x] == IndexOf(d, x))
    && (forall x :: 0 <= x < |now| && d.parent[x] != p ==> now[x] == before[x])
  }

  // The loop stands at child `node` of p.
  ghost predicate Counting(d: Doc, p: int, node: int, count: int, before: seq<int>, now: seq<int>) {
    && Valid(d) && (node == NULL || (IsNode(d, node) && d.parent[node] == p))
    && count == CountBelow(d, p, UpTo(d, node))
    && ChildrenDone(d, p, UpTo(d, node), before, now)
  }

  lemma FirstChildDone(d: Doc, p: int, before: seq<int>)
    requires Valid(d) && IsNode(d, p) && |before| == |d.parent|
    ensures Counting(d, p, DocumentOrder.FirstChild(d, p), 0, before, before)
  {
    FirstChildIsFirst(d, p);
    NoneBetween(d, p, 0, UpTo(d, DocumentOrder.FirstChild(d, p)));
  }

  lemma NextChild(d: Doc, p: int, node: int)
    requires Valid(d) && IsNode(d, node) && d.parent[node] == p
    ensures var next := DocumentOrder.NextSibling(d, node);
            && (next == NULL || (IsNode(d, next) && d.parent[next] == p))
            && node < UpTo(d, next) <= |d.parent|
            && (forall w :: node < w < UpTo(d, next) ==> d.parent[w] != p)
  {
  }

  lemma CountStep(d: Doc, p: int, node: int, upto: int)
    requires Valid(d) && IsNode(d, node) && d.parent[node] == p && node < upto <= |d.parent|
    requires forall w :: node < w < upto ==> d.parent[w] != p
    ensures CountBelow(d, p, upto) == CountBelow(d, p, node) + if d.element[node] then 1 else 0
  {
    hide Contains;
    assert CountBelow(d, p, node + 1) == CountBelow(d, p, node) + if d.element[node] then 1 else 0;
    NoneBetween(d, p, node + 1, upto);
  }

  lemma DoneStep(d: Doc, p: int, node: int, upto: int, before: seq<int>, now: seq<int>)
    requires ChildrenDone(d, p, node, before, now)
    requires IsNode(d, node) && d.parent[node] == p && node < upto <= |d.parent|
    requires forall w :: node < w < upto ==> d.parent[w] != p
    ensures ChildrenDone(d, p, upto, before, if d.element[node] then now[node := IndexOf(d, node)] else now)
  {
    hide IndexOf;
  }

  lemma ChildDone(d: Doc, p: int, node: int, count: int, before: seq<int>, now: seq<int>)
    requires node != NULL && Counting(d, p, node, count, before, now)
    ensures IsNode(d, node) && |now| == |d.parent| == |d.element|
    ensures var next := DocumentOrder.NextSibling(d, node);
            && UpTo(d, next) > node && UpTo(d, next) <= |d.parent|
            && Counting(d, p, next, if d.element[node] then count + 1 else count, before,
                        if d.element[node] then now[node := count + 1] else now)
  {
    assert |now| == |d.parent|;
    NextChild(d, p, node);
    CountStep(d, p, node, UpTo(d, DocumentOrder.NextSibling(d, node)));
    assert d.element[node] ==> IndexOf(d, node) == count + 1;
    hide CountBelow, IndexOf, ChildrenDone, DocumentOrder.NextSibling;
    DoneStep(d, p, node, UpTo(d, DocumentOrder.NextSibling(d, node)), before, now);
  }

  lemma AllDone(d: Doc, p: int, count: int, before: seq<int>, now: seq<int>)
    requires Counting(d, p, NULL, count, before, now)
    ensures forall x :: 0 <= x < |now| && d.parent[x] == p && d.element[x] ==> now[x] == IndexOf(d, x)
    ensures forall x :: 0 <= x < |now| && d.parent[x] != p ==> now[x] == before[x]
  {
  }

  class Filter {
    const doc: Doc
    var done: int
    var expando: array<int>     // the mark on each node, -1 where there is none
    var nodeIndex: array<int>   // 0 where there is none

    ghost predicate Ready()
      reads this
    {
      && Dom.Valid(doc) && expando != nodeIndex
      && expando.Length == |doc.parent| && nodeIndex.Length == |doc.parent|
    }

    // The numbers below the nodes marked with this name are right.
    ghost predicate Numbered(name: int)
      requires Ready()
      reads this, expando, nodeIndex
    {
      forall x :: 0 <= x < |doc.parent| && doc.parent[x] != NULL && doc.element[x] && expando[doc.parent[x]] == name ==>
        nodeIndex[x] == IndexOf(doc, x)
    }

    // match[0] = done++: no node carries a name not given out yet, so nothing is cached.
    method NewName() returns (name: int)
      requires Ready() && forall x :: 0 <= x < |doc.parent| ==> expando[x] < done
      modifies this`done
      ensures name == old(done) && done == name + 1 && Numbered(name)
      ensures forall x :: 0 <= x < |doc.parent| ==> expando[x] < done
    {
      name := done;
      done := done + 1;
    }

    // Numbers the element children of p.
    method NumberChildren(p: int)
      requires Ready() && IsNode(doc, p)
      modifies nodeIndex
      ensures forall x :: 0 <= x < |doc.parent| && doc.parent[x] == p && doc.element[x] ==>
                nodeIndex[x] == IndexOf(doc, x)
      ensures forall x :: 0 <= x < |doc.parent| && doc.parent[x] != p ==> nodeIndex[x] == old(nodeIndex[x])
    {
      hide Dom.Valid, CountBelow, IndexOf, ChildrenDone, DocumentOrder.FirstChild, DocumentOrder.NextSibling;
      var count := 0;
      var node := DocumentOrder.FirstChild(doc, p);
      ghost var before := nodeIndex[..];
      FirstChildDone(doc, p, before);
      while node != NULL
        invariant Counting(doc, p, node, count, before, nodeIndex[..])
        decreases |doc.parent| - UpTo(doc, node)
      {
        ghost var now := nodeIndex[..];
        ChildDone(doc, p, node, count, before, now);
        if doc.element[node] {
          count := count + 1;
          nodeIndex[node] := count;
        }
        node := DocumentOrder.NextSibling(doc, node);
      }
      AllDone(doc, p, count, before, nodeIndex[..]);
    }

    method Renumber(p: int, name: int)
      requires Ready() && IsNode(doc, p) && Numbered(name)
      modifies expando, nodeIndex
      ensures Numbered(name)
      ensures forall x :: 0 <= x < |doc.parent| && doc.parent[x] == p && doc.element[x] ==>
                nodeIndex[x] == IndexOf(doc, x)
    {
      hide Dom.Valid, IndexOf;
      NumberChildren(p);
      expando[p] := name;
    }

    // Another query may run between two tests: it leaves marks under names of its own and
    // numbers nodes, rightly, since the document does not change.
    method OtherQuery(name: int)
      requires Ready() && Numbered(name) && 0 <= name < done
      modifies this`done, expando, nodeIndex
      ensures Ready() && Numbered(name) && old(done) <= done
      ensures expando == old(expando) && nodeIndex == old(nodeIndex)
    {
      var names, steps :| names >= 0 && steps >= 0;
      var first := done;
      done := done + names;
      for k := 0 to steps
        invariant Ready() && Numbered(name) && done == first + names
        invariant expando == old(expando) && nodeIndex == old(nodeIndex)
      {
        var node: int, other: int, numbers: bool := *, *, *;
        if 0 <= node < expando.Length && 0 <= other < names {
          if numbers {
            RenumberOther(node, name);
          }
          expando[node] := first + other;
        }
      }
    }

    // Numbering for another query leaves this query's numbers right.
    method RenumberOther(p: int, name: int)
      requires Ready() && IsNode(doc, p) && Numbered(name)
      modifies nodeIndex
      ensures Numbered(name)
    {
      for x := 0 to |doc.parent|
        invariant Numbered(name)
      {
        if doc.parent[x] == p && doc.element[x] {
          var index := CountElements(p, x);
          nodeIndex[x] := index + 1;
        }
      }
    }

    method CountElements(p: int, y: int) returns (n: nat)
      requires Dom.Valid(doc) && 0 <= y <= |doc.parent|
      ensures n == CountBelow(doc, p, y)
    {
      n := 0;
      for z := 0 to y
        invariant n == CountBelow(doc, p, z)
      {
        if doc.element[z] && doc.parent[z] == p {
          n := n + 1;
        }
      }
    }

    // The answer for element elem of a query with this name.
    method Passes(elem: int, name: int, formula: N.Parsed) returns (passes: bool)
      requires Ready() && IsNode(doc, elem) && doc.element[elem] && Numbered(name)
      modifies expando, nodeIndex
      ensures Numbered(name)
      ensures passes == N.Test(formula, IndexOf(doc, elem))
    {
      if formula.first == 1 && formula.last == N.Int(0) {
        return true;
      }
      var parent := Parent(doc, elem);
      if parent != NULL && (expando[parent] != name || nodeIndex[elem] == 0) {
        Renumber(parent, name);
      }
      if formula.last == N.NaN {
        return false;
      }
      var diff := nodeIndex[elem] - formula.last.v;
      if formula.first == 0 {
        return diff == 0;
      } else {
        return N.Remainder(diff, formula.first) == 0 && N.QuotientNotNegative(diff, formula.first);
      }
    }
  }

  // Put together: the filter built from an accepted formula text selects exactly the
  // elements whose index is a * n + b.
  method NthChild(filter: Filter, f: N.Formula, elem: int, name: int) returns (passes: bool)
    requires filter.Ready() && IsNode(filter.doc, elem) && filter.doc.element[elem] && filter.Numbered(name)
    requires N.Accepted(f)
    modifies filter.expando, filter.nodeIndex
    ensures filter.Numbered(name)
    ensures passes <==> N.Represents(N.Coefficient(f), N.Constant(f), IndexOf(filter.doc, elem))
  {
    var formula := N.Parse(N.Text(f));
    N.NthChildIsRight(f, IndexOf(filter.doc, elem));
    passes := filter.Passes(elem, name, formula);
  }

  // The index of an element is the number of elements among it and its earlier siblings.
  lemma IndexIsCardinality(d: Doc, x: int)
    requires Valid(d) && IsNode(d, x) && d.element[x]
    ensures IndexOf(d, x) == |set y | 0 <= y <= x && d.element[y] && d.parent[y] == d.parent[x]|
  {
    CountIsCardinality(d, d.parent[x], x + 1);
    assert (set y | 0 <= y <= x && d.element[y] && d.parent[y] == d.parent[x]) ==
           set y | 0 <= y < x + 1 && d.element[y] && d.parent[y] == d.parent[x];
  }

  lemma {:induction false} CountIsCardinality(d: Doc, p: int, n: nat)
    requires Valid(d) && n <= |d.parent|
    ensures CountBelow(d, p, n) == |set y | 0 <= y < n && d.element[y] && d.parent[y] == p|
    decreases n
  {
    hide Contains;
    if n > 0 {
      CountIsCardinality(d, p, n - 1);
      var before := set y | 0 <= y < n - 1 && d.element[y] && d.parent[y] == p;
      var all := set y | 0 <= y < n && d.element[y] && d.parent[y] == p;
      assert all == if d.element[n - 1] && d.parent[n - 1] == p then before + {n - 1} else before;
    }
  }
}
