/** Sizzle's comparison of two nodes where the browser offers none: by their ancestor paths
    and the sibling chain. It is document order, and uniqueSort leaves each node once. */
module DocumentOrder {
  import opened Dom

  // ---- the tree and its numbering

  // The first sibling of x numbered y or above.
  function SiblingFrom(d: Doc, x: int, y: int): (z: int)
    requires Valid(d) && IsNode(d, x) && x < y <= |d.parent|
    ensures z == NULL || (y <= z < |d.parent| && d.parent[z] == d.parent[x])
    ensures forall w :: y <= w < (if z == NULL then |d.parent| else z) ==> d.parent[w] != d.parent[x]
    decreases |d.parent| - y
  {
    if y == |d.parent| then NULL
    else if d.parent[y] == d.parent[x] then y
    else SiblingFrom(d, x, y + 1)
  }

  function NextSibling(d: Doc, x: int): int
    requires Valid(d) && IsNode(d, x)
  {
    SiblingFrom(d, x, x + 1)
  }

  function FirstChild(d: Doc, x: int): int
    requires Valid(d) && IsNode(d, x)
  {
    if x + 1 < |d.parent| && d.parent[x + 1] == x then x + 1 else NULL
  }

  predicate Below(d: Doc, a: int, x: int)
    requires Valid(d) && IsNode(d, x)
  {
    Contains(d.parent, a, x)
  }

  lemma BelowBounds(d: Doc, a: int, x: int)
    requires Valid(d) && IsNode(d, x) && Below(d, a, x)
    ensures 0 <= a <= x
    decreases x
  {
    if a != x {
      BelowBounds(d, a, d.parent[x]);
    }
  }

  // A subtree is an interval of the numbering.
  lemma {:induction false} SubtreeIsInterval(d: Doc, a: int, m: int, x: int)
    requires Valid(d) && IsNode(d, x) && IsNode(d, m) && Below(d, a, x) && a <= m <= x
    ensures Below(d, a, m)
    decreases x
  {
    BelowBounds(d, a, x);
    if m < x {
      BelowTransitive(d, a, d.parent[x], x - 1);
      SubtreeIsInterval(d, a, m, x - 1);
    }
  }

  lemma BelowTransitive(d: Doc, a: int, b: int, x: int)
    requires Valid(d) && IsNode(d, x) && IsNode(d, b) && Below(d, b, x) && Below(d, a, b)
    ensures Below(d, a, x)
    decreases x
  {
    if b != x {
      BelowTransitive(d, a, b, d.parent[x]);
    }
  }

  // Everything below an earlier sibling precedes everything below a later one.
  lemma SiblingsSeparate(d: Doc, x: int, y: int, u: int, v: int)
    requires Valid(d) && IsNode(d, x) && IsNode(d, y) && IsNode(d, u) && IsNode(d, v)
    requires x < y && d.parent[x] == d.parent[y] && Below(d, x, u) && Below(d, y, v)
    ensures u < v
  {
    BelowBounds(d, y, v);
    if u >= y {
      SubtreeIsInterval(d, x, y, u);
      BelowBounds(d, x, d.parent[y]);
      assert false;
    }
  }

  // ---- paths

  function PathTo(d: Doc, x: int): (p: seq<int>)
    requires Valid(d) && IsNode(d, x)
    ensures forall i :: 0 <= i < |p| ==> IsNode(d, p[i])
    decreases x
  {
    if d.parent[x] == NULL then [] else PathTo(d, d.parent[x]) + [d.parent[x]]
  }

  // The chain from x up to the root is PathTo( x ) and x itself.
  function Chain(d: Doc, x: int): (p: seq<int>)
    requires Valid(d) && IsNode(d, x)
    ensures |p| > 0 && forall i :: 0 <= i < |p| ==> IsNode(d, p[i])
  {
    PathTo(d, x) + [x]
  }

  lemma ChainLinks(d: Doc, x: int, i: int)
    requires Valid(d) && IsNode(d, x) && 0 <= i < |Chain(d, x)|
    ensures Chain(d, x)[0] == 0
    ensures d.parent[Chain(d, x)[i]] == if i == 0 then NULL else Chain(d, x)[i - 1]
    ensures Below(d, Chain(d, x)[i], x)
    decreases x
  {
    var p := Chain(d, x);
    if |p| > 1 {
      var up := d.parent[x];
      assert p == Chain(d, up) + [x];
      ChainLinks(d, up, if i == |p| - 1 then |p| - 2 else i);
      if i < |p| - 1 {
        assert Below(d, p[i], up);
      }
    }
  }

  // Where two chains part, they part at siblings.
  lemma ChainsPart(d: Doc, a: int, b: int, i: nat)
    requires Valid(d) && IsNode(d, a) && IsNode(d, b)
    requires i < |Chain(d, a)| && i < |Chain(d, b)| && Chain(d, a)[..i] == Chain(d, b)[..i]
    ensures d.parent[Chain(d, a)[i]] == d.parent[Chain(d, b)[i]]
    ensures Chain(d, a)[i] < Chain(d, b)[i] ==> a < b
    ensures Chain(d, a)[i] > Chain(d, b)[i] ==> a > b
  {
    var x, y := Chain(d, a)[i], Chain(d, b)[i];
    ChainLinks(d, a, i);
    ChainLinks(d, b, i);
    if i > 0 {
      assert Chain(d, a)[..i][i - 1] == Chain(d, b)[..i][i - 1];
    }
    if x < y {
      SiblingsSeparate(d, x, y, a, b);
    } else if y < x {
      SiblingsSeparate(d, y, x, b, a);
    }
  }

  function Order(a: int, b: int): int {
    if a < b then -1 else if a == b then 0 else 1
  }

  class Sorter {
    const doc: Doc
    var hasDuplicate: bool

    method SiblingCheck(a: int, b: int, ret: int) returns (r: int)
      requires Valid(doc) && IsNode(doc, a) && IsNode(doc, b) && doc.parent[a] == doc.parent[b]
      ensures r == if a == b then ret else Order(a, b)
    {
      if a == b {
        return ret;
      }
      var cur := NextSibling(doc, a);
      while cur != NULL
        invariant cur == NULL || (a < cur < |doc.parent| && doc.parent[cur] == doc.parent[a])
        invariant a < b ==> cur != NULL && cur <= b
        decreases if cur == NULL then 0 else |doc.parent| - cur
      {
        if cur == b {
          return -1;
        }
        cur := NextSibling(doc, cur);
      }
      return 1;
    }

    // The ancestors of x, outermost first.
    method Ancestors(x: int) returns (path: seq<int>)
      requires Valid(doc) && IsNode(doc, x)
      ensures path == PathTo(doc, x)
    {
      path := [];
      var cur := Parent(doc, x);
      while cur != NULL
        invariant -1 <= cur < |doc.parent|
        invariant PathTo(doc, x) == (if cur == NULL then [] else Chain(doc, cur)) + path
        decreases cur
      {
        path := [cur] + path;
        cur := Parent(doc, cur);
      }
    }

    // For all nodes of one tree the answer is their document order.
    method SortOrder(a: int, b: int) returns (r: int)
      requires Valid(doc) && IsNode(doc, a) && IsNode(doc, b)
      modifies this`hasDuplicate
      ensures r == Order(a, b)
      ensures hasDuplicate == (old(hasDuplicate) || a == b)
    {
      if a == b {
        hasDuplicate := true;
        return 0;
      }
      var aup, bup := Parent(doc, a), Parent(doc, b);
      if aup == bup {
        r := SiblingCheck(a, b, 0);
        return r;
      } else if aup == NULL {
        RootIsFirst(doc, a);
        return -1;
      } else if bup == NULL {
        RootIsFirst(doc, b);
        return 1;
      }
      var ap := Ancestors(a);
      var bp := Ancestors(b);
      var i := 0;
      while i < |ap| && i < |bp|
        invariant 0 <= i <= |ap| && i <= |bp|
        invariant ap[..i] == bp[..i]
      {
        if ap[i] != bp[i] {
          ChainPrefix(doc, a, i);
          ChainPrefix(doc, b, i);
          ChainsPart(doc, a, b, i);
          r := SiblingCheck(ap[i], bp[i], 0);
          return r;
        }
        i := i + 1;
      }
      ChainPrefix(doc, a, i);
      ChainPrefix(doc, b, i);
      PathsDiffer(doc, a, b, i);
      ChainsPart(doc, a, b, i);
      BelowAt(doc, a, b, i);
      if i == |ap| {
        r := SiblingCheck(a, bp[i], -1);
      } else {
        r := SiblingCheck(ap[i], b, 1);
      }
    }
  }

  // ---- uniqueSort

  predicate NonDecreasing(s: seq<int>) {
    forall i, j :: 0 <= i < j < |s| ==> s[i] <= s[j]
  }

  predicate Increasing(s: seq<int>) {
    forall i, j :: 0 <= i < j < |s| ==> s[i] < s[j]
  }

  // sorted is what the native sort made of results with SortOrder as comparator, and
  // hasDuplicate the flag after it, which is set if the comparator saw equal nodes, as any
  // comparison sort makes it when there are some. The adjacent duplicates are then spliced
  // out in place.
  method UniqueSort(results: seq<int>, sorted: seq<int>, hasDuplicate: bool) returns (unique: seq<int>)
    requires multiset(sorted) == multiset(results) && NonDecreasing(sorted)
    requires !Increasing(sorted) ==> hasDuplicate
    ensures Increasing(unique)
    ensures forall x :: x in unique <==> x in results
  {
    unique := sorted;
    assert forall x :: x in sorted <==> x in multiset(sorted);
    assert forall x :: x in results <==> x in multiset(results);
    if hasDuplicate {
      var i := 1;
      while i < |unique|
        invariant 1 <= i && (|unique| > 0 ==> i <= |unique|)
        invariant NonDecreasing(unique)
        invariant i <= |unique| ==> Increasing(unique[..i])
        invariant forall x :: x in unique <==> x in sorted
        decreases |unique| - i
      {
        if unique[i] == unique[i - 1] {
          SpliceKeeps(unique, i);
          unique := unique[..i] + unique[i + 1..];
        } else {
          i := i + 1;
        }
      }
      assert i <= |unique| ==> unique[..i] == unique;
    }
  }

  lemma SpliceKeeps(s: seq<int>, i: nat)
    requires 0 < i < |s| && s[i] == s[i - 1] && NonDecreasing(s)
    ensures var t := s[..i] + s[i + 1..];
            NonDecreasing(t) && t[..i] == s[..i] && forall x :: x in t <==> x in s
  {
    var t := s[..i] + s[i + 1..];
    forall x | x in s
      ensures x in t
    {
      var k :| 0 <= k < |s| && s[k] == x;
      if k == i {
        assert t[i - 1] == x;
      } else {
        assert t[if k < i then k else k - 1] == x;
      }
    }
  }

  lemma RootIsFirst(d: Doc, x: int)
    requires Valid(d) && IsNode(d, x) && d.parent[x] == NULL
    ensures x == 0
  {
  }

  lemma ChainPrefix(d: Doc, x: int, i: int)
    requires Valid(d) && IsNode(d, x) && 0 <= i <= |PathTo(d, x)|
    ensures Chain(d, x)[..i] == PathTo(d, x)[..i]
    ensures Chain(d, x)[i] == if i < |PathTo(d, x)| then PathTo(d, x)[i] else x
  {
  }

  // Paths of nodes with different parents are not the same.
  lemma PathsDiffer(d: Doc, a: int, b: int, i: int)
    requires Valid(d) && IsNode(d, a) && IsNode(d, b)
    requires d.parent[a] != NULL && d.parent[b] != NULL && d.parent[a] != d.parent[b]
    requires 0 <= i <= |PathTo(d, a)| && i <= |PathTo(d, b)| && PathTo(d, a)[..i] == PathTo(d, b)[..i]
    ensures i < |PathTo(d, a)| || i < |PathTo(d, b)|
  {
    var p, q := PathTo(d, a), PathTo(d, b);
    assert p[|p| - 1] == d.parent[a] && q[|q| - 1] == d.parent[b];
    assert p[..|p|] == p && q[..|q|] == q;
  }

  // An ancestor precedes what is below it.
  lemma BelowAt(d: Doc, a: int, b: int, i: int)
    requires Valid(d) && IsNode(d, a) && IsNode(d, b) && a != b
    requires 0 <= i < |Chain(d, a)| && i < |Chain(d, b)|
    ensures Chain(d, b)[i] == a ==> a < b
    ensures Chain(d, a)[i] == b ==> b < a
  {
    ChainLinks(d, a, i);
    ChainLinks(d, b, i);
    if Chain(d, b)[i] == a {
      BelowBounds(d, a, b);
    }
    if Chain(d, a)[i] == b {
      BelowBounds(d, b, a);
    }
  }

  // ---- the numbering is the order in which a traversal visits the nodes

  // x, its subtree, and the later siblings of x with theirs.
  function Visit(d: Doc, x: int): seq<int>
    requires Valid(d) && -1 <= x < |d.parent|
    decreases |d.parent| - x, x
  {
    if x == NULL then []
    else
      var child, next := FirstChild(d, x), NextSibling(d, x);
      [x] + (if child == NULL then [] else Visit(d, child)) + (if next == NULL then [] else Visit(d, next))
  }

  // The first node after x that is not below it.
  function SubtreeEnd(d: Doc, x: int, y: int): (e: int)
    requires Valid(d) && -1 <= x < y <= |d.parent|
    ensures y <= e <= |d.parent|
    ensures forall z :: y <= z < e ==> x == NULL || Below(d, x, z)
    ensures e < |d.parent| ==> x != NULL && !Below(d, x, e)
    decreases |d.parent| - y
  {
    if y == |d.parent| then y
    else if x == NULL || Below(d, x, y) then SubtreeEnd(d, x, y + 1)
    else y
  }

  function Numbers(from: int, to: int): seq<int>
    requires from <= to
  {
    seq(to - from, i => from + i)
  }

  // A node is either within the subtree or ends it for all nodes after it.
  lemma EndIs(d: Doc, x: int, y: int, e: int)
    requires Valid(d) && -1 <= x < y <= e <= |d.parent|
    requires forall z :: y <= z < e ==> x == NULL || Below(d, x, z)
    requires e < |d.parent| ==> x != NULL && !Below(d, x, e)
    ensures SubtreeEnd(d, x, y) == e
    decreases e - y
  {
    if y < e {
      EndIs(d, x, y + 1, e);
    }
  }

  lemma FirstChildStarts(d: Doc, x: int)
    requires Valid(d) && IsNode(d, x)
    ensures FirstChild(d, x) == NULL ==> SubtreeEnd(d, x, x + 1) == x + 1
  {
    if x + 1 < |d.parent| && d.parent[x + 1] != x && Below(d, x, x + 1) {
      BelowBounds(d, x, d.parent[x + 1]);
    }
  }

  // The next sibling is where the subtree ends; if there is none, the parent's ends there.
  lemma NextSiblingIsEnd(d: Doc, x: int)
    requires Valid(d) && IsNode(d, x)
    ensures var e := SubtreeEnd(d, x, x + 1);
            if NextSibling(d, x) != NULL then NextSibling(d, x) == e
            else SubtreeEnd(d, d.parent[x], d.parent[x] + 1) == e
  {
    var e, p := SubtreeEnd(d, x, x + 1), d.parent[x];
    NoSiblingInside(d, x);
    if e < |d.parent| && d.parent[e] == p {
      NextIs(d, x, e);
    } else {
      NoLaterSibling(d, x, e);
      hide SubtreeEnd, Valid, Below;
      ParentEndsToo(d, x, e);
    }
  }

  lemma NoSiblingInside(d: Doc, x: int)
    requires Valid(d) && IsNode(d, x)
    ensures forall w :: x < w < SubtreeEnd(d, x, x + 1) ==> d.parent[w] != d.parent[x]
  {
    forall w | x < w < SubtreeEnd(d, x, x + 1)
      ensures d.parent[w] != d.parent[x]
    {
      assert Below(d, x, w);
      BelowBounds(d, x, d.parent[w]);
    }
  }

  lemma NextIs(d: Doc, x: int, e: int)
    requires Valid(d) && IsNode(d, x) && x < e < |d.parent| && d.parent[e] == d.parent[x]
    requires forall w :: x < w < e ==> d.parent[w] != d.parent[x]
    ensures NextSibling(d, x) == e
  {
  }

  lemma NoLaterSibling(d: Doc, x: int, e: int)
    requires Valid(d) && IsNode(d, x) && e == SubtreeEnd(d, x, x + 1)
    requires e < |d.parent| ==> d.parent[e] != d.parent[x]
    requires forall w :: x < w < e ==> d.parent[w] != d.parent[x]
    ensures NextSibling(d, x) == NULL
    ensures e < |d.parent| && d.parent[x] != NULL ==> !Below(d, d.parent[x], e)
  {
    var p := d.parent[x];
    if e < |d.parent| {
      if p != NULL && Below(d, p, e) {
        ChildTowards(d, p, x, e);
      }
      var y := NextSibling(d, x);
      if y != NULL {
        assert p != NULL;
        assert Below(d, p, p);
        BelowTransitive(d, p, p, y);
        SubtreeIsInterval(d, p, e, y);
        ChildTowards(d, p, x, e);
      }
    }
  }

  // If e ends the subtree of x and is below the parent of x, it is a child of that parent.
  lemma ChildTowards(d: Doc, p: int, x: int, e: int)
    requires Valid(d) && IsNode(d, x) && IsNode(d, e) && p == d.parent[x] && p != NULL
    requires e == SubtreeEnd(d, x, x + 1) && Below(d, p, e)
    ensures d.parent[e] == p
  {
    // the parent of e is an ancestor of e - 1 (or e - 1), which is below x
    assert Below(d, x, e - 1) by {
      if e - 1 > x {
      }
    }
    var q := d.parent[e];
    BelowBounds(d, p, q);
    TwoAncestors(d, q, x, e - 1);
    if Below(d, x, q) {
      BelowTransitive(d, x, q, e);
    } else {
      assert Below(d, q, p);
      BelowBounds(d, q, p);
    }
  }

  // Two ancestors of one node are one below the other.
  lemma TwoAncestors(d: Doc, a: int, b: int, x: int)
    requires Valid(d) && IsNode(d, x) && IsNode(d, a) && IsNode(d, b) && Below(d, a, x) && Below(d, b, x)
    ensures Below(d, b, a) || (d.parent[b] != NULL && Below(d, a, d.parent[b]))
    decreases x
  {
    if a != x && b != x {
      TwoAncestors(d, a, b, d.parent[x]);
    }
  }

  lemma ParentEndsToo(d: Doc, x: int, e: int)
    requires Valid(d) && IsNode(d, x) && e == SubtreeEnd(d, x, x + 1)
    requires e < |d.parent| && d.parent[x] != NULL ==> !Below(d, d.parent[x], e)
    requires NextSibling(d, x) == NULL
    ensures SubtreeEnd(d, d.parent[x], d.parent[x] + 1) == e
  {
    var p := d.parent[x];
    if p == NULL {
      RootIsFirst(d, x);
      if e < |d.parent| {
        AllBelowRoot(d, e);
      }
      EndIs(d, p, p + 1, e);
    } else {
      forall z | p + 1 <= z < e
        ensures Below(d, p, z)
      {
        if z >= x {
          assert Below(d, x, z);
          BelowTransitive(d, p, x, z);
        } else {
          SubtreeIsInterval(d, p, z, x);
        }
      }
      EndIs(d, p, p + 1, e);
    }
  }

  lemma AllBelowRoot(d: Doc, x: int)
    requires Valid(d) && IsNode(d, x)
    ensures Below(d, 0, x)
    decreases x
  {
    if x > 0 {
      AllBelowRoot(d, d.parent[x]);
    }
  }

  // Where what is visited from x on ends.
  function VisitEnd(d: Doc, x: int): int
    requires Valid(d) && IsNode(d, x)
  {
    SubtreeEnd(d, d.parent[x], d.parent[x] + 1)
  }

  lemma VisitStep(d: Doc, x: int)
    requires Valid(d) && IsNode(d, x)
    ensures var child, next, e := FirstChild(d, x), NextSibling(d, x), SubtreeEnd(d, x, x + 1);
            && x < e
            && (if child == NULL then e == x + 1 else child == x + 1 && VisitEnd(d, child) == e)
            && (if next == NULL then VisitEnd(d, x) == e
                else next == e && x < next && VisitEnd(d, next) == VisitEnd(d, x))
  {
    FirstChildStarts(d, x);
    NextSiblingIsEnd(d, x);
  }

  lemma {:induction false} VisitIsNumbers(d: Doc, x: int)
    requires Valid(d) && IsNode(d, x)
    ensures x < VisitEnd(d, x) && Visit(d, x) == Numbers(x, VisitEnd(d, x))
    decreases |d.parent| - x, x
  {
    VisitStep(d, x);
    var child, next, e := FirstChild(d, x), NextSibling(d, x), SubtreeEnd(d, x, x + 1);
    if child != NULL {
      VisitIsNumbers(d, child);
    }
    if next != NULL {
      VisitIsNumbers(d, next);
    }
    VisitUnfold(d, x);
    hide *;
    ThreeParts(x, e, VisitEnd(d, x));
  }

  lemma VisitUnfold(d: Doc, x: int)
    requires Valid(d) && IsNode(d, x)
    ensures var child, next := FirstChild(d, x), NextSibling(d, x);
            Visit(d, x) ==
            [x] + (if child == NULL then [] else Visit(d, child)) + (if next == NULL then [] else Visit(d, next))
  {
  }

  lemma ThreeParts(x: int, e: int, end: int)
    requires x < e <= end
    ensures Numbers(x, end) == [x] + Numbers(x + 1, e) + Numbers(e, end)
    ensures Numbers(e, e) == [] && Numbers(end, end) == []
    ensures [x] + Numbers(x + 1, e) + [] == [x] + Numbers(x + 1, e)
    ensures [x] + [] == [x] && Numbers(x + 1, x + 1) == []
  {
  }

  // Going from the document through first children and next siblings meets the nodes in
  // the order of their numbers.
  lemma NumberingIsPreOrder(d: Doc)
    requires Valid(d)
    ensures Visit(d, 0) == Numbers(0, |d.parent|)
  {
    VisitIsNumbers(d, 0);
    EndIs(d, NULL, 0, |d.parent|);
  }
}
