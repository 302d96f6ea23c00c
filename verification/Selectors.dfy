/** What a chain of combinators means, and what the right-to-left evaluation of Sizzle
    computes for one entry of checkSet. A compound selector is any test on nodes; it holds of
    elements only, but the code also puts the document node to the test. */
module Selectors {
  import opened Dom

  type Test = int -> bool

  datatype Comb = Descendant | Child | Adjacent | General   // "", ">", "+", "~"

  // The left operand: a compound selector, which may be a plain tag name, or the context
  // node of a leading combinator.
  datatype Part = Simple(test: Test, tag: bool) | Context(node: int)

  datatype Link = Link(comb: Comb, part: Part)

  // An entry of checkSet: false, true, a node, or null.
  datatype Check = No | Yes | At(node: int) | Null

  predicate Sat(d: Doc, test: Test, x: int)
    requires IsNode(d, x) && Valid(d)
  {
    d.element[x] && test(x)
  }

  // ---- the meaning (Selectors Level 3, section 8)

  // The element immediately before x among its siblings.
  ghost predicate ImmediatelyBefore(d: Doc, y: int, x: int)
    requires Valid(d) && IsNode(d, x)
  {
    EarlierSibling(d, y, x) && d.element[y] &&
    forall z :: y < z < x && d.parent[z] == d.parent[x] ==> !d.element[z]
  }

  ghost predicate Related(d: Doc, comb: Comb, y: int, x: int)
    requires Valid(d) && IsNode(d, x)
  {
    match comb
    case Descendant => Ancestor(d, y, x)
    case Child => y >= 0 && y == d.parent[x]
    case Adjacent => ImmediatelyBefore(d, y, x)
    case General => EarlierSibling(d, y, x)
  }

  ghost predicate PartHolds(d: Doc, part: Part, y: int)
    requires Valid(d) && IsNode(d, y)
  {
    match part case Simple(test, _) => Sat(d, test, y) case Context(node) => y == node && d.element[y]
  }

  // The leftmost element must lie inside the context.
  ghost predicate InScope(d: Doc, context: int, x: int)
    requires Valid(d) && IsNode(d, x) && IsNode(d, context)
  {
    if d.element[context] then Ancestor(d, context, x) else d.element[x]
  }

  // x matches what is left of it in the chain; links come from right to left.
  ghost predicate Matches(d: Doc, context: int, links: seq<Link>, x: int)
    requires Valid(d) && IsNode(d, x) && IsNode(d, context)
    decreases |links|
  {
    if links == [] then InScope(d, context, x)
    else exists y :: Leftwards(d, context, links, y, x)
  }

  ghost predicate Leftwards(d: Doc, context: int, links: seq<Link>, y: int, x: int)
    requires Valid(d) && IsNode(d, x) && IsNode(d, context) && links != []
    decreases |links|, 0
  {
    && IsNode(d, y) && Related(d, links[0].comb, y, x) && PartHolds(d, links[0].part, y)
    && (links[0].part.Simple? ==> Matches(d, context, links[1..], y))
  }

  // ---- the evaluation

  // The first node met along the axis that passes the test, NULL if there is none.
  function Nearest(d: Doc, axis: Axis, test: Test, x: int): (y: int)
    requires Valid(d) && IsNode(d, x)
    ensures -1 <= y < x
    decreases x
  {
    var z := Go(d, axis, x);
    if z == NULL then NULL
    else if Sat(d, test, z) then z
    else Nearest(d, axis, test, z)
  }

  function PreviousElement(d: Doc, x: int): (y: int)
    requires Valid(d) && IsNode(d, x)
    ensures -1 <= y < x
    decreases x
  {
    var z := PreviousSibling(d, x);
    if z == NULL || d.element[z] then z else PreviousElement(d, z)
  }

  function Found(y: int): Check {
    if y == NULL then No else At(y)
  }

  function Truth(b: bool): Check {
    if b then Yes else No
  }

  // One combinator applied to one entry of checkSet. Only ">" puts a node to the test that
  // may be the document, and leaves null where there is no parent.
  function Rel(d: Doc, link: Link, c: Check): (r: Check)
    requires Valid(d) && (c.At? ==> IsNode(d, c.node))
    ensures r.At? ==> IsNode(d, r.node)
  {
    if !c.At? then c
    else
      var x := c.node;
      match link.part
      case Simple(test, _) =>
        (match link.comb
         case Descendant => Found(Nearest(d, Up, test, x))
         case General => Found(Nearest(d, Back, test, x))
         case Child => var y := Parent(d, x); if y == NULL then Null else if test(y) then At(y) else No
         case Adjacent => var y := PreviousElement(d, x); if y != NULL && Sat(d, test, y) then At(y) else No)
      case Context(node) =>
        (match link.comb
         case Descendant => Truth(Nearest(d, Up, y => y == node, x) != NULL)
         case General => Truth(Nearest(d, Back, y => y == node, x) != NULL)
         case Child => Truth(Parent(d, x) == node)
         case Adjacent => Truth(PreviousElement(d, x) == node))
  }

  function RelAll(d: Doc, links: seq<Link>, c: Check): (r: Check)
    requires Valid(d) && (c.At? ==> IsNode(d, c.node))
    ensures r.At? ==> IsNode(d, r.node)
    decreases |links|
  {
    if links == [] then c else RelAll(d, links[1..], Rel(d, links[0], c))
  }

  // The pruning test after the last combinator.
  predicate Accepted(d: Doc, context: int, c: Check)
    requires Valid(d) && IsNode(d, context) && (c.At? ==> IsNode(d, c.node))
  {
    if d.element[context] then
      c == Yes || (c.At? && d.element[c.node] && Ancestor(d, context, c.node))
    else
      c.At? && d.element[c.node]
  }

  // ---- the nearest match

  lemma {:induction false} NearestIsFirst(d: Doc, axis: Axis, test: Test, x: int)
    requires Valid(d) && IsNode(d, x)
    ensures var y := Nearest(d, axis, test, x);
            && (y != NULL ==> Along(d, axis, y, x) && Sat(d, test, y))
            && forall z :: Along(d, axis, z, x) && IsNode(d, z) && Sat(d, test, z) ==>
                 y != NULL && (z == y || Along(d, axis, z, y))
    decreases x
  {
    var z := Go(d, axis, x);
    if z != NULL && !Sat(d, test, z) {
      NearestIsFirst(d, axis, test, z);
    }
  }

  // Passing over a sibling that is not an element changes nothing.
  lemma PassOver(d: Doc, y: int, z: int, x: int)
    requires Valid(d) && IsNode(d, x) && z == PreviousSibling(d, x) && z != NULL && !d.element[z]
    ensures ImmediatelyBefore(d, y, x) <==> ImmediatelyBefore(d, y, z)
  {
  }

  lemma {:induction false} PreviousElementIsBefore(d: Doc, x: int, w: int)
    requires Valid(d) && IsNode(d, x)
    ensures var y := PreviousElement(d, x);
            && (y != NULL ==> ImmediatelyBefore(d, y, x))
            && (ImmediatelyBefore(d, w, x) ==> w == y)
    decreases x
  {
    var z := PreviousSibling(d, x);
    if z != NULL && !d.element[z] {
      PreviousElementIsBefore(d, z, w);
      PassOver(d, PreviousElement(d, z), z, x);
      PassOver(d, w, z, x);
    }
  }

  // ---- soundness

  lemma RelIsSound(d: Doc, link: Link, x: int)
    requires Valid(d) && IsNode(d, x)
    ensures var r := Rel(d, link, At(x));
            && (link.part.Simple? && r.At? ==>
                  && Related(d, link.comb, r.node, x)
                  && if d.element[r.node] then PartHolds(d, link.part, r.node) else link.comb == Child)
            && (link.part.Simple? ==> r != Yes)
            && (link.part.Context? ==> !r.At?)
            && (r == Yes && IsNode(d, link.part.node) && d.element[link.part.node] ==>
                  Related(d, link.comb, link.part.node, x))
  {
    match link.part
    case Simple(test, _) =>
      NearestIsFirst(d, Up, test, x);
      NearestIsFirst(d, Back, test, x);
      PreviousElementIsBefore(d, x, NULL);
      BackIsEarlierSibling(d, Nearest(d, Back, test, x), x);
    case Context(node) =>
      NearestIsFirst(d, Up, y => y == node, x);
      NearestIsFirst(d, Back, y => y == node, x);
      PreviousElementIsBefore(d, x, NULL);
      BackIsEarlierSibling(d, node, x);
  }

  predicate OnlyElementsHaveChildren(d: Doc)
    requires Valid(d)
  {
    forall x :: 0 < x < |d.parent| ==> d.parent[x] == 0 || d.element[d.parent[x]]
  }

  // A leading combinator can only be the leftmost link, and its operand is the context.
  predicate WellFormed(d: Doc, context: int, links: seq<Link>)
    requires Valid(d)
  {
    && IsNode(d, context) && OnlyElementsHaveChildren(d)
    && forall k :: 0 <= k < |links| && links[k].part.Context? ==> k == |links| - 1 && links[k].part.node == context
  }

  lemma Falsy(d: Doc, context: int, links: seq<Link>, c: Check)
    requires Valid(d) && IsNode(d, context) && !c.At?
    ensures RelAll(d, links, c) == c
  {
    if links != [] {
      Falsy(d, context, links[1..], c);
    }
  }

  lemma DocumentNotKept(d: Doc, context: int, links: seq<Link>)
    requires Valid(d) && WellFormed(d, context, links)
    ensures !Accepted(d, context, RelAll(d, links, At(0)))
  {
    if links != [] {
      assert Rel(d, links[0], At(0)) == No || Rel(d, links[0], At(0)) == Null;
      Falsy(d, context, links[1..], Rel(d, links[0], At(0)));
    }
  }

  // Whatever the mixture of combinators, an element that is kept matches the chain.
  lemma {:induction false} Sound(d: Doc, context: int, links: seq<Link>, x: int)
    requires Valid(d) && IsNode(d, x) && WellFormed(d, context, links)
    requires Accepted(d, context, RelAll(d, links, At(x)))
    ensures Matches(d, context, links, x)
    decreases |links|
  {
    if links != [] {
      var r := Rel(d, links[0], At(x));
      RelIsSound(d, links[0], x);
      if r.At? {
        if !d.element[r.node] {
          DocumentNotKept(d, context, links[1..]);
        }
        Sound(d, context, links[1..], r.node);
        assert Leftwards(d, context, links, r.node, x);
      } else {
        Falsy(d, context, links[1..], r);
        assert Leftwards(d, context, links, context, x);
      }
    }
  }

  // ---- completeness

  // Taking the nearest match for combinator `right` loses nothing if what comes to the left
  // of it is `left`.
  predicate Compatible(left: Comb, right: Comb) {
    match right
    case Child => true
    case Adjacent => true
    case Descendant => left == Descendant
    case General => left != Adjacent
  }

  predicate Monotone(combs: seq<Comb>) {
    forall k :: 0 <= k < |combs| - 1 ==> Compatible(combs[k + 1], combs[k])
  }

  function Combs(links: seq<Link>): seq<Comb> {
    seq(|links|, k requires 0 <= k < |links| => links[k].comb)
  }

  lemma SameParentSameAncestors(d: Doc, a: int, y: int, x: int)
    requires Valid(d) && IsNode(d, x) && EarlierSibling(d, y, x)
    ensures Ancestor(d, a, y) <==> Ancestor(d, a, x)
  {
  }

  // What matches farther along a greedy combinator also matches nearer.
  lemma NearerMatches(d: Doc, context: int, links: seq<Link>, axis: Axis, y: int, x: int)
    requires Valid(d) && IsNode(d, x) && IsNode(d, y) && WellFormed(d, context, links)
    requires Along(d, axis, y, x) && d.element[x]
    requires links != [] ==> Compatible(links[0].comb, if axis == Up then Descendant else General)
    requires Matches(d, context, links, y)
    ensures Matches(d, context, links, x)
  {
    if axis == Back {
      BackIsEarlierSibling(d, y, x);
    }
    if links == [] {
      if d.element[context] {
        NearerRelated(d, Descendant, axis, context, y, x);
      }
    } else {
      var z :| Leftwards(d, context, links, z, y);
      NearerRelated(d, links[0].comb, axis, z, y, x);
      assert Leftwards(d, context, links, z, x);
    }
  }

  lemma NearerRelated(d: Doc, comb: Comb, axis: Axis, z: int, y: int, x: int)
    requires Valid(d) && IsNode(d, x) && IsNode(d, y) && IsNode(d, z) && Along(d, axis, y, x)
    requires Compatible(comb, if axis == Up then Descendant else General)
    requires Related(d, comb, z, y)
    ensures Related(d, comb, z, x)
  {
    if axis == Up {
      AlongTransitive(d, Up, z, y, x);
    } else {
      BackIsEarlierSibling(d, y, x);
      SameParentSameAncestors(d, z, y, x);
    }
  }

  lemma RelIsNearest(d: Doc, link: Link, y: int, x: int)
    requires Valid(d) && IsNode(d, x) && IsNode(d, y)
    requires Related(d, link.comb, y, x) && PartHolds(d, link.part, y)
    ensures var r := Rel(d, link, At(x));
            && (link.part.Context? ==> r == Yes)
            && (link.part.Simple? ==>
                  r.At? && d.element[r.node] &&
                  (r.node == y || (link.comb == Descendant && Along(d, Up, y, r.node))
                               || (link.comb == General && Along(d, Back, y, r.node))))
  {
    var test := match link.part case Simple(t, _) => t case Context(node) => (z => z == node);
    NearestIsFirst(d, Up, test, x);
    NearestIsFirst(d, Back, test, x);
    PreviousElementIsBefore(d, x, y);
    BackIsEarlierSibling(d, y, x);
    if link.part.Context? {
      NearestIsFirst(d, Up, z => z == link.part.node, x);
      NearestIsFirst(d, Back, z => z == link.part.node, x);
    }
  }

  lemma MonotoneTail(combs: seq<Comb>)
    requires Monotone(combs) && combs != []
    ensures Monotone(combs[1..])
  {
    forall k | 0 <= k < |combs| - 2
      ensures Compatible(combs[1..][k + 1], combs[1..][k])
    {
      assert Compatible(combs[(k + 1) + 1], combs[k + 1]);
    }
  }

  // For chains without an incompatible pair, every matching element is kept.
  lemma {:induction false} Complete(d: Doc, context: int, links: seq<Link>, x: int)
    requires Valid(d) && IsNode(d, x) && d.element[x] && WellFormed(d, context, links)
    requires Monotone(Combs(links)) && Matches(d, context, links, x)
    ensures Accepted(d, context, RelAll(d, links, At(x)))
    decreases |links|
  {
    if links != [] {
      var y :| Leftwards(d, context, links, y, x);
      var r := Rel(d, links[0], At(x));
      RelIsNearest(d, links[0], y, x);
      if links[0].part.Context? {
        Falsy(d, context, links[1..], Yes);
      } else {
        var rest := links[1..];
        assert Combs(links)[1..] == Combs(rest);
        MonotoneTail(Combs(links));
        if r.node != y {
          assert rest != [] ==> Compatible(Combs(links)[1], Combs(links)[0]);
          NearerMatches(d, context, rest, if links[0].comb == Descendant then Up else Back, y, r.node);
        }
        Complete(d, context, rest, r.node);
      }
    }
  }
}
