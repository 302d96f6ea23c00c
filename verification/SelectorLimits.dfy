/** Which chains the right-to-left evaluation gets right as long as no candidate strays:
    exactly those without a greedy combinator whose left neighbour is incompatible with it.
    For every other chain there is a document in which a matching element is lost, because a
    nearer match of one compound selector hides the one that would have worked. */
module SelectorLimits {
  import opened Dom
  import opened Options
  import opened SelectorLists
  import opened Selectors

  predicate Vertical(comb: Comb) {
    comb == Descendant || comb == Child
  }

  // Parent of node m in the staircase: node 0 is the document, node 1 the root element,
  // node 2 its first child, and every later node is the first child or the next sibling of
  // the one before. The chain's combinators are read from the last node backwards.
  function StairParent(combs: seq<Comb>, m: nat): (p: int)
    ensures -1 <= p < m
    decreases m
  {
    if m <= 2 then m - 1
    else if m <= |combs| + 2 && Vertical(combs[|combs| + 2 - m]) then m - 1
    else StairParent(combs, m - 1)
  }

  function Staircase(combs: seq<Comb>): (d: Doc)
    ensures |d.parent| == |d.element| == |combs| + 3
    ensures forall m :: 0 <= m < |d.parent| ==> d.parent[m] == StairParent(combs, m) && d.element[m] == (m > 0)
  {
    Doc(seq(|combs| + 3, m requires 0 <= m => StairParent(combs, m)), seq(|combs| + 3, m => m > 0))
  }

  lemma ParentsNonNull(combs: seq<Comb>, m: nat)
    requires m >= 1
    ensures StairParent(combs, m) >= 0
  {
    if m > 2 {
      ParentsNonNull(combs, m - 1);
    }
  }

  lemma StaircaseValid(combs: seq<Comb>)
    ensures Valid(Staircase(combs))
  {
    var d := Staircase(combs);
    forall m | 1 <= m < |d.parent|
      ensures d.parent[m] >= 0 && Contains(d.parent, d.parent[m], m - 1)
    {
      ParentsNonNull(combs, m);
      if m > 2 && d.parent[m] != m - 1 {
        ParentsNonNull(combs, m - 1);
        assert Contains(d.parent, d.parent[m], d.parent[m - 1]);
      }
    }
  }

  // Node m stands next to node m - 1 as combinator comb says.
  ghost predicate StairAt(d: Doc, m: int, comb: Comb) {
    && Valid(d) && 1 <= m - 1 && IsNode(d, m) && d.element[m] && d.element[m - 1]
    && (if Vertical(comb) then d.parent[m] == m - 1 && PreviousSibling(d, m) == NULL
        else d.parent[m] == d.parent[m - 1] && PreviousSibling(d, m) == m - 1)
  }

  lemma StairStep(combs: seq<Comb>, m: nat)
    requires 3 <= m <= |combs| + 2
    ensures StairAt(Staircase(combs), m, combs[|combs| + 2 - m])
  {
    StaircaseValid(combs);
    var d := Staircase(combs);
    if Vertical(combs[|combs| + 2 - m]) {
      assert forall z :: 0 <= z < m ==> d.parent[z] != m - 1;
    }
  }

  lemma StepRelates(d: Doc, m: int, comb: Comb)
    requires StairAt(d, m, comb)
    ensures Related(d, comb, m - 1, m)
  {
  }

  lemma TwoStepsRelate(d: Doc, m: int, comb: Comb)
    requires StairAt(d, m, comb) && StairAt(d, m - 1, comb) && (comb == Descendant || comb == General)
    ensures Related(d, comb, m - 2, m)
  {
    assert Along(d, Up, m - 2, m - 1) || comb == General;
  }

  lemma StepFinds(d: Doc, m: int, comb: Comb, test: Test)
    requires StairAt(d, m, comb) && test(m - 1)
    ensures Rel(d, Link(comb, Simple(test, false)), At(m)) == At(m - 1)
  {
  }

  // From a node reached by `right`, an incompatible `left` can only look at node m - 1.
  lemma StepBlocked(d: Doc, m: int, right: Comb, left: Comb, test: Test)
    requires StairAt(d, m, right) && !Compatible(left, right) && !test(m - 1)
    ensures Rel(d, Link(left, Simple(test, false)), At(m)) == No
  {
  }

  // The combinator at j, twice: the node in between is the decoy.
  function Lengthened(combs: seq<Comb>, j: nat): seq<Comb>
    requires j < |combs|
  {
    combs[..j + 1] + combs[j..]
  }

  function Named(a: int, b: int): Test {
    y => y == a || y == b
  }

  // Each compound selector names the node it should land on; the one at j also names the
  // decoy.
  function LostTest(combs: seq<Comb>, j: nat, t: nat): Test {
    Named(Origin(combs, j, t + 1), if t == j then |combs| + 2 - j else Origin(combs, j, t + 1))
  }

  function LostLinks(combs: seq<Comb>, j: nat): (links: seq<Link>)
    ensures |links| == |combs|
    ensures forall t :: 0 <= t < |combs| ==> links[t] == Link(combs[t], Simple(LostTest(combs, j, t), false))
  {
    seq(|combs|, t requires 0 <= t < |combs| => Link(combs[t], Simple(LostTest(combs, j, t), false)))
  }

  // The document in which the pair at j loses a match.
  function LostDoc(combs: seq<Comb>, j: nat): Doc
    requires j < |combs|
  {
    Staircase(Lengthened(combs, j))
  }

  lemma LostStairs(combs: seq<Comb>, j: nat)
    requires j < |combs|
    ensures var d := LostDoc(combs, j);
            && Valid(d) && |d.parent| == |combs| + 4 && !d.element[0]
            && (forall m :: 0 < m < |d.parent| ==> d.element[m])
            && (forall t :: 0 <= t <= j ==> StairAt(d, |combs| + 3 - t, combs[t]))
            && (forall t :: j <= t < |combs| ==> StairAt(d, |combs| + 2 - t, combs[t]))
  {
    hide Staircase, StairAt, Valid;
    var long := Lengthened(combs, j);
    StaircaseValid(long);
    forall t | 0 <= t <= j
      ensures StairAt(LostDoc(combs, j), |combs| + 3 - t, combs[t])
    {
      StairStep(long, |combs| + 3 - t);
    }
    forall t | j <= t < |combs|
      ensures StairAt(LostDoc(combs, j), |combs| + 2 - t, combs[t])
    {
      StairStep(long, |combs| + 2 - t);
      assert long[t + 1] == combs[t];
    }
  }

  ghost predicate MatchesHere(d: Doc, links: seq<Link>, x: int) {
    Valid(d) && IsNode(d, x) && d.element[x] && Matches(d, 0, links, x)
  }

  ghost predicate Lands(d: Doc, m: int, y: int, comb: Comb) {
    Valid(d) && IsNode(d, m) && IsNode(d, y) && d.element[m] && d.element[y] && Related(d, comb, y, m)
  }

  lemma MatchStep(d: Doc, links: seq<Link>, y: int, x: int)
    requires links != [] && links[0].part.Simple? && links[0].part.test(y)
    requires Lands(d, x, y, links[0].comb) && MatchesHere(d, links[1..], y)
    ensures MatchesHere(d, links, x)
  {
    assert Leftwards(d, 0, links, y, x);
  }

  lemma MatchEnd(d: Doc, x: int)
    requires Valid(d) && IsNode(d, x) && d.element[x]
    ensures MatchesHere(d, [], x)
  {
  }

  lemma OneStepLands(d: Doc, m: int, comb: Comb)
    requires StairAt(d, m, comb)
    ensures Lands(d, m, m - 1, comb)
  {
    StepRelates(d, m, comb);
  }

  lemma TwoStepsLand(d: Doc, m: int, comb: Comb)
    requires StairAt(d, m, comb) && StairAt(d, m - 1, comb) && (comb == Descendant || comb == General)
    ensures Lands(d, m, m - 2, comb)
  {
    TwoStepsRelate(d, m, comb);
  }

  // Where link t starts and ends when every link lands on its target.
  function Origin(combs: seq<Comb>, j: nat, t: nat): int {
    |combs| + 3 - (if t <= j then t else t + 1)
  }

  lemma LostStair(combs: seq<Comb>, j: nat, t: nat)
    requires t <= j < |combs|
    ensures StairAt(LostDoc(combs, j), |combs| + 3 - t, combs[t])
  {
    LostStairs(combs, j);
    hide LostDoc, StairAt;
  }

  lemma LostStairBelow(combs: seq<Comb>, j: nat, t: nat)
    requires j <= t < |combs|
    ensures StairAt(LostDoc(combs, j), |combs| + 2 - t, combs[t])
  {
    LostStairs(combs, j);
    hide LostDoc, StairAt;
  }

  lemma LostLands(combs: seq<Comb>, j: nat, t: nat)
    requires j < |combs| && (combs[j] == Descendant || combs[j] == General) && t < |combs|
    ensures Lands(LostDoc(combs, j), Origin(combs, j, t), Origin(combs, j, t + 1), combs[t])
  {
    hide LostDoc, StairAt, Lands, Valid;
    if t < j {
      LostStair(combs, j, t);
      OneStepLands(LostDoc(combs, j), |combs| + 3 - t, combs[t]);
    } else if t > j {
      LostStairBelow(combs, j, t);
      OneStepLands(LostDoc(combs, j), |combs| + 2 - t, combs[t]);
    } else {
      LostLandsTwice(combs, j);
    }
  }

  lemma LostLandsTwice(combs: seq<Comb>, j: nat)
    requires j < |combs| && (combs[j] == Descendant || combs[j] == General)
    ensures Lands(LostDoc(combs, j), |combs| + 3 - j, |combs| + 1 - j, combs[j])
  {
    hide LostDoc, StairAt, Lands, Valid;
    LostStair(combs, j, j);
    LostStairBelow(combs, j, j);
    TwoStepsLand(LostDoc(combs, j), |combs| + 3 - j, combs[j]);
  }

  lemma LostTests(combs: seq<Comb>, j: nat, t: nat)
    requires t < |combs|
    ensures var link := LostLinks(combs, j)[t];
            && link.comb == combs[t] && link.part.Simple? && link.part.test(Origin(combs, j, t + 1))
            && (t <= j ==> link.part.test(|combs| + 2 - t))
            && (t == j + 1 ==> !link.part.test(|combs| + 1 - j))
  {
  }

  lemma Tail(links: seq<Link>, t: nat)
    requires t < |links|
    ensures links[t..][0] == links[t] && links[t..][1..] == links[t + 1..]
  {
  }

  // The element matches: every link lands on its target.
  lemma {:induction false} LostMatches(combs: seq<Comb>, j: nat, t: nat)
    requires j < |combs| && (combs[j] == Descendant || combs[j] == General) && t <= |combs|
    ensures MatchesHere(LostDoc(combs, j), LostLinks(combs, j)[t..], Origin(combs, j, t))
    decreases |combs| - t
  {
    hide *;
    var d := LostDoc(combs, j);
    var links := LostLinks(combs, j);
    if t < |combs| {
      LostMatches(combs, j, t + 1);
      LostLands(combs, j, t);
      LostTests(combs, j, t);
      Tail(links, t);
      MatchStep(d, links[t..], Origin(combs, j, t + 1), Origin(combs, j, t));
    } else {
      LostEnd(combs, j);
    }
  }

  lemma LostEnd(combs: seq<Comb>, j: nat)
    requires j < |combs|
    ensures MatchesHere(LostDoc(combs, j), LostLinks(combs, j)[|combs|..], Origin(combs, j, |combs|))
  {
    LostStairs(combs, j);
    hide LostDoc, MatchesHere;
    assert LostLinks(combs, j)[|combs|..] == [];
    MatchEnd(LostDoc(combs, j), Origin(combs, j, |combs|));
  }

  // The rest of the evaluation, from node m on, decides about x.
  ghost predicate ComesTo(d: Doc, links: seq<Link>, x: int, rest: seq<Link>, c: Check) {
    Valid(d) && IsNode(d, x) && (c.At? ==> IsNode(d, c.node)) && RelAll(d, links, At(x)) == RelAll(d, rest, c)
  }

  lemma ComesOn(d: Doc, links: seq<Link>, x: int, rest: seq<Link>, m: int, c: Check)
    requires ComesTo(d, links, x, rest, At(m)) && rest != []
    requires Valid(d) && IsNode(d, m) && Rel(d, rest[0], At(m)) == c
    ensures ComesTo(d, links, x, rest[1..], c)
  {
  }

  lemma StepFinding(d: Doc, links: seq<Link>, x: int, rest: seq<Link>, m: int)
    requires ComesTo(d, links, x, rest, At(m)) && rest != [] && rest[0].part.Simple?
    requires StairAt(d, m, rest[0].comb) && rest[0].part.test(m - 1)
    ensures ComesTo(d, links, x, rest[1..], At(m - 1))
  {
    StepFinds(d, m, rest[0].comb, rest[0].part.test);
    ComesOn(d, links, x, rest, m, At(m - 1));
  }

  lemma StepBlocking(d: Doc, links: seq<Link>, x: int, rest: seq<Link>, m: int, right: Comb)
    requires ComesTo(d, links, x, rest, At(m)) && rest != [] && rest[0].part.Simple?
    requires StairAt(d, m, right) && !Compatible(rest[0].comb, right) && !rest[0].part.test(m - 1)
    ensures EndsAt(d, links, x, No)
  {
    StepBlocked(d, m, right, rest[0].comb, rest[0].part.test);
    ComesOn(d, links, x, rest, m, No);
    Falsy(d, 0, rest[1..], No);
  }

  lemma LostStart(combs: seq<Comb>, j: nat)
    requires j < |combs|
    ensures ComesTo(LostDoc(combs, j), LostLinks(combs, j), |combs| + 3, LostLinks(combs, j)[0..], At(|combs| + 3))
  {
    LostStairs(combs, j);
    hide LostDoc;
    assert LostLinks(combs, j)[0..] == LostLinks(combs, j);
  }

  // The evaluation goes node by node, up to the decoy.
  lemma {:induction false} GreedyWalk(combs: seq<Comb>, j: nat, t: nat)
    requires j < |combs| && t <= j + 1
    ensures ComesTo(LostDoc(combs, j), LostLinks(combs, j), |combs| + 3, LostLinks(combs, j)[t..], At(|combs| + 3 - t))
  {
    hide *;
    if t == 0 {
      LostStart(combs, j);
    } else {
      var links := LostLinks(combs, j);
      GreedyWalk(combs, j, t - 1);
      LostStair(combs, j, t - 1);
      LostTests(combs, j, t - 1);
      Tail(links, t - 1);
      StepFinding(LostDoc(combs, j), links, |combs| + 3, links[t - 1..], |combs| + 3 - (t - 1));
    }
  }

  // In document d the chain loses element x, which matches.
  ghost predicate Loses(d: Doc, links: seq<Link>, x: int) {
    && Valid(d) && IsNode(d, x) && d.element[x] && WellFormed(d, 0, links)
    && Matches(d, 0, links, x) && !Accepted(d, 0, RelAll(d, links, At(x)))
  }

  ghost predicate AllSimple(links: seq<Link>) {
    forall t :: 0 <= t < |links| ==> links[t].part.Simple? && !links[t].part.tag
  }

  lemma NotKept(d: Doc, links: seq<Link>, x: int)
    requires MatchesHere(d, links, x) && AllSimple(links) && OnlyElementsHaveChildren(d)
    requires EndsAt(d, links, x, No)
    ensures Loses(d, links, x)
  {
  }

  ghost predicate EndsAt(d: Doc, links: seq<Link>, x: int, c: Check) {
    Valid(d) && IsNode(d, x) && RelAll(d, links, At(x)) == c
  }

  lemma LostBlocked(combs: seq<Comb>, j: nat)
    requires j + 1 < |combs| && !Compatible(combs[j + 1], combs[j])
    ensures EndsAt(LostDoc(combs, j), LostLinks(combs, j), |combs| + 3, No)
  {
    hide *;
    var links := LostLinks(combs, j);
    GreedyWalk(combs, j, j + 1);
    LostStairBelow(combs, j, j);
    LostTests(combs, j, j + 1);
    Tail(links, j + 1);
    StepBlocking(LostDoc(combs, j), links, |combs| + 3, links[j + 1..], |combs| + 2 - j, combs[j]);
  }

  lemma PairLosesMatch(combs: seq<Comb>, j: nat)
    requires j + 1 < |combs| && !Compatible(combs[j + 1], combs[j])
    ensures Loses(LostDoc(combs, j), LostLinks(combs, j), |combs| + 3)
  {
    hide *;
    LostCombs(combs, j);
    LostMatches(combs, j, 0);
    LostBlocked(combs, j);
    LostChildren(combs, j);
    NotKept(LostDoc(combs, j), LostLinks(combs, j), |combs| + 3);
  }

  lemma LostChildren(combs: seq<Comb>, j: nat)
    requires j < |combs|
    ensures Valid(LostDoc(combs, j)) && OnlyElementsHaveChildren(LostDoc(combs, j))
  {
    LostStairs(combs, j);
    hide LostDoc, StairAt;
  }

  lemma LostCombs(combs: seq<Comb>, j: nat)
    requires j + 1 < |combs| && !Compatible(combs[j + 1], combs[j])
    ensures Combs(LostLinks(combs, j)) == combs
    ensures LostLinks(combs, j)[0..] == LostLinks(combs, j) && Origin(combs, j, 0) == |combs| + 3
    ensures AllSimple(LostLinks(combs, j)) && (combs[j] == Descendant || combs[j] == General)
  {
  }

  ghost predicate RightUnless(d: Doc, links: seq<Link>, set_: seq<int>) {
    Posed(d, 0, links, set_) && NoneStrays(d, links, set_) ==> Right(d, 0, links, set_)
  }

  lemma NotSelected(d: Doc, links: seq<Link>, x: int)
    requires Loses(d, links, x) && links != []
    ensures Selected(d, 0, links, [x]) != Some([x])
  {
    if Evaluate(d, links, Entries(d, [x])).Some? {
      EvaluateAsAlone(d, links, Entries(d, [x]));
      var checks := Evaluate(d, links, Entries(d, [x])).value;
      assert checks[0] == RelAll(d, links, Entries(d, [x])[0]);
      assert Kept(d, 0, [x][1..], checks[1..]) == [];
    }
  }

  lemma RightWhenMonotone(d: Doc, links: seq<Link>, set_: seq<int>)
    requires Monotone(Combs(links))
    ensures RightUnless(d, links, set_)
  {
    if Posed(d, 0, links, set_) && NoneStrays(d, links, set_) {
      RightUnlessStray(d, 0, links, set_);
    }
  }

  lemma LostAlone(d: Doc, links: seq<Link>, x: int)
    requires Loses(d, links, x) && links != [] && EndsAt(d, links, x, No)
    ensures !RightUnless(d, links, [x])
  {
    StraysToNull(d, links, At(x));
    NotSelected(d, links, x);
    assert [x][1..] == [];
    assert Matching(d, 0, links, [x]) == [x];
  }

  // A chain of combinators returns exactly what matches, in every document, for all compound
  // selectors and for all candidates none of which strays, if and only if it has no
  // incompatible pair.
  lemma ExactlyTheMonotone(combs: seq<Comb>)
    ensures Monotone(combs) <==> forall d, links, set_ :: Combs(links) == combs ==> RightUnless(d, links, set_)
  {
    hide RightUnless, Loses, EndsAt, LostDoc, LostLinks, Compatible;
    if Monotone(combs) {
      forall d, links, set_ | Combs(links) == combs
        ensures RightUnless(d, links, set_)
      {
        RightWhenMonotone(d, links, set_);
      }
    } else {
      var j :| 0 <= j < |combs| - 1 && !Compatible(combs[j + 1], combs[j]);
      PairLosesMatch(combs, j);
      LostBlocked(combs, j);
      LostCombs(combs, j);
      LostAlone(LostDoc(combs, j), LostLinks(combs, j), |combs| + 3);
      assert !RightUnless(LostDoc(combs, j), LostLinks(combs, j), [|combs| + 3]);
    }
  }
}
