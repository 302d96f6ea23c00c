/** checkSet as a whole. The walks of "" and "~" treat every entry by itself, but the loops
    that filter and prune checkSet end at the first null, and a tag name to the left of ">"
    is compared with the name of a parent that may not be there. */
module SelectorLists {
  import opened Dom
  import opened Options
  import opened Selectors

  ghost predicate NodeEntries(d: Doc, entries: seq<Check>) {
    Valid(d) && forall k :: 0 <= k < |entries| && entries[k].At? ==> IsNode(d, entries[k].node)
  }

  // A combinator applied to every entry by itself.
  ghost function RelEach(d: Doc, link: Link, entries: seq<Check>): (after: seq<Check>)
    requires NodeEntries(d, entries)
    ensures NodeEntries(d, after)
  {
    seq(|entries|, k requires 0 <= k < |entries| => Rel(d, link, entries[k]))
  }

  // The operand is a string that is not a tag name, and the nodes are filtered by it after
  // all of them are moved.
  predicate FiltersAfter(link: Link) {
    (link.comb == Child || link.comb == Adjacent) && link.part.Simple? && !link.part.tag
  }

  // Where ">" and "+" move one entry.
  function Moved(d: Doc, comb: Comb, c: Check): (r: Check)
    requires Valid(d) && (c.At? ==> IsNode(d, c.node))
    ensures r.At? ==> IsNode(d, r.node)
  {
    if !c.At? then c
    else if comb == Adjacent then Found(PreviousElement(d, c.node))
    else if Parent(d, c.node) == NULL then Null
    else At(Parent(d, c.node))
  }

  ghost function MovedEach(d: Doc, comb: Comb, entries: seq<Check>): (after: seq<Check>)
    requires NodeEntries(d, entries)
    ensures NodeEntries(d, after)
  {
    seq(|entries|, k requires 0 <= k < |entries| => Moved(d, comb, entries[k]))
  }

  // Where a loop that runs while entries are not null ends.
  function FirstNull(entries: seq<Check>): (n: nat)
    ensures n <= |entries| && (forall k :: 0 <= k < n ==> entries[k] != Null)
    ensures n < |entries| ==> entries[n] == Null
  {
    if entries == [] || entries[0] == Null then 0 else FirstNull(entries[1..]) + 1
  }

  lemma FirstNullIs(entries: seq<Check>, n: nat)
    requires n <= |entries| && (forall k :: 0 <= k < n ==> entries[k] != Null)
    requires n < |entries| ==> entries[n] == Null
    ensures FirstNull(entries) == n
  {
  }

  function Filtered(test: Test, c: Check): Check {
    if c.At? && !test(c.node) then No else c
  }

  function FilterList(test: Test, entries: seq<Check>): seq<Check> {
    seq(|entries|, k requires 0 <= k < |entries| =>
      if k < FirstNull(entries) then Filtered(test, entries[k]) else entries[k])
  }

  // A combinator applied to checkSet, unless it throws.
  ghost function StepList(d: Doc, link: Link, entries: seq<Check>): (after: seq<Check>)
    requires NodeEntries(d, entries)
    ensures NodeEntries(d, after) && |after| == |entries|
  {
    if FiltersAfter(link) then FilterList(link.part.test, MovedEach(d, link.comb, entries))
    else RelEach(d, link, entries)
  }

  // The name of the parent of the document is asked for.
  predicate Fails(d: Doc, link: Link, c: Check)
    requires Valid(d) && (c.At? ==> IsNode(d, c.node))
  {
    link.comb == Child && link.part.Simple? && link.part.tag && c.At? && Parent(d, c.node) == NULL
  }

  ghost predicate Throws(d: Doc, link: Link, entries: seq<Check>)
    requires NodeEntries(d, entries)
  {
    exists k :: 0 <= k < |entries| && Fails(d, link, entries[k])
  }

  // The main loop over the links; None if it throws.
  ghost function Evaluate(d: Doc, links: seq<Link>, entries: seq<Check>): (r: Option<seq<Check>>)
    requires NodeEntries(d, entries)
    ensures r.Some? ==> NodeEntries(d, r.value) && |r.value| == |entries|
    decreases |links|
  {
    if links == [] then Some(entries)
    else if Throws(d, links[0], entries) then None
    else Evaluate(d, links[1..], StepList(d, links[0], entries))
  }

  // What the pruning loop keeps.
  ghost function Kept(d: Doc, context: int, set_: seq<int>, checks: seq<Check>): seq<int>
    requires NodeEntries(d, checks) && IsNode(d, context) && |checks| == |set_|
  {
    if set_ == [] || checks[0] == Null then []
    else if Accepted(d, context, checks[0]) then [set_[0]] + Kept(d, context, set_[1..], checks[1..])
    else Kept(d, context, set_[1..], checks[1..])
  }

  ghost predicate Elements(d: Doc, set_: seq<int>) {
    Valid(d) && forall k :: 0 <= k < |set_| ==> IsNode(d, set_[k]) && d.element[set_[k]]
  }

  ghost function Entries(d: Doc, set_: seq<int>): (entries: seq<Check>)
    requires Elements(d, set_)
    ensures NodeEntries(d, entries)
  {
    seq(|set_|, k requires 0 <= k < |set_| => At(set_[k]))
  }

  // The results for a list of candidates; without combinators there is no pruning.
  ghost function Selected(d: Doc, context: int, links: seq<Link>, set_: seq<int>): Option<seq<int>>
    requires Elements(d, set_) && IsNode(d, context)
  {
    if links == [] then Some(set_)
    else
      var checks := Evaluate(d, links, Entries(d, set_));
      if checks.None? then None else Some(Kept(d, context, set_, checks.value))
  }

  // ---- what should be selected

  ghost function Matching(d: Doc, context: int, links: seq<Link>, set_: seq<int>): seq<int>
    requires Elements(d, set_) && IsNode(d, context)
  {
    if set_ == [] then []
    else if Matches(d, context, links, set_[0]) then [set_[0]] + Matching(d, context, links, set_[1..])
    else Matching(d, context, links, set_[1..])
  }

  // The candidates for a chain; they are found inside the context.
  ghost predicate Posed(d: Doc, context: int, links: seq<Link>, set_: seq<int>) {
    && Elements(d, set_) && WellFormed(d, context, links)
    && (links == [] ==> forall k :: 0 <= k < |set_| ==> InScope(d, context, set_[k]))
  }

  ghost predicate Right(d: Doc, context: int, links: seq<Link>, set_: seq<int>)
    requires Posed(d, context, links, set_)
  {
    Selected(d, context, links, set_) == Some(Matching(d, context, links, set_))
  }

  // ---- one candidate that comes to the document

  predicate ChildOfSome(link: Link) {
    link.comb == Child && link.part.Simple?
  }

  // Evaluated by itself, c comes to the document, whose parent is then asked for.
  ghost predicate Strays(d: Doc, links: seq<Link>, c: Check)
    requires Valid(d) && (c.At? ==> IsNode(d, c.node))
    decreases |links|
  {
    links != [] && ((c == At(0) && ChildOfSome(links[0])) || Strays(d, links[1..], Rel(d, links[0], c)))
  }

  lemma {:induction false} StraysToNull(d: Doc, links: seq<Link>, c: Check)
    requires Valid(d) && (c.At? ==> IsNode(d, c.node)) && c != Null
    ensures Strays(d, links, c) <==> RelAll(d, links, c) == Null
    decreases |links|
  {
    if links != [] {
      var r := Rel(d, links[0], c);
      if r == Null {
        Falsy(d, 0, links[1..], r);
      } else {
        StraysToNull(d, links[1..], r);
      }
    }
  }

  // ---- entries before the first null are as if evaluated by themselves

  lemma MovedIsRel(d: Doc, link: Link, c: Check)
    requires Valid(d) && (c.At? ==> IsNode(d, c.node)) && FiltersAfter(link)
    ensures Filtered(link.part.test, Moved(d, link.comb, c)) == Rel(d, link, c)
  {
    if c.At? {
      PreviousElementIsBefore(d, c.node, NULL);
    }
  }

  lemma StepBefore(d: Doc, link: Link, entries: seq<Check>, k: nat)
    requires NodeEntries(d, entries) && k < |entries| && k <= FirstNull(StepList(d, link, entries))
    ensures StepList(d, link, entries)[k] == Rel(d, link, entries[k])
  {
    if FiltersAfter(link) {
      var moved, after := MovedEach(d, link.comb, entries), StepList(d, link, entries);
      FirstNullIs(after, FirstNull(moved));
      MovedIsRel(d, link, entries[k]);
    }
  }

  ghost predicate AsAlone(d: Doc, links: seq<Link>, entries: seq<Check>, checks: seq<Check>) {
    && NodeEntries(d, entries) && |checks| == |entries|
    && forall k :: 0 <= k < |checks| && k <= FirstNull(checks) ==> checks[k] == RelAll(d, links, entries[k])
  }

  lemma {:induction false} EvaluateAsAlone(d: Doc, links: seq<Link>, entries: seq<Check>)
    requires NodeEntries(d, entries) && Evaluate(d, links, entries).Some?
    ensures AsAlone(d, links, entries, Evaluate(d, links, entries).value)
    decreases |links|
  {
    if links != [] {
      var after := StepList(d, links[0], entries);
      var checks := Evaluate(d, links, entries).value;
      EvaluateAsAlone(d, links[1..], after);
      var n := FirstNull(after);
      if n < FirstNull(checks) {
        Falsy(d, 0, links[1..], after[n]);
      }
      forall k | 0 <= k < |checks| && k <= FirstNull(checks)
        ensures checks[k] == RelAll(d, links, entries[k])
      {
        StepBefore(d, links[0], entries, k);
      }
    }
  }

  // Where no entry comes to null by itself, nothing is thrown.
  lemma {:induction false} NoneThrows(d: Doc, links: seq<Link>, entries: seq<Check>)
    requires NodeEntries(d, entries)
    requires forall k :: 0 <= k < |entries| ==> RelAll(d, links, entries[k]) != Null
    ensures Evaluate(d, links, entries).Some?
    decreases |links|
  {
    if links != [] {
      var each := RelEach(d, links[0], entries);
      forall k | 0 <= k < |entries|
        ensures each[k] != Null && !Fails(d, links[0], entries[k])
      {
        if each[k] == Null {
          Falsy(d, 0, links[1..], each[k]);
        }
      }
      var after := StepList(d, links[0], entries);
      if FiltersAfter(links[0]) {
        var moved := MovedEach(d, links[0].comb, entries);
        forall k | 0 <= k < |entries|
          ensures moved[k] != Null && Filtered(links[0].part.test, moved[k]) == each[k]
        {
          assert each[k] != Null;
          MovedIsRel(d, links[0], entries[k]);
        }
        FirstNullIs(moved, |moved|);
      }
      assert after == each;
      NoneThrows(d, links[1..], after);
    }
  }

  // ---- what is kept

  lemma FirstNullOfRest(checks: seq<Check>)
    requires checks != [] && checks[0] != Null
    ensures FirstNull(checks) == FirstNull(checks[1..]) + 1
  {
  }

  lemma {:induction false} KeptMatches(d: Doc, context: int, links: seq<Link>, set_: seq<int>, checks: seq<Check>,
                                       x: int)
    requires Elements(d, set_) && WellFormed(d, context, links) && NodeEntries(d, checks)
    requires AsAlone(d, links, Entries(d, set_), checks)
    ensures x in Kept(d, context, set_, checks) ==> x in set_ && IsNode(d, x) && Matches(d, context, links, x)
  {
    if set_ != [] && checks[0] != Null {
      assert checks[0] == RelAll(d, links, Entries(d, set_)[0]);
      RestAsAlone(d, links, set_, checks);
      KeptMatches(d, context, links, set_[1..], checks[1..], x);
      if Accepted(d, context, checks[0]) {
        Sound(d, context, links, set_[0]);
      }
    }
  }

  lemma RestAsAlone(d: Doc, links: seq<Link>, set_: seq<int>, checks: seq<Check>)
    requires Elements(d, set_) && AsAlone(d, links, Entries(d, set_), checks) && set_ != [] && checks[0] != Null
    ensures Elements(d, set_[1..]) && AsAlone(d, links, Entries(d, set_[1..]), checks[1..])
  {
    FirstNullOfRest(checks);
    var entries := Entries(d, set_);
    forall k | 0 <= k < |set_| - 1 && k <= FirstNull(checks[1..])
      ensures checks[1..][k] == RelAll(d, links, Entries(d, set_[1..])[k])
    {
      assert checks[k + 1] == RelAll(d, links, entries[k + 1]);
    }
  }

  ghost predicate NoneMatchesFrom(d: Doc, context: int, links: seq<Link>, set_: seq<int>, n: nat)
    requires Elements(d, set_) && IsNode(d, context)
  {
    forall k :: n <= k < |set_| ==> !Matches(d, context, links, set_[k])
  }

  lemma NoneMatching(d: Doc, context: int, links: seq<Link>, set_: seq<int>)
    requires Elements(d, set_) && IsNode(d, context)
    ensures Matching(d, context, links, set_) == [] <==> NoneMatchesFrom(d, context, links, set_, 0)
  {
    if set_ != [] {
      NoneMatching(d, context, links, set_[1..]);
      NoneFromRest(d, context, links, set_, 1);
    }
  }

  lemma NoneFromRest(d: Doc, context: int, links: seq<Link>, set_: seq<int>, n: nat)
    requires Elements(d, set_) && IsNode(d, context) && set_ != [] && n >= 1
    ensures NoneMatchesFrom(d, context, links, set_, n) <==> NoneMatchesFrom(d, context, links, set_[1..], n - 1)
  {
    if NoneMatchesFrom(d, context, links, set_[1..], n - 1) {
      forall k | n <= k < |set_|
        ensures !Matches(d, context, links, set_[k])
      {
        assert set_[1..][k - 1] == set_[k];
      }
    }
  }

  // For the chains without an incompatible pair the matching candidates before the first
  // null are kept.
  lemma {:induction false} KeptExactly(d: Doc, context: int, links: seq<Link>, set_: seq<int>, checks: seq<Check>)
    requires Elements(d, set_) && WellFormed(d, context, links) && NodeEntries(d, checks) && Monotone(Combs(links))
    requires AsAlone(d, links, Entries(d, set_), checks)
    ensures Kept(d, context, set_, checks) == Matching(d, context, links, set_) <==>
            NoneMatchesFrom(d, context, links, set_, FirstNull(checks))
  {
    if set_ == [] {
    } else if checks[0] == Null {
      NoneMatching(d, context, links, set_);
    } else {
      var x := set_[0];
      assert checks[0] == RelAll(d, links, Entries(d, set_)[0]);
      RestAsAlone(d, links, set_, checks);
      KeptExactly(d, context, links, set_[1..], checks[1..]);
      FirstNullOfRest(checks);
      NoneFromRest(d, context, links, set_, FirstNull(checks));
      if Matches(d, context, links, x) {
        Complete(d, context, links, x);
      } else if Accepted(d, context, checks[0]) {
        Sound(d, context, links, x);
      }
      assert Accepted(d, context, checks[0]) <==> Matches(d, context, links, x);
      var rest, wanted := Kept(d, context, set_[1..], checks[1..]), Matching(d, context, links, set_[1..]);
      assert ([x] + rest)[1..] == rest && ([x] + wanted)[1..] == wanted;
    }
  }

  // ---- the theorems

  // Element x is among the candidates, and an earlier one strays.
  ghost predicate Behind(d: Doc, links: seq<Link>, set_: seq<int>, j: int)
    requires Elements(d, set_)
  {
    exists i :: 0 <= i <= j < |set_| && Strays(d, links, At(set_[i]))
  }

  lemma BehindIsAfterNull(d: Doc, links: seq<Link>, set_: seq<int>, checks: seq<Check>, j: nat)
    requires Elements(d, set_) && AsAlone(d, links, Entries(d, set_), checks) && j < |set_|
    ensures Behind(d, links, set_, j) <==> FirstNull(checks) <= j
  {
    var entries, n := Entries(d, set_), FirstNull(checks);
    forall i | 0 <= i < |set_| && i <= n
      ensures Strays(d, links, At(set_[i])) <==> checks[i] == Null
    {
      StraysToNull(d, links, At(set_[i]));
      assert checks[i] == RelAll(d, links, entries[i]);
    }
    if n <= j {
      assert checks[n] == Null;
    }
  }

  // Everything returned matches.
  lemma SelectedMatch(d: Doc, context: int, links: seq<Link>, set_: seq<int>, x: int)
    requires Posed(d, context, links, set_) && Selected(d, context, links, set_).Some?
    ensures x in Selected(d, context, links, set_).value ==>
              x in set_ && IsNode(d, x) && Matches(d, context, links, x)
  {
    if links != [] {
      EvaluateAsAlone(d, links, Entries(d, set_));
      KeptMatches(d, context, links, set_, Evaluate(d, links, Entries(d, set_)).value, x);
    }
  }

  lemma AllMatch(d: Doc, context: int, set_: seq<int>)
    requires Posed(d, context, [], set_)
    ensures Matching(d, context, [], set_) == set_
  {
    if set_ != [] {
      AllMatch(d, context, set_[1..]);
    }
  }

  // For the chains without an incompatible pair and any candidates, the results are the
  // candidates that match, all of them and in order, if and only if nothing is thrown and
  // no candidate that matches comes after one that strays.
  lemma SelectionIsRight(d: Doc, context: int, links: seq<Link>, set_: seq<int>)
    requires Posed(d, context, links, set_) && Monotone(Combs(links))
    ensures Right(d, context, links, set_) <==>
            && Selected(d, context, links, set_).Some?
            && forall j :: 0 <= j < |set_| && Behind(d, links, set_, j) ==> !Matches(d, context, links, set_[j])
  {
    if links == [] {
      AllMatch(d, context, set_);
    } else if Selected(d, context, links, set_).Some? {
      var checks := Evaluate(d, links, Entries(d, set_)).value;
      EvaluateAsAlone(d, links, Entries(d, set_));
      KeptExactly(d, context, links, set_, checks);
      forall j | 0 <= j < |set_|
        ensures Behind(d, links, set_, j) <==> FirstNull(checks) <= j
      {
        BehindIsAfterNull(d, links, set_, checks, j);
      }
    }
  }

  ghost predicate NoneStrays(d: Doc, links: seq<Link>, set_: seq<int>)
    requires Elements(d, set_)
  {
    forall k :: 0 <= k < |set_| ==> !Strays(d, links, At(set_[k]))
  }

  lemma RightUnlessStray(d: Doc, context: int, links: seq<Link>, set_: seq<int>)
    requires Posed(d, context, links, set_) && Monotone(Combs(links)) && NoneStrays(d, links, set_)
    ensures Right(d, context, links, set_)
  {
    var entries := Entries(d, set_);
    forall k | 0 <= k < |entries|
      ensures RelAll(d, links, entries[k]) != Null
    {
      StraysToNull(d, links, At(set_[k]));
    }
    NoneThrows(d, links, entries);
    SelectionIsRight(d, context, links, set_);
  }

  // The chain is safe for this document and context: an element that strays, put before one
  // that matches, loses it.
  lemma RightForAllCandidates(d: Doc, context: int, links: seq<Link>, m: int)
    requires Valid(d) && WellFormed(d, context, links) && Monotone(Combs(links))
    requires IsNode(d, m) && d.element[m] && Matches(d, context, links, m)
    ensures (forall x :: IsNode(d, x) && d.element[x] ==> !Strays(d, links, At(x))) <==>
            (forall set_ :: Posed(d, context, links, set_) ==> Right(d, context, links, set_))
  {
    if forall x :: IsNode(d, x) && d.element[x] ==> !Strays(d, links, At(x)) {
      forall set_ | Posed(d, context, links, set_)
        ensures Right(d, context, links, set_)
      {
        RightUnlessStray(d, context, links, set_);
      }
    } else {
      var x :| IsNode(d, x) && d.element[x] && Strays(d, links, At(x));
      var set_ := [x, m];
      assert Elements(d, set_) && Strays(d, links, At(set_[0])) && Matches(d, context, links, set_[1]);
      assert Behind(d, links, set_, 1);
      SelectionIsRight(d, context, links, set_);
      assert !Right(d, context, links, set_);
    }
  }

  // A condition on the selector alone: no operand of ">" with another one to its left
  // accepts the document.
  predicate WardsOff(links: seq<Link>) {
    forall k :: 0 < k < |links| && ChildOfSome(links[k - 1]) && ChildOfSome(links[k]) ==> !links[k - 1].part.test(0)
  }

  lemma {:induction false} WardedOff(d: Doc, context: int, links: seq<Link>, c: Check)
    requires Valid(d) && WellFormed(d, context, links) && WardsOff(links)
    requires c.At? ==> IsNode(d, c.node)
    requires c == At(0) && links != [] ==> !ChildOfSome(links[0])
    ensures !Strays(d, links, c)
    decreases |links|
  {
    if links != [] {
      var r := Rel(d, links[0], c);
      assert WardsOff(links[1..]) by {
        forall k | 0 < k < |links| - 1 && ChildOfSome(links[1..][k - 1]) && ChildOfSome(links[1..][k])
          ensures !links[1..][k - 1].part.test(0)
        {
          assert links[1..][k] == links[k + 1] && links[1..][k - 1] == links[(k + 1) - 1];
        }
      }
      if c.At? {
        RelIsSound(d, links[0], c.node);
      }
      if r == At(0) && |links| > 1 && c.At? {
        assert links[1] == links[1..][0] && links[1 - 1] == links[0];
      }
      WardedOff(d, context, links[1..], r);
    }
  }

  // ---- a concrete page: a document, its html, body and one p

  function Page(): Doc {
    Doc([NULL, 0, 1, 2], [false, true, true, true])
  }

  // `:has(p)`, which the document passes too.
  function HasP(): Test {
    y => y < 3
  }

  // `left > :has(p) > *`, where left is a compound selector or the name of a tag.
  function HasPUnder(left: Part): seq<Link> {
    [Link(Child, Simple(HasP(), false)), Link(Child, left)]
  }

  // Each candidate moves to its parent, and html to the document, which passes.
  lemma FirstStep(left: Part)
    ensures Posed(Page(), 0, [], [1, 2, 3])
    ensures var d, links := Page(), HasPUnder(left);
            && !Throws(d, links[0], Entries(d, [1, 2, 3]))
            && StepList(d, links[0], Entries(d, [1, 2, 3])) == [At(0), At(1), At(2)]
            && links[1..] == [links[1]]
  {
    var d, link, entries := Page(), HasPUnder(left)[0], Entries(Page(), [1, 2, 3]);
    var moved := MovedEach(d, Child, entries);
    assert moved == [At(0), At(1), At(2)];
    FirstNullIs(moved, 3);
    assert FilterList(HasP(), moved) == moved;
  }

  // `* > :has(p) > *` returns nothing, although the p matches.
  lemma MatchIsLost()
    ensures var any: Test := y => y > 0;
            var d, links := Page(), HasPUnder(Simple(any, false));
            && Posed(d, 0, links, [1, 2, 3]) && Monotone(Combs(links)) && Matches(d, 0, links, 3)
            && Selected(d, 0, links, [1, 2, 3]) == Some([])
  {
    var any: Test := y => y > 0;
    var d, links := Page(), HasPUnder(Simple(any, false));
    FirstStep(Simple(any, false));
    assert Matches(d, 0, [], 1);
    assert Leftwards(d, 0, links[1..], 1, 2);
    assert Leftwards(d, 0, links, 2, 3);
    var entries := [At(0), At(1), At(2)];
    assert MovedEach(d, Child, entries)[0] == Null;
    FirstNullIs(MovedEach(d, Child, entries), 0);
    assert StepList(d, links[1], entries)[0] == Null;
    assert Evaluate(d, links[1..], entries) == Some(StepList(d, links[1], entries));
  }

  // `div > :has(p) > *` throws.
  lemma NameOfNoParent()
    ensures var div: Test := y => false;
            var d, links := Page(), HasPUnder(Simple(div, true));
            && Posed(d, 0, links, [1, 2, 3]) && Selected(d, 0, links, [1, 2, 3]) == None
  {
    var div: Test := y => false;
    var d, links := Page(), HasPUnder(Simple(div, true));
    FirstStep(Simple(div, true));
    var entries := [At(0), At(1), At(2)];
    assert Fails(d, links[1], entries[0]);
  }

  // A test that nothing on the page passes.
  function Nowhere(): Test {
    y => false
  }

  // `div > .a > :has(p) > *`
  function ThreeUp(): seq<Link> {
    [Link(Child, Simple(HasP(), false)), Link(Child, Simple(Nowhere(), false)), Link(Child, Simple(Nowhere(), true))]
  }

  lemma TwoSteps()
    ensures Posed(Page(), 0, ThreeUp(), [1, 2])
    ensures var d, links, first := Page(), ThreeUp(), [At(0), At(1)];
            && StepList(d, links[0], Entries(d, [1, 2])) == first
            && StepList(d, links[1], first) == [Null, At(0)]
  {
    var d, links, first, second := Page(), ThreeUp(), [At(0), At(1)], [Null, At(0)];
    assert MovedEach(d, Child, Entries(d, [1, 2])) == first;
    FirstNullIs(first, 2);
    assert FilterList(HasP(), first) == first;
    assert MovedEach(d, Child, first) == second;
    FirstNullIs(second, 0);
    assert FilterList(Nowhere(), second) == second;
  }

  lemma StepsThrow()
    ensures NodeEntries(Page(), [Null, At(0)]) && Throws(Page(), ThreeUp()[2], [Null, At(0)])
  {
    assert Fails(Page(), ThreeUp()[2], [Null, At(0)][1]);
  }

  // That chain throws as well: html comes to null, and so what comes after it is not asked for its
  // class, not even the document, to which body has come by then.
  lemma UnfilteredThrows()
    ensures Posed(Page(), 0, ThreeUp(), [1, 2]) && Selected(Page(), 0, ThreeUp(), [1, 2]) == None
  {
    var d, links := Page(), ThreeUp();
    TwoSteps();
    StepsThrow();
    hide StepList, Throws;
    var entries := Entries(d, [1, 2]);
    assert !Throws(d, links[0], entries) && !Throws(d, links[1], [At(0), At(1)]) by {
      NameNotAsked(d, links[0], entries);
      NameNotAsked(d, links[1], [At(0), At(1)]);
    }
    assert links[1..][0] == links[1] && links[1..][1..] == links[2..] && links[2..][0] == links[2];
  }

  lemma NameNotAsked(d: Doc, link: Link, entries: seq<Check>)
    requires NodeEntries(d, entries) && link.part.Simple? && !link.part.tag
    ensures !Throws(d, link, entries)
  {
  }

  // By itself only html strays; body would not.
  lemma OnlyTheFirstStrays()
    ensures Valid(Page()) && Strays(Page(), ThreeUp(), At(1)) && !Strays(Page(), ThreeUp(), At(2))
  {
    var d, links := Page(), ThreeUp();
    assert Rel(d, links[0], At(1)) == At(0) && Rel(d, links[0], At(2)) == At(1) && Rel(d, links[1], At(1)) == No;
    assert links[1..][0] == links[1] && links[1..][1..] == links[2..];
    NothingStrays(d, links[2..]);
  }

  lemma NothingStrays(d: Doc, links: seq<Link>)
    requires Valid(d)
    ensures !Strays(d, links, No)
  {
    if links != [] {
      NothingStrays(d, links[1..]);
    }
  }
}
