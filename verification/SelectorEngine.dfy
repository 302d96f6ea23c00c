/** Sizzle's combinator functions and main loop, with checkSet as an array that is
    overwritten in place and the marks that dirCheck and dirNodeCheck leave on DOM nodes. */
module SelectorEngine {
  import opened Dom
  import opened Options
  import opened SelectorLists
  import opened Selectors

  // What a walk that starts at y comes to: the first node that passes, or nothing.
  ghost function Outcome(d: Doc, axis: Axis, part: Part, y: int): Check
    requires Dom.Valid(d) && -1 <= y < |d.parent|
    decreases y
  {
    if y == NULL then No
    else if PartTest(d, part, y) then Hit(part, y)
    else Outcome(d, axis, part, Go(d, axis, y))
  }

  predicate PartTest(d: Doc, part: Part, y: int)
    requires Dom.Valid(d) && IsNode(d, y)
  {
    match part case Simple(test, _) => Sat(d, test, y) case Context(node) => d.element[y] && y == node
  }

  function Hit(part: Part, y: int): Check {
    if part.Simple? then At(y) else Yes
  }

  function AxisOf(comb: Comb): Axis {
    if comb == Descendant then Up else Back
  }

  // The combinators "" and "~" apply such a walk.
  lemma OutcomeIsRel(d: Doc, comb: Comb, part: Part, x: int)
    requires Dom.Valid(d) && IsNode(d, x) && (comb == Descendant || comb == General)
    ensures Outcome(d, AxisOf(comb), part, Go(d, AxisOf(comb), x)) == Rel(d, Link(comb, part), At(x))
    decreases x
  {
    var y := Go(d, AxisOf(comb), x);
    if y != NULL && !PartTest(d, part, y) {
      OutcomeIsRel(d, comb, part, y);
    }
  }

  // Names that a selector can contain are names of elements.
  predicate NameTest(d: Doc, part: Part) {
    part.Simple? && part.tag ==> forall y :: 0 <= y < |d.element| && part.test(y) ==> d.element[y]
  }

  predicate ByName(part: Part) {
    part.Simple? && part.tag
  }

  // A mark under this name points to the entry of checkSet that a walk from the marked node
  // comes to. The marks with index i are those of the walk in progress, which comes to goal
  // and has the nodes up to `upto` still to go.
  ghost predicate MarksOk(d: Doc, axis: Axis, part: Part, name: int, marks: seq<int>, indices: seq<int>,
                          entries: seq<Check>, i: int, goal: Check, upto: int)
  {
    && Dom.Valid(d) && |marks| == |indices| == |d.parent| && 0 <= i <= |entries|
    && forall y :: 0 <= y < |marks| && marks[y] == name ==>
         && 0 <= indices[y] <= i
         && (indices[y] < i ==> entries[indices[y]] == Outcome(d, axis, part, y))
         && (indices[y] == i ==> Outcome(d, axis, part, y) == goal && y > upto)
  }

  lemma OutcomeStep(d: Doc, axis: Axis, part: Part, y: int)
    requires Dom.Valid(d) && -1 <= y < |d.parent|
    ensures Outcome(d, axis, part, y) ==
            if y == NULL then No
            else if PartTest(d, part, y) then Hit(part, y)
            else Outcome(d, axis, part, Go(d, axis, y))
  {
  }

  // No walk in progress yet, or the same one further on.
  lemma ForAnyGoal(d: Doc, axis: Axis, part: Part, name: int, marks: seq<int>, indices: seq<int>,
                   entries: seq<Check>, i: int, goal: Check, upto: int, goal': Check, upto': int)
    requires MarksOk(d, axis, part, name, marks, indices, entries, i, goal, upto)
    requires upto >= |d.parent| || (goal' == goal && upto' <= upto)
    ensures MarksOk(d, axis, part, name, marks, indices, entries, i, goal', upto')
  {
  }

  // A node that is marked already: its entry is known and is where this walk comes to.
  lemma MarkTells(d: Doc, axis: Axis, part: Part, name: int, marks: seq<int>, indices: seq<int>,
                  entries: seq<Check>, i: int, goal: Check, elem: int)
    requires MarksOk(d, axis, part, name, marks, indices, entries, i, goal, elem)
    requires IsNode(d, elem) && marks[elem] == name && Outcome(d, axis, part, elem) == goal
    ensures 0 <= indices[elem] < i && entries[indices[elem]] == goal
  {
  }

  lemma MarkSet(d: Doc, axis: Axis, part: Part, name: int, marks: seq<int>, indices: seq<int>,
                entries: seq<Check>, i: int, goal: Check, elem: int)
    requires MarksOk(d, axis, part, name, marks, indices, entries, i, goal, elem)
    requires IsNode(d, elem) && Outcome(d, axis, part, elem) == goal
    ensures MarksOk(d, axis, part, name, marks[elem := name], indices[elem := i], entries, i, goal, elem - 1)
    ensures MarksOk(d, axis, part, name, marks, indices, entries, i, goal, elem - 1)
  {
  }

  // Nested queries can only take marks away.
  lemma LaterMarks(d: Doc, axis: Axis, part: Part, name: int, marks: seq<int>, indices: seq<int>,
                   marks': seq<int>, indices': seq<int>, entries: seq<Check>, i: int, goal: Check, upto: int)
    requires MarksOk(d, axis, part, name, marks, indices, entries, i, goal, upto)
    requires |marks'| == |indices'| == |marks|
    requires forall y :: 0 <= y < |marks| ==> (marks'[y] == marks[y] && indices'[y] == indices[y]) || marks'[y] != name
    ensures MarksOk(d, axis, part, name, marks', indices', entries, i, goal, upto)
  {
  }

  lemma WalkEnds(d: Doc, axis: Axis, part: Part, name: int, marks: seq<int>, indices: seq<int>,
                 entries: seq<Check>, i: int, goal: Check, upto: int)
    requires MarksOk(d, axis, part, name, marks, indices, entries, i, goal, upto) && i < |entries|
    ensures MarksOk(d, axis, part, name, marks, indices, entries[i := goal], i + 1, No, |d.parent|)
  {
  }

  // checkSet after the first i entries are replaced.
  ghost predicate Replaced(d: Doc, link: Link, before: seq<Check>, now: seq<Check>, i: int) {
    && NodeEntries(d, before) && NodeEntries(d, now) && 0 <= i <= |before| == |now|
    && (forall k :: 0 <= k < i ==> now[k] == Rel(d, link, before[k]))
    && (forall k :: i <= k < |now| ==> now[k] == before[k])
  }

  lemma ReplaceNext(d: Doc, link: Link, before: seq<Check>, now: seq<Check>, i: int)
    requires Replaced(d, link, before, now, i) && i < |before|
    ensures now[i] == before[i] && (now[i].At? ==> IsNode(d, now[i].node))
    ensures Replaced(d, link, before, now[i := Rel(d, link, now[i])], i + 1)
    ensures !now[i].At? ==> now[i := now[i]] == now && Replaced(d, link, before, now, i + 1)
  {
    assert now[i := now[i]] == now;
  }

  lemma ReplacedAll(d: Doc, link: Link, before: seq<Check>, now: seq<Check>)
    requires Replaced(d, link, before, now, |before|)
    ensures now == RelEach(d, link, before)
  {
  }

  lemma NoneReplaced(d: Doc, link: Link, before: seq<Check>)
    requires NodeEntries(d, before)
    ensures Replaced(d, link, before, before, 0)
  {
  }

  lemma NoMarks(d: Doc, axis: Axis, part: Part, name: int, marks: seq<int>, indices: seq<int>, entries: seq<Check>)
    requires Dom.Valid(d) && |marks| == |indices| == |d.parent| && forall y :: 0 <= y < |marks| ==> marks[y] != name
    ensures MarksOk(d, axis, part, name, marks, indices, entries, 0, No, |d.parent|)
  {
  }

  lemma SkipEntry(d: Doc, axis: Axis, part: Part, name: int, marks: seq<int>, indices: seq<int>,
                  entries: seq<Check>, i: int)
    requires MarksOk(d, axis, part, name, marks, indices, entries, i, No, |d.parent|) && i < |entries|
    ensures MarksOk(d, axis, part, name, marks, indices, entries, i + 1, No, |d.parent|)
  {
  }

  // checkSet after the first i entries are moved by ">" or "+".
  ghost predicate Stepping(d: Doc, link: Link, before: seq<Check>, now: seq<Check>, i: int) {
    && NodeEntries(d, before) && 0 <= i <= |before| == |now|
    && (forall k :: 0 <= k < i ==>
          !Fails(d, link, before[k]) &&
          now[k] == if FiltersAfter(link) then Moved(d, link.comb, before[k]) else Rel(d, link, before[k]))
    && (forall k :: i <= k < |now| ==> now[k] == before[k])
  }

  lemma StartStepping(d: Doc, link: Link, before: seq<Check>)
    requires NodeEntries(d, before)
    ensures Stepping(d, link, before, before, 0)
  {
  }

  lemma NextEntry(d: Doc, link: Link, before: seq<Check>, now: seq<Check>, i: int)
    requires Stepping(d, link, before, now, i) && i < |before|
    ensures now[i] == before[i] && (now[i].At? ==> IsNode(d, now[i].node))
    ensures Fails(d, link, now[i]) ==> Throws(d, link, before)
    ensures !Fails(d, link, now[i]) && now[i].At? ==>
              var r := if FiltersAfter(link) then Moved(d, link.comb, now[i]) else Rel(d, link, now[i]);
              Stepping(d, link, before, now[i := r], i + 1)
    ensures !now[i].At? ==> Stepping(d, link, before, now, i + 1)
  {
  }

  lemma StepListIs(d: Doc, link: Link, before: seq<Check>)
    requires NodeEntries(d, before)
    ensures StepList(d, link, before) ==
            if FiltersAfter(link) then FilterList(link.part.test, MovedEach(d, link.comb, before))
            else RelEach(d, link, before)
  {
  }

  lemma SteppedAll(d: Doc, link: Link, before: seq<Check>, now: seq<Check>)
    requires Stepping(d, link, before, now, |before|) && (link.comb == Child || link.comb == Adjacent)
    ensures !Throws(d, link, before)
    ensures now == if FiltersAfter(link) then MovedEach(d, link.comb, before) else RelEach(d, link, before)
  {
  }

  // What is written for an entry whose parent or previous element is y.
  function Written(part: Part, y: int, comb: Comb): Check {
    match part
    case Context(node) => Truth(y == node)
    case Simple(test, tag) =>
      if tag then if y != NULL && test(y) then At(y) else No
      else if y != NULL then At(y)
      else if comb == Child then Null
      else No
  }

  lemma WrittenIs(d: Doc, link: Link, x: int)
    requires Dom.Valid(d) && IsNode(d, x) && (link.comb == Child || link.comb == Adjacent)
    requires !Fails(d, link, At(x)) && NameTest(d, link.part)
    ensures Written(link.part, if link.comb == Child then Parent(d, x) else PreviousElement(d, x), link.comb) ==
            if FiltersAfter(link) then Moved(d, link.comb, At(x)) else Rel(d, link, At(x))
  {
  }

  lemma EvaluateStep(d: Doc, links: seq<Link>, part: nat, entries: seq<Check>)
    requires NodeEntries(d, entries) && part < |links|
    ensures Evaluate(d, links[part..], entries) ==
            if Throws(d, links[part], entries) then None
            else Evaluate(d, links[part + 1..], StepList(d, links[part], entries))
    ensures links[part].comb == Descendant || links[part].comb == General ==>
              StepList(d, links[part], entries) == RelEach(d, links[part], entries)
  {
    assert links[part..][0] == links[part] && links[part..][1..] == links[part + 1..];
  }

  class Engine {
    const doc: Doc
    const isXML: bool
    var done: int
    var expando: array<int>   // the mark on each node, -1 where there is none
    var sizset: array<int>    // the checkSet index stored with it

    ghost predicate Valid()
      reads this, expando
    {
      && Dom.Valid(doc)
      && expando.Length == |doc.parent| && sizset.Length == |doc.parent| && expando != sizset
      && done >= 0
      && forall y :: 0 <= y < expando.Length ==> expando[y] < done
    }

    // Marks made under an earlier name are as they were, or overwritten under a later one.
    twostate predicate OnlyLaterMarks()
      requires old(Valid()) && Valid()
      reads this, expando, sizset
    {
      && expando == old(expando) && sizset == old(sizset) && old(done) <= done
      && forall y :: 0 <= y < expando.Length ==>
           (expando[y] == old(expando[y]) && sizset[y] == old(sizset[y])) || old(done) <= expando[y]
    }

    // Sizzle.filter( part, [ elem ] ): whether elem passes. A nested query may run in it and
    // leave any marks, under names of its own.
    method Filter(test: Test, x: int) returns (found: bool)
      requires Valid() && IsNode(doc, x)
      modifies this`done, expando, sizset
      ensures Valid() && OnlyLaterMarks()
      ensures found == test(x)
    {
      var names :| names >= 0;
      var first := done;
      done := done + names;
      var marks :| marks >= 0;
      for k := 0 to marks
        invariant Valid() && done == first + names && expando == old(expando) && sizset == old(sizset)
        invariant forall y :: 0 <= y < expando.Length ==>
          (expando[y] == old(expando[y]) && sizset[y] == old(sizset[y])) || first <= expando[y]
      {
        var node: int, name: int, index: int := *, *, *;
        if 0 <= node < expando.Length && 0 <= name < names {
          expando[node] := first + name;
          sizset[node] := index;
        }
      }
      found := test(x);
    }

    // ---- dirCheck and dirNodeCheck

    // The test of one node. A name is compared on any node, but only elements have names
    // that a selector can contain.
    method Passes(part: Part, x: int) returns (passes: bool)
      requires Valid() && IsNode(doc, x)
      requires NameTest(doc, part)
      modifies this`done, expando, sizset
      ensures Valid() && OnlyLaterMarks()
      ensures passes == PartTest(doc, part, x)
    {
      if ByName(part) {
        passes := part.test(x);
      } else if !doc.element[x] {
        passes := false;
      } else if part.Context? {
        passes := x == part.node;
      } else {
        passes := Filter(part.test, x);
      }
    }

    // Marks node elem for entry i, unless the document is XML, and tests it.
    method MarkAndTest(axis: Axis, part: Part, name: int, checkSet: array<Check>, i: nat, elem: int,
                       ghost goal: Check) returns (passes: bool)
      requires Valid() && 0 <= name < done && i < checkSet.Length && IsNode(doc, elem)
      requires NameTest(doc, part)
      requires checkSet as object != expando && checkSet as object != sizset
      requires Outcome(doc, axis, part, elem) == goal
      requires MarksOk(doc, axis, part, name, expando[..], sizset[..], checkSet[..], i, goal, elem)
      modifies this`done, expando, sizset
      ensures Valid() && old(done) <= done
      ensures passes == PartTest(doc, part, elem)
      ensures MarksOk(doc, axis, part, name, expando[..], sizset[..], checkSet[..], i, goal, elem - 1)
    {
      hide Outcome, MarksOk, PartTest;
      ghost var marks, indices := expando[..], sizset[..];
      if doc.element[elem] && !isXML {
        expando[elem] := name;
        sizset[elem] := i;
      }
      MarkSet(doc, axis, part, name, marks, indices, checkSet[..], i, goal, elem);
      marks, indices := expando[..], sizset[..];
      passes := Passes(part, elem);
      LaterMarks(doc, axis, part, name, marks, indices, expando[..], sizset[..], checkSet[..], i, goal, elem - 1);
    }

    // The inner loop: the walk from start for entry i.
    method Walk(axis: Axis, part: Part, name: int, checkSet: array<Check>, i: nat, start: int)
      returns (found: Check)
      requires Valid() && 0 <= name < done && i < checkSet.Length && -1 <= start < |doc.parent|
      requires NameTest(doc, part)
      requires checkSet as object != expando && checkSet as object != sizset
      requires MarksOk(doc, axis, part, name, expando[..], sizset[..], checkSet[..], i, No, |doc.parent|)
      modifies this`done, expando, sizset
      ensures Valid() && old(done) <= done
      ensures found == Outcome(doc, axis, part, start)
      ensures MarksOk(doc, axis, part, name, expando[..], sizset[..], checkSet[..][i := found], i + 1, No, |doc.parent|)
    {
      hide Outcome, MarksOk, PartTest;
      var elem := start;
      found := No;
      ghost var goal := Outcome(doc, axis, part, start);
      ForAnyGoal(doc, axis, part, name, expando[..], sizset[..], checkSet[..], i, No, |doc.parent|, goal, elem);
      while elem != NULL
        invariant Valid() && old(done) <= done && -1 <= elem < |doc.parent|
        invariant Outcome(doc, axis, part, elem) == goal
        invariant MarksOk(doc, axis, part, name, expando[..], sizset[..], checkSet[..], i, goal, elem)
        decreases elem
      {
        if expando[elem] == name {
          MarkTells(doc, axis, part, name, expando[..], sizset[..], checkSet[..], i, goal, elem);
          found := checkSet[sizset[elem]];
          WalkEnds(doc, axis, part, name, expando[..], sizset[..], checkSet[..], i, goal, elem);
          return;
        }
        var passes := MarkAndTest(axis, part, name, checkSet, i, elem, goal);
        OutcomeStep(doc, axis, part, elem);
        if passes {
          found := Hit(part, elem);
          WalkEnds(doc, axis, part, name, expando[..], sizset[..], checkSet[..], i, goal, elem - 1);
          return;
        }
        ghost var left := elem - 1;
        elem := Go(doc, axis, elem);
        ForAnyGoal(doc, axis, part, name, expando[..], sizset[..], checkSet[..], i, goal, left, goal, elem);
      }
      OutcomeStep(doc, axis, part, elem);
      WalkEnds(doc, axis, part, name, expando[..], sizset[..], checkSet[..], i, goal, elem);
    }

    // The functions for "" and "~".
    method WalkAll(comb: Comb, part: Part, checkSet: array<Check>)
      requires Valid() && (comb == Descendant || comb == General) && NodeEntries(doc, checkSet[..])
      requires NameTest(doc, part)
      requires checkSet as object != expando && checkSet as object != sizset
      modifies this`done, expando, sizset, checkSet
      ensures Valid() && checkSet[..] == RelEach(doc, Link(comb, part), old(checkSet[..]))
    {
      hide Outcome, MarksOk, Rel, NodeEntries, RelEach, Replaced;
      var name := done;
      done := done + 1;
      ghost var before, link := checkSet[..], Link(comb, part);
      NoneReplaced(doc, link, before);
      NoMarks(doc, AxisOf(comb), part, name, expando[..], sizset[..], before);
      for i := 0 to checkSet.Length
        invariant Valid() && name < done
        invariant Replaced(doc, link, before, checkSet[..], i)
        invariant MarksOk(doc, AxisOf(comb), part, name, expando[..], sizset[..], checkSet[..], i, No, |doc.parent|)
      {
        ReplaceNext(doc, link, before, checkSet[..], i);
        if checkSet[i].At? {
          OutcomeIsRel(doc, comb, part, checkSet[i].node);
          var found := Walk(AxisOf(comb), part, name, checkSet, i, Go(doc, AxisOf(comb), checkSet[i].node));
          checkSet[i] := found;
        } else {
          SkipEntry(doc, AxisOf(comb), part, name, expando[..], sizset[..], checkSet[..], i);
        }
      }
      ReplacedAll(doc, link, before, checkSet[..]);
    }

    // Sizzle.filter( part, checkSet, true ), whose loop ends at the first null.
    method FilterInPlace(test: Test, checkSet: array<Check>)
      requires Valid() && NodeEntries(doc, checkSet[..])
      requires checkSet as object != expando && checkSet as object != sizset
      modifies this`done, expando, sizset, checkSet
      ensures Valid() && checkSet[..] == FilterList(test, old(checkSet[..]))
    {
      ghost var before := checkSet[..];
      var i := 0;
      while i < checkSet.Length && checkSet[i] != Null
        invariant Valid() && 0 <= i <= checkSet.Length
        invariant forall k :: 0 <= k < i ==> before[k] != Null && checkSet[k] == Filtered(test, before[k])
        invariant forall k :: i <= k < checkSet.Length ==> checkSet[k] == before[k]
      {
        if checkSet[i].At? {
          var found := Filter(test, checkSet[i].node);
          if !found {
            checkSet[i] := No;
          }
        }
        i := i + 1;
      }
      FirstNullIs(before, i);
    }

    method PreviousElementOf(x: int) returns (elem: int)
      requires Dom.Valid(doc) && IsNode(doc, x)
      ensures elem == PreviousElement(doc, x)
    {
      elem := PreviousSibling(doc, x);
      while elem != NULL && !doc.element[elem]
        invariant -1 <= elem < |doc.parent|
        invariant PreviousElement(doc, x) ==
                  if elem == NULL || doc.element[elem] then elem else PreviousElement(doc, elem)
        decreases elem
      {
        elem := PreviousSibling(doc, elem);
      }
    }

    // The functions for ">" and "+": each entry moves to the parent or the previous element,
    // which is tested at once or, for any other string than a tag name, afterwards. The name
    // of a parent that is not there cannot be read.
    method StepAll(comb: Comb, part: Part, checkSet: array<Check>) returns (ok: bool)
      requires Valid() && (comb == Child || comb == Adjacent) && NodeEntries(doc, checkSet[..])
      requires NameTest(doc, part)
      requires checkSet as object != expando && checkSet as object != sizset
      modifies this`done, expando, sizset, checkSet
      ensures Valid() && ok == !Throws(doc, Link(comb, part), old(checkSet[..]))
      ensures ok ==> checkSet[..] == StepList(doc, Link(comb, part), old(checkSet[..]))
    {
      hide Stepping, Written, Rel, Moved, StepList, RelEach, MovedEach, PreviousElement;
      ghost var before, link := checkSet[..], Link(comb, part);
      StartStepping(doc, link, before);
      for i := 0 to checkSet.Length
        invariant Valid() && Stepping(doc, link, before, checkSet[..], i)
      {
        NextEntry(doc, link, before, checkSet[..], i);
        if checkSet[i].At? {
          var elem;
          if comb == Adjacent {
            elem := PreviousElementOf(checkSet[i].node);
          } else {
            elem := Parent(doc, checkSet[i].node);
            if ByName(part) && elem == NULL {
              return false;
            }
          }
          WrittenIs(doc, link, before[i].node);
          checkSet[i] := Written(part, elem, comb);
        }
      }
      SteppedAll(doc, link, before, checkSet[..]);
      if part.Simple? && !part.tag {
        FilterInPlace(part.test, checkSet);
      }
      StepListIs(doc, link, before);
      ok := true;
    }

    // The main loop over the parts from right to left, and the pruning of the set; None if
    // a combinator throws.
    method Select(context: int, links: seq<Link>, set_: seq<int>) returns (results: Option<seq<int>>)
      requires Valid() && IsNode(doc, context) && Elements(doc, set_)
      requires forall k :: 0 <= k < |links| ==> NameTest(doc, links[k].part)
      modifies this`done, expando, sizset
      ensures Valid() && results == Selected(doc, context, links, set_)
    {
      hide Rel, RelEach, StepList, Moved, Accepted;
      if |links| == 0 {
        return Some(set_);   // prune is false
      }
      var checkSet := new Check[|set_|](k requires 0 <= k < |set_| => At(set_[k]));
      assert checkSet[..] == Entries(doc, set_);
      var part := 0;
      while part < |links|
        invariant 0 <= part <= |links| && Valid() && fresh(checkSet) && checkSet.Length == |set_|
        invariant NodeEntries(doc, checkSet[..])
        invariant Evaluate(doc, links[part..], checkSet[..]) == Evaluate(doc, links, Entries(doc, set_))
      {
        var link := links[part];
        EvaluateStep(doc, links, part, checkSet[..]);
        if link.comb == Descendant || link.comb == General {
          WalkAll(link.comb, link.part, checkSet);
        } else {
          var ok := StepAll(link.comb, link.part, checkSet);
          if !ok {
            return None;
          }
        }
        part := part + 1;
      }
      assert links[part..] == [];
      var kept := Prune(context, set_, checkSet);
      results := Some(kept);
    }

    // The loop over checkSet ends at the first null.
    method Prune(context: int, set_: seq<int>, checkSet: array<Check>) returns (results: seq<int>)
      requires Dom.Valid(doc) && IsNode(doc, context) && checkSet.Length == |set_|
      requires NodeEntries(doc, checkSet[..])
      ensures results == Kept(doc, context, set_, checkSet[..])
    {
      results := [];
      var i := 0;
      ghost var checks := checkSet[..];
      while i < |set_| && checkSet[i] != Null
        invariant 0 <= i <= |set_| && NodeEntries(doc, checks[i..])
        invariant results + Kept(doc, context, set_[i..], checks[i..]) == Kept(doc, context, set_, checks)
      {
        assert checks[i..][1..] == checks[i + 1..] && set_[i..][1..] == set_[i + 1..];
        assert checks[i..][0] == checkSet[i] && checks[i] == checkSet[i];
        if Accepted(doc, context, checkSet[i]) {
          results := results + [set_[i]];
        }
        i := i + 1;
      }
    }
  }
}
