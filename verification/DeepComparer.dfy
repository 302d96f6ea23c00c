/** The deep comparison itself: it pushes the objects it goes into on two stacks, and stops at
    the first difference. */
module DeepComparer {
  import opened ObjectGraph
  import DE = DeepEquality

  ghost function Zip(aStack: seq<nat>, bStack: seq<nat>): (st: DE.Stack)
    requires |aStack| == |bStack|
    ensures |st| == |aStack|
    ensures forall i :: 0 <= i < |st| ==> st[i] == (aStack[i], bStack[i])
  {
    if aStack == [] then [] else
      var n := |aStack| - 1;
      Zip(aStack[..n], bStack[..n]) + [(aStack[n], bStack[n])]
  }

  lemma ZipPush(aStack: seq<nat>, bStack: seq<nat>, x: nat, y: nat)
    requires |aStack| == |bStack|
    ensures Zip(aStack + [x], bStack + [y]) == Zip(aStack, bStack) + [(x, y)]
  {
  }

  lemma {:induction false} PartnerAt(st: DE.Stack, i: nat)
    requires i < |st| && forall k :: i < k < |st| ==> st[k].0 != st[i].0
    ensures DE.Partner(st, st[i].0) == st[i].1
    decreases |st|
  {
    var n := |st| - 1;
    assert DE.OnStack(st, st[i].0);
    if i < n {
      assert st[..n][i] == st[i];
      PartnerAt(st[..n], i);
    }
  }

  lemma ArraysEqual(g: Graph, x: nat, y: nat, st: DE.Stack)
    requires Valid(g) && x < |g| && y < |g| && g[x].ArrayObj? && g[y].ArrayObj?
    ensures WellFormed(g, g[x]) && WellFormed(g, g[y])
    ensures DE.EqMembers(g, x, y, st) <==>
            && |g[x].elems| == |g[y].elems|
            && forall i :: 0 <= i < |g[x].elems| ==> DE.Eq(g, g[x].elems[i], g[y].elems[i], st)
  {
    hide DE.Eq;
    assert WellFormed(g, g[x]) && WellFormed(g, g[y]);
    if |g[x].elems| == |g[y].elems| {
      assert forall i :: 0 <= i < |g[x].elems| ==> DE.Members(g, x, y)[i] == (g[x].elems[i], g[y].elems[i]);
    }
  }

  // Key number i of x leads to equal members.
  ghost predicate KeyEqual(g: Graph, x: nat, y: nat, i: nat, st: DE.Stack)
    requires Valid(g) && x < |g| && y < |g| && g[x].PlainObj? && g[y].PlainObj? && i < |g[x].keys|
  {
    assert WellFormed(g, g[x]) && WellFormed(g, g[y]);
    var key := g[x].keys[i];
    key in g[y].own && DE.Eq(g, g[x].own[key], g[y].own[key], st)
  }

  lemma ObjectsEqual(g: Graph, x: nat, y: nat, st: DE.Stack)
    requires Valid(g) && x < |g| && y < |g| && g[x].PlainObj? && g[y].PlainObj?
    ensures DE.EqMembers(g, x, y, st) <==>
            && DE.CtorsAgree(g, g[x], g[y]) && |g[x].keys| == |g[y].keys|
            && forall i :: 0 <= i < |g[x].keys| ==> KeyEqual(g, x, y, i, st)
  {
    hide DE.Eq;
    assert WellFormed(g, g[x]) && WellFormed(g, g[y]);
    if forall i :: 0 <= i < |g[x].keys| ==> KeyEqual(g, x, y, i, st) {
      assert forall i :: 0 <= i < |g[x].keys| ==> KeyEqual(g, x, y, i, st) ==> g[x].keys[i] in g[y].own;
    }
    if DE.Aligned(g, g[x], g[y]) {
      var keys := g[x].keys;
      var pairs := DE.Members(g, x, y);
      forall i | 0 <= i < |keys| ensures KeyEqual(g, x, y, i, st) <==> DE.Eq(g, pairs[i].0, pairs[i].1, st) {
        assert pairs[i] == (g[x].own[keys[i]], g[y].own[keys[i]]);
      }
      assert |pairs| == |keys|;
    }
  }

  class Comparer {
    var aStack: seq<nat>
    var bStack: seq<nat>

    constructor ()
      ensures aStack == bStack == []
    {
      aStack, bStack := [], [];
    }

    ghost function Stacks(): (st: DE.Stack)
      requires |aStack| == |bStack|
      reads this
    {
      Zip(aStack, bStack)
    }

    // After a difference the stacks may keep objects; nothing looks at them then.
    method Compare(g: Graph, a: Value, b: Value) returns (result: bool)
      requires Valid(g) && Inside(g, a) && Inside(g, b) && |aStack| == |bStack|
      modifies this
      ensures result == DE.Eq(g, a, b, old(Stacks()))
      ensures result ==> aStack == old(aStack) && bStack == old(bStack)
      ensures |aStack| == |bStack| >= old(|aStack|)
      decreases DE.Fresh(g, Stacks()), 1
    {
      hide Valid, DE.Decide, DE.EqMembers, Zip, DE.Partner;
      var decided := DE.Decide(g, a, b);
      if decided.Some? {
        return decided.value;
      }
      DE.DecidesDeep(g, a, b);
      ghost var st := Stacks();
      var length := |aStack|;
      while length > 0
        invariant 0 <= length <= |aStack| && aStack == old(aStack) && bStack == old(bStack)
        invariant forall k :: length <= k < |aStack| ==> aStack[k] != a.node
      {
        length := length - 1;
        if aStack[length] == a.node {
          PartnerAt(st, length);
          assert st[length].0 == a.node;
          return bStack[length] == b.node;
        }
      }
      assert !DE.OnStack(st, a.node);
      DE.FreshShrinks(g, st, a.node, b.node);
      ZipPush(aStack, bStack, a.node, b.node);
      aStack, bStack := aStack + [a.node], bStack + [b.node];
      if g[a.node].ArrayObj? {
        result := CompareElements(g, a.node, b.node);
      } else {
        if !DE.SameCtor(g, ConstructorOf(g[a.node]), ConstructorOf(g[b.node])) {
          ObjectsEqual(g, a.node, b.node, Stacks());
          return false;
        }
        result := CompareProperties(g, a.node, b.node);
      }
      aStack, bStack := aStack[..|aStack| - 1], bStack[..|bStack| - 1];
    }

    // From the last element to the first.
    method CompareElements(g: Graph, x: nat, y: nat) returns (result: bool)
      requires Valid(g) && x < |g| && y < |g| && g[x].ArrayObj? && g[y].ArrayObj? && |aStack| == |bStack|
      modifies this
      ensures result == DE.EqMembers(g, x, y, old(Stacks()))
      ensures result ==> aStack == old(aStack) && bStack == old(bStack)
      ensures |aStack| == |bStack| >= old(|aStack|)
      decreases DE.Fresh(g, Stacks()), 2
    {
      hide Valid, DE.Eq, DE.EqMembers, Zip;
      ghost var st := Stacks();
      ArraysEqual(g, x, y, st);
      var size := |g[x].elems|;
      result := size == |g[y].elems|;
      while result && size > 0
        invariant 0 <= size <= |g[x].elems|
        invariant |aStack| == |bStack| >= old(|aStack|)
        invariant result ==> aStack == old(aStack) && bStack == old(bStack) && |g[x].elems| == |g[y].elems|
        invariant result ==> forall i :: size <= i < |g[x].elems| ==> DE.Eq(g, g[x].elems[i], g[y].elems[i], st)
        invariant !result ==> !DE.EqMembers(g, x, y, st)
        decreases size
      {
        size := size - 1;
        result := Compare(g, g[x].elems[size], g[y].elems[size]);
      }
    }

    // Counts the keys of the first object up, and those of the second one down again.
    method CompareProperties(g: Graph, x: nat, y: nat) returns (result: bool)
      requires Valid(g) && x < |g| && y < |g| && g[x].PlainObj? && g[y].PlainObj? && |aStack| == |bStack|
      requires DE.CtorsAgree(g, g[x], g[y])
      modifies this
      ensures result == DE.EqMembers(g, x, y, old(Stacks()))
      ensures result ==> aStack == old(aStack) && bStack == old(bStack)
      ensures |aStack| == |bStack| >= old(|aStack|)
      decreases DE.Fresh(g, Stacks()), 2
    {
      hide Valid, DE.Eq, DE.EqMembers, Zip, DE.CtorsAgree;
      ghost var st := Stacks();
      assert WellFormed(g, g[x]) && WellFormed(g, g[y]) by { ItsObjects(g, x, y); }
      ObjectsEqual(g, x, y, st);
      var size := 0;
      result := true;
      while result && size < |g[x].keys|
        invariant 0 <= size <= |g[x].keys|
        invariant |aStack| == |bStack| >= old(|aStack|)
        invariant result ==> aStack == old(aStack) && bStack == old(bStack)
        invariant result ==> forall i :: 0 <= i < size ==> KeyEqual(g, x, y, i, st)
        invariant !result ==> !DE.EqMembers(g, x, y, st)
        decreases |g[x].keys| - size
      {
        var key := g[x].keys[size];
        size := size + 1;
        result := key in g[y].own;
        if result {
          result := Compare(g, g[x].own[key], g[y].own[key]);
        }
        assert result == KeyEqual(g, x, y, size - 1, st);
      }
      if result {
        var i := 0;
        while i < |g[y].keys| && size >= 0
          invariant 0 <= i <= |g[y].keys|
          invariant size >= 0 ==> size == |g[x].keys| - i
          invariant size < 0 ==> size == -1 && |g[x].keys| < |g[y].keys|
          decreases |g[y].keys| - i
        {
          size := size - 1;
          i := i + 1;
        }
        result := size == 0;
      }
    }
  }

  lemma ItsObjects(g: Graph, x: nat, y: nat)
    requires Valid(g) && x < |g| && y < |g|
    ensures WellFormed(g, g[x]) && WellFormed(g, g[y])
  {
  }

  // _.isEqual
  method IsEqual(g: Graph, a: Value, b: Value) returns (result: bool)
    requires Valid(g) && Inside(g, a) && Inside(g, b)
    ensures result == DE.Eq(g, a, b, [])
    ensures result ==> (DE.Bisimilar(g, a, b) <==> !DE.Misled(g, a, b))
    ensures DE.Bisimilar(g, a, b) ==> (result <==> !DE.Clashes(g, a, b) && !DE.Parted(g, a, b))
  {
    hide DE.Eq, DE.Bisimilar, DE.Clashes, DE.Misled, DE.Parted;
    var comparer := new Comparer();
    assert comparer.Stacks() == [];
    result := comparer.Compare(g, a, b);
    DE.EqualExactly(g, a, b);
  }
}
