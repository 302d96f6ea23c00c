/** Deep comparison of object graphs: what it should mean, what the cycle-aware algorithm
    answers, and exactly when the two agree. */
module DeepEquality {
  import opened Options
  import opened ObjectGraph

  // ---- the algorithm's decisions for one pair of values

  // a === b
  predicate Strict(a: Value, b: Value) {
    if a.Number? && b.Number? then NumbersLooselyEqual(a.n, b.n) else a == b
  }

  function NumberOf(g: Graph, v: Value): Num
    requires Inside(g, v) && ClassOf(g, v) == NumberClass
  {
    if v.Number? then v.n else g[v.node].number
  }

  function TextOf(g: Graph, v: Value): string
    requires Inside(g, v) && ClassOf(g, v) == StringClass
  {
    if v.Str? then v.s else g[v.node].text
  }

  function BitOf(g: Graph, v: Value): bool
    requires Inside(g, v) && ClassOf(g, v) == BooleanClass
  {
    if v.Bool? then v.b else g[v.node].bit
  }

  // The answer where no deep comparison is needed; None asks for one.
  function Decide(g: Graph, a: Value, b: Value): Option<bool>
    requires Inside(g, a) && Inside(g, b)
  {
    if Strict(a, b) then
      Some(!(a.Number? && Zero(a.n)) || NumbersLooselyEqual(Reciprocal(a.n), Reciprocal(b.n)))
    else if a in {Undefined, Null} || b in {Undefined, Null} then Some(false)
    else if ClassOf(g, a) != ClassOf(g, b) then Some(false)
    else
      match ClassOf(g, a)
      case StringClass => Some(TextOf(g, a) == TextOf(g, b))
      case NumberClass => Some(NumbersEqual(NumberOf(g, a), NumberOf(g, b)))
      case BooleanClass => Some(BitOf(g, a) == BitOf(g, b))
      case DateClass => Some(g[a.node].time.Some? && g[a.node].time == g[b.node].time)
      case RegExpClass => Some(g[a.node] == g[b.node])
      case FunctionClass => Some(false)
      case _ => None
  }

  lemma DecidesDeep(g: Graph, a: Value, b: Value)
    requires Inside(g, a) && Inside(g, b) && Decide(g, a, b).None?
    ensures a.Ref? && b.Ref? && a != b && ClassOf(g, a) == ClassOf(g, b)
    ensures (g[a.node].ArrayObj? && g[b.node].ArrayObj?) || (g[a.node].PlainObj? && g[b.node].PlainObj?)
  {
  }

  // A function that is an instance of itself.
  predicate SelfMade(g: Graph, v: Value) {
    v.Ref? && v.node < |g| && g[v.node].FunctionObj? && g[v.node].ownInstance
  }

  predicate SameCtor(g: Graph, a: Value, b: Value) {
    Strict(a, b) || (SelfMade(g, a) && SelfMade(g, b))
  }

  // What the algorithm asks of the constructors of two objects,
  predicate CtorsAgree(g: Graph, x: Obj, y: Obj) {
    x.PlainObj? && y.PlainObj? ==> SameCtor(g, ConstructorOf(x), ConstructorOf(y))
  }

  // and of their members before it compares them.
  predicate Comparable(x: Obj, y: Obj) {
    match (x, y)
    case (ArrayObj(xs), ArrayObj(ys)) => |xs| == |ys|
    case (PlainObj(_, _, keys, _), PlainObj(_, _, others, own)) =>
      (forall i :: 0 <= i < |keys| ==> keys[i] in own) && |keys| == |others|
    case _ => false
  }

  predicate Aligned(g: Graph, x: Obj, y: Obj) {
    CtorsAgree(g, x, y) && Comparable(x, y)
  }

  // The members that are compared, in pairs.
  function Members(g: Graph, x: nat, y: nat): (pairs: seq<(Value, Value)>)
    requires Valid(g) && x < |g| && y < |g| && Comparable(g[x], g[y])
    ensures forall i :: 0 <= i < |pairs| ==> Inside(g, pairs[i].0) && Inside(g, pairs[i].1)
  {
    assert WellFormed(g, g[x]) && WellFormed(g, g[y]);
    match (g[x], g[y])
    case (ArrayObj(xs), ArrayObj(ys)) => seq(|xs|, i requires 0 <= i < |xs| => (xs[i], ys[i]))
    case (PlainObj(_, _, keys, own), PlainObj(_, _, _, other)) =>
      seq(|keys|, i requires 0 <= i < |keys| => (own[keys[i]], other[keys[i]]))
  }

  // ---- the whole comparison, with the stacks of objects that are being compared

  type Stack = seq<(nat, nat)>

  predicate OnStack(st: Stack, x: nat) {
    exists i :: 0 <= i < |st| && st[i].0 == x
  }

  // The partner of x: the search starts at the top.
  function Partner(st: Stack, x: nat): nat
    requires OnStack(st, x)
    decreases |st|
  {
    if st[|st| - 1].0 == x then st[|st| - 1].1 else Partner(st[..|st| - 1], x)
  }

  ghost function Fresh(g: Graph, st: Stack): set<nat> {
    set x: nat | x < |g| && !OnStack(st, x)
  }

  lemma FreshShrinks(g: Graph, st: Stack, x: nat, y: nat)
    requires x < |g| && !OnStack(st, x)
    ensures Fresh(g, st + [(x, y)]) < Fresh(g, st)
  {
    assert (st + [(x, y)])[|st|] == (x, y);
    assert forall z :: OnStack(st, z) ==> OnStack(st + [(x, y)], z) by {
      forall z | OnStack(st, z) ensures OnStack(st + [(x, y)], z) {
        var i :| 0 <= i < |st| && st[i].0 == z;
        assert (st + [(x, y)])[i] == st[i];
      }
    }
    assert x in Fresh(g, st) && x !in Fresh(g, st + [(x, y)]);
  }

  ghost predicate Eq(g: Graph, a: Value, b: Value, st: Stack)
    requires Valid(g) && Inside(g, a) && Inside(g, b)
    decreases Fresh(g, st), 1
  {
    match Decide(g, a, b)
    case Some(answer) => answer
    case None =>
      DecidesDeep(g, a, b);
      if OnStack(st, a.node) then Partner(st, a.node) == b.node
      else
        FreshShrinks(g, st, a.node, b.node);
        EqMembers(g, a.node, b.node, st + [(a.node, b.node)])
  }

  ghost predicate EqMembers(g: Graph, x: nat, y: nat, st: Stack)
    requires Valid(g) && x < |g| && y < |g|
    decreases Fresh(g, st), 2
  {
    Aligned(g, g[x], g[y]) &&
    forall i :: 0 <= i < |Members(g, x, y)| ==> Eq(g, Members(g, x, y)[i].0, Members(g, x, y)[i].1, st)
  }

  // ---- what equality of two graphs should mean

  // What a value without members stands for; an object that wraps a primitive stands for it.
  datatype Meaning = Nothing | Nil | ABool(b: bool) | ANumber(n: Num) | AText(s: string) | ADate(time: Option<int>) |
                     ARegExp(o: Obj) | AFunction(node: nat) | Deep

  function MeaningOf(g: Graph, v: Value): Meaning
    requires Inside(g, v)
  {
    match v
    case Undefined => Nothing
    case Null => Nil
    case Bool(b) => ABool(b)
    case Number(n) => ANumber(n)
    case Str(s) => AText(s)
    case Ref(x) =>
      match g[x]
      case StringObj(s) => AText(s)
      case NumberObj(n) => ANumber(n)
      case BooleanObj(b) => ABool(b)
      case DateObj(time) => ADate(time)
      case RegExpObj(_, _, _, _) => ARegExp(g[x])
      case FunctionObj(_) => AFunction(x)
      case ArrayObj(_) => Deep
      case PlainObj(_, _, _, _) => Deep
  }

  // An invalid date equals nothing but itself.
  predicate SameLeaf(g: Graph, a: Value, b: Value)
    requires Inside(g, a) && Inside(g, b)
  {
    a == b || (MeaningOf(g, a) == MeaningOf(g, b) != Deep && MeaningOf(g, a) != ADate(None))
  }

  type Relation = iset<(nat, nat)>

  ghost predicate Related(g: Graph, a: Value, b: Value, r: Relation)
    requires Inside(g, a) && Inside(g, b)
  {
    SameLeaf(g, a, b) || (a.Ref? && b.Ref? && (a.node, b.node) in r)
  }

  // Same kind of object, of the same inherited constructor; same length or same enumerable
  // properties; related members.
  ghost predicate Alike(g: Graph, x: nat, y: nat, r: Relation)
    requires Valid(g) && x < |g| && y < |g|
  {
    assert WellFormed(g, g[x]) && WellFormed(g, g[y]);
    match (g[x], g[y])
    case (ArrayObj(xs), ArrayObj(ys)) =>
      |xs| == |ys| && forall i :: 0 <= i < |xs| ==> Related(g, xs[i], ys[i], r)
    case (PlainObj(n, c, keys, own), PlainObj(m, d, others, other)) =>
      n == m && SameCtor(g, c, d) && (forall k :: k in keys <==> k in others) &&
      forall k :: k in keys ==> Related(g, own[k], other[k], r)
    case _ => false
  }

  ghost predicate Bisimulation(g: Graph, r: Relation)
    requires Valid(g)
  {
    forall p :: p in r ==> p.0 < |g| && p.1 < |g| && Alike(g, p.0, p.1, r)
  }

  // No walk into the two values along the same members finds a difference.
  ghost predicate Bisimilar(g: Graph, a: Value, b: Value)
    requires Valid(g) && Inside(g, a) && Inside(g, b)
  {
    exists r: Relation :: Bisimulation(g, r) && Related(g, a, b, r)
  }

  // ---- one pair of values

  // The test of numbers takes a zero for a tiny number of its sign.
  predicate Confused(g: Graph, a: Value, b: Value)
    requires Inside(g, a) && Inside(g, b)
  {
    && ClassOf(g, a) == ClassOf(g, b) == NumberClass
    && Zero(NumberOf(g, a)) && Tiny(NumberOf(g, b))
    && (NumberOf(g, a) == NegativeZero <==> NumberOf(g, b).r < 0.0)
  }

  // A key of x is an own property of y, but one that is hidden from enumeration.
  predicate HidesKey(x: Obj, y: Obj) {
    x.PlainObj? && y.PlainObj? && exists i :: 0 <= i < |x.keys| && x.keys[i] in y.own && x.keys[i] !in y.keys
  }

  predicate InheritedAgree(g: Graph, x: Obj, y: Obj) {
    x.PlainObj? && y.PlainObj? ==> SameCtor(g, x.ctor, y.ctor)
  }

  // Own properties hide from the algorithm that the inherited constructors differ.
  predicate MasksCtor(g: Graph, x: Obj, y: Obj) {
    CtorsAgree(g, x, y) && !InheritedAgree(g, x, y)
  }

  lemma DecidesLeaves(g: Graph, a: Value, b: Value)
    requires Inside(g, a) && Inside(g, b)
    ensures SameLeaf(g, a, b) ==> Decide(g, a, b) == Some(true)
    ensures Decide(g, a, b) == Some(true) ==> (SameLeaf(g, a, b) <==> !Confused(g, a, b))
    ensures Decide(g, a, b).None? ==> !SameLeaf(g, a, b) && !Confused(g, a, b)
  {
    hide Tiny, Reciprocal, Overflows;
    if a.Number? && b.Number? {
      NumberTest(a.n, b.n);
      if NumbersLooselyEqual(a.n, b.n) {
        ZeroReciprocals(a.n, b.n);
        if Zero(a.n) { LooseIsNotTiny(a.n, b.n); }
      }
    }
    if ClassOf(g, a) == ClassOf(g, b) == NumberClass {
      NumberTest(NumberOf(g, a), NumberOf(g, b));
      NotBoth(NumberOf(g, a));
    }
  }

  lemma LooseIsNotTiny(a: Num, b: Num)
    requires NumbersLooselyEqual(a, b) && Zero(a)
    ensures !Tiny(b)
  {
  }

  lemma NotBoth(n: Num)
    ensures !(Zero(n) && Tiny(n))
  {
  }

  lemma ZeroReciprocals(a: Num, b: Num)
    requires NumbersLooselyEqual(a, b)
    ensures !Zero(a) || NumbersLooselyEqual(Reciprocal(a), Reciprocal(b)) <==> a == b
  {
  }

  // As many keys, all of them there: the same keys.
  lemma KeyCount(keys: seq<string>, others: seq<string>)
    requires Distinct(keys) && Distinct(others)
    ensures (forall k :: k in keys <==> k in others) <==>
            |keys| == |others| && forall i :: 0 <= i < |keys| ==> keys[i] in others
  {
    var ks, os := set k | k in keys, set k | k in others;
    DistinctCount(keys);
    DistinctCount(others);
    if forall k :: k in keys <==> k in others {
      assert ks == os;
    }
    if |keys| == |others| && forall i :: 0 <= i < |keys| ==> keys[i] in others {
      assert ks <= os;
      SubsetOfSize(ks, os);
      forall k ensures k in keys <==> k in others {
        assert (k in keys <==> k in ks) && (k in others <==> k in os);
      }
    }
  }

  // The test for the same keys finds every key of the first object among the own properties of
  // the second, and counts the enumerable ones. The keys are the same exactly if it succeeds
  // and none of those keys is hidden in the second object.
  lemma KeyTest(keys: seq<string>, others: seq<string>, own: set<string>)
    requires Distinct(keys) && Distinct(others) && forall k :: k in others ==> k in own
    ensures (forall k :: k in keys <==> k in others) <==>
            && |keys| == |others| && (forall i :: 0 <= i < |keys| ==> keys[i] in own)
            && !exists i :: 0 <= i < |keys| && keys[i] in own && keys[i] !in others
  {
    KeyCount(keys, others);
  }

  lemma {:induction false} DistinctCount(keys: seq<string>)
    requires Distinct(keys)
    ensures |set k | k in keys| == |keys|
    decreases |keys|
  {
    if keys != [] {
      var n := |keys| - 1;
      DistinctCount(keys[..n]);
      assert (set k | k in keys) == (set k | k in keys[..n]) + {keys[n]};
    }
  }

  lemma SubsetOfSize(a: set<string>, b: set<string>)
    requires a <= b && |a| == |b|
    ensures a == b
  {
    assert a + (b - a) == b;
    assert |b - a| == 0;
  }

  // Two objects are alike exactly if their inherited constructors agree, the algorithm finds
  // them comparable, no key is hidden, and their members, taken in pairs, are related.
  lemma AlikeByMembers(g: Graph, x: nat, y: nat, r: Relation)
    requires Valid(g) && x < |g| && y < |g| && ClassOf(g, Ref(x)) == ClassOf(g, Ref(y))
    ensures Alike(g, x, y, r) <==>
            Comparable(g[x], g[y]) && InheritedAgree(g, g[x], g[y]) && !HidesKey(g[x], g[y]) &&
            forall i :: 0 <= i < |Members(g, x, y)| ==> Related(g, Members(g, x, y)[i].0, Members(g, x, y)[i].1, r)
  {
    hide Related;
    if g[x].PlainObj? && g[y].PlainObj? {
      ObjectsAlike(g, x, y, r);
    } else if g[x].ArrayObj? && g[y].ArrayObj? {
      if Comparable(g[x], g[y]) {
        assert forall i :: 0 <= i < |g[x].elems| ==> Members(g, x, y)[i] == (g[x].elems[i], g[y].elems[i]);
      }
    }
  }

  lemma SameKeys(g: Graph, x: nat, y: nat)
    requires Valid(g) && x < |g| && y < |g| && g[x].PlainObj? && g[y].PlainObj?
    ensures WellFormed(g, g[x]) && WellFormed(g, g[y])
    ensures (forall k :: k in g[x].keys <==> k in g[y].keys) <==>
            && |g[x].keys| == |g[y].keys| && (forall i :: 0 <= i < |g[x].keys| ==> g[x].keys[i] in g[y].own)
            && !HidesKey(g[x], g[y])
  {
    assert WellFormed(g, g[x]) && WellFormed(g, g[y]);
    KeyTest(g[x].keys, g[y].keys, g[y].own.Keys);
  }

  lemma ObjectsAlike(g: Graph, x: nat, y: nat, r: Relation)
    requires Valid(g) && x < |g| && y < |g| && g[x].PlainObj? && g[y].PlainObj? && g[x].name == g[y].name
    ensures Alike(g, x, y, r) <==>
            Comparable(g[x], g[y]) && InheritedAgree(g, g[x], g[y]) && !HidesKey(g[x], g[y]) &&
            forall i :: 0 <= i < |Members(g, x, y)| ==> Related(g, Members(g, x, y)[i].0, Members(g, x, y)[i].1, r)
  {
    hide Related, Valid, WellFormed, HidesKey, SameCtor;
    SameKeys(g, x, y);
    if Comparable(g[x], g[y]) {
      var keys, pairs := g[x].keys, Members(g, x, y);
      forall i | 0 <= i < |keys| ensures pairs[i] == (g[x].own[keys[i]], g[y].own[keys[i]]) {
      }
      if forall i :: 0 <= i < |pairs| ==> Related(g, pairs[i].0, pairs[i].1, r) {
        forall k | k in keys ensures Related(g, g[x].own[k], g[y].own[k], r) {
          var i :| 0 <= i < |keys| && keys[i] == k;
          assert Related(g, pairs[i].0, pairs[i].1, r);
        }
      }
    }
  }

  // ---- the walks the algorithm takes, member by member, from a pair of values

  // w is the stack after a walk from a and b to the pair at its top.
  ghost predicate Walk(g: Graph, a: Value, b: Value, w: Stack)
    requires Valid(g) && Inside(g, a) && Inside(g, b)
    decreases |w|, 1
  {
    w == [] ||
    var n := |w| - 1;
    && w[n].0 < |g| && w[n].1 < |g|
    && !OnStack(w[..n], w[n].0)
    && Decide(g, Ref(w[n].0), Ref(w[n].1)) == None
    && Met(g, a, b, w[..n], Ref(w[n].0), Ref(w[n].1))
  }

  // v and u are a pair of members of the top of the walk w.
  ghost predicate Met(g: Graph, a: Value, b: Value, w: Stack, v: Value, u: Value)
    requires Valid(g) && Inside(g, a) && Inside(g, b)
    decreases |w|, 2
  {
    if w == [] then v == a && u == b else
      var top := w[|w| - 1];
      Walk(g, a, b, w) && Aligned(g, g[top.0], g[top.1]) && (v, u) in Members(g, top.0, top.1)
  }

  // The walk comes back to an object of the first graph, but to another one of the second.
  ghost predicate Clash(g: Graph, a: Value, b: Value, w: Stack, x: nat, y: nat)
    requires Valid(g) && Inside(g, a) && Inside(g, b)
  {
    && x < |g| && y < |g|
    && Met(g, a, b, w, Ref(x), Ref(y)) && Decide(g, Ref(x), Ref(y)) == None
    && exists i :: 0 <= i < |w| && w[i].0 == x && w[i].1 != y
  }

  ghost predicate Clashes(g: Graph, a: Value, b: Value)
    requires Valid(g) && Inside(g, a) && Inside(g, b)
  {
    exists w: Stack, x: nat, y: nat :: Clash(g, a, b, w, x, y)
  }

  // The other way to answer false too often: a walk comes to a pair of objects whose properties
  // `constructor` do not agree, which can be their own.
  ghost predicate PartedOn(g: Graph, a: Value, b: Value, w: Stack)
    requires Valid(g) && Inside(g, a) && Inside(g, b)
  {
    w != [] && Walk(g, a, b, w) && !CtorsAgree(g, g[w[|w| - 1].0], g[w[|w| - 1].1])
  }

  ghost predicate Parted(g: Graph, a: Value, b: Value)
    requires Valid(g) && Inside(g, a) && Inside(g, b)
  {
    exists w: Stack :: PartedOn(g, a, b, w)
  }

  // Three ways to answer true too often: a walk comes to a pair of objects of which the second
  // hides a key of the first, or whose own properties hide that they inherit from different
  // constructors,
  ghost predicate HiddenOn(g: Graph, a: Value, b: Value, w: Stack)
    requires Valid(g) && Inside(g, a) && Inside(g, b)
  {
    && w != [] && Walk(g, a, b, w)
    && var x, y := g[w[|w| - 1].0], g[w[|w| - 1].1];
       HidesKey(x, y) || MasksCtor(g, x, y)
  }

  // or it meets a zero and a tiny number of its sign.
  ghost predicate ConfusedOn(g: Graph, a: Value, b: Value, w: Stack, v: Value, u: Value)
    requires Valid(g) && Inside(g, a) && Inside(g, b)
  {
    Inside(g, v) && Inside(g, u) && Met(g, a, b, w, v, u) && Confused(g, v, u)
  }

  ghost predicate Misled(g: Graph, a: Value, b: Value)
    requires Valid(g) && Inside(g, a) && Inside(g, b)
  {
    (exists w: Stack :: HiddenOn(g, a, b, w)) || (exists w: Stack, v, u :: ConfusedOn(g, a, b, w, v, u))
  }

  lemma MetInside(g: Graph, a: Value, b: Value, w: Stack, v: Value, u: Value)
    requires Valid(g) && Inside(g, a) && Inside(g, b) && Met(g, a, b, w, v, u)
    ensures Inside(g, v) && Inside(g, u)
  {
    if w != [] {
      var top := w[|w| - 1];
      var i :| 0 <= i < |Members(g, top.0, top.1)| && Members(g, top.0, top.1)[i] == (v, u);
    }
  }

  // The objects on a walk differ, so a partner is the one at any place where the object is.
  lemma {:induction false} PartnerOnWalk(g: Graph, a: Value, b: Value, w: Stack, i: nat)
    requires Valid(g) && Inside(g, a) && Inside(g, b) && Walk(g, a, b, w) && i < |w|
    ensures Partner(w, w[i].0) == w[i].1
    ensures Walk(g, a, b, w[..i + 1])
    decreases |w|
  {
    hide Decide, Members, Aligned;
    var n := |w| - 1;
    if i < n {
      WalkBefore(g, a, b, w);
      PartnerOnWalk(g, a, b, w[..n], i);
      assert w[..n][..i + 1] == w[..i + 1] && w[..n][i] == w[i];
      assert w[n].0 != w[i].0;
    } else {
      assert w[..n + 1] == w;
    }
  }

  lemma WalkBefore(g: Graph, a: Value, b: Value, w: Stack)
    requires Valid(g) && Inside(g, a) && Inside(g, b) && Walk(g, a, b, w) && w != []
    ensures Walk(g, a, b, w[..|w| - 1])
  {
  }

  lemma WalkOn(g: Graph, a: Value, b: Value, w: Stack, x: nat, y: nat)
    requires Valid(g) && Inside(g, a) && Inside(g, b) && x < |g| && y < |g| && !OnStack(w, x)
    requires Met(g, a, b, w, Ref(x), Ref(y)) && Decide(g, Ref(x), Ref(y)) == None
    ensures Walk(g, a, b, w + [(x, y)])
  {
    assert (w + [(x, y)])[..|w|] == w;
  }

  lemma MetMember(g: Graph, a: Value, b: Value, w: Stack, i: nat)
    requires Valid(g) && Inside(g, a) && Inside(g, b) && Walk(g, a, b, w) && w != []
    requires var top := w[|w| - 1]; Aligned(g, g[top.0], g[top.1]) && i < |Members(g, top.0, top.1)|
    ensures var top := w[|w| - 1]; Met(g, a, b, w, Members(g, top.0, top.1)[i].0, Members(g, top.0, top.1)[i].1)
  {
  }

  // ---- equal values: every pair met on a walk compares equal

  lemma EqualGoesOn(g: Graph, x: nat, y: nat, st: Stack)
    requires Valid(g) && x < |g| && y < |g| && Eq(g, Ref(x), Ref(y), st)
    requires Decide(g, Ref(x), Ref(y)) == None && !OnStack(st, x)
    ensures EqMembers(g, x, y, st + [(x, y)])
  {
  }

  lemma EqualMember(g: Graph, x: nat, y: nat, st: Stack, v: Value, u: Value)
    requires Valid(g) && x < |g| && y < |g| && EqMembers(g, x, y, st) && Aligned(g, g[x], g[y])
    requires (v, u) in Members(g, x, y)
    ensures Inside(g, v) && Inside(g, u) && Eq(g, v, u, st)
  {
    hide Eq;
    var i :| 0 <= i < |Members(g, x, y)| && Members(g, x, y)[i] == (v, u);
  }

  lemma {:induction false} EqualAlong(g: Graph, a: Value, b: Value, w: Stack, v: Value, u: Value)
    requires Valid(g) && Inside(g, a) && Inside(g, b) && Eq(g, a, b, []) && Met(g, a, b, w, v, u)
    ensures Inside(g, v) && Inside(g, u) && Eq(g, v, u, w)
    ensures w != [] ==> var top := w[|w| - 1]; top.0 < |g| && top.1 < |g| && EqMembers(g, top.0, top.1, w)
    decreases |w|
  {
    hide Members, Aligned, Eq, EqMembers, Decide, Valid;
    if w != [] {
      var n := |w| - 1;
      var x, y := w[n].0, w[n].1;
      EqualAlong(g, a, b, w[..n], Ref(x), Ref(y));
      EqualGoesOn(g, x, y, w[..n]);
      assert w[..n] + [(x, y)] == w;
      EqualMember(g, x, y, w, v, u);
    }
  }

  lemma EqualTop(g: Graph, a: Value, b: Value, w: Stack)
    requires Valid(g) && Inside(g, a) && Inside(g, b) && Eq(g, a, b, []) && w != [] && Walk(g, a, b, w)
    ensures var top := w[|w| - 1]; top.0 < |g| && top.1 < |g| && EqMembers(g, top.0, top.1, w)
  {
    hide Members, Aligned;
    var n := |w| - 1;
    EqualAlong(g, a, b, w[..n], Ref(w[n].0), Ref(w[n].1));
    assert w[..n] + [(w[n].0, w[n].1)] == w;
  }

  lemma EqualDoesNotClash(g: Graph, a: Value, b: Value)
    requires Valid(g) && Inside(g, a) && Inside(g, b) && Eq(g, a, b, [])
    ensures !Clashes(g, a, b)
  {
    hide Decide, Met;
    if w: Stack, x: nat, y: nat :| Clash(g, a, b, w, x, y) {
      EqualAlong(g, a, b, w, Ref(x), Ref(y));
      var i :| 0 <= i < |w| && w[i].0 == x && w[i].1 != y;
      MetOnWalk(g, a, b, w, Ref(x), Ref(y));
      PartnerOnWalk(g, a, b, w, i);
    }
  }

  lemma EqualIsNotParted(g: Graph, a: Value, b: Value)
    requires Valid(g) && Inside(g, a) && Inside(g, b) && Eq(g, a, b, [])
    ensures !Parted(g, a, b)
  {
    hide Eq, Walk, CtorsAgree, Comparable, Members;
    if w: Stack :| PartedOn(g, a, b, w) {
      EqualTop(g, a, b, w);
    }
  }

  lemma MetOnWalk(g: Graph, a: Value, b: Value, w: Stack, v: Value, u: Value)
    requires Valid(g) && Inside(g, a) && Inside(g, b) && Met(g, a, b, w, v, u)
    ensures Walk(g, a, b, w)
  {
  }

  // The pairs that the walks come to.
  ghost predicate Reached(g: Graph, a: Value, b: Value, p: (nat, nat))
    requires Valid(g) && Inside(g, a) && Inside(g, b)
  {
    exists w: Stack :: w != [] && w[|w| - 1] == p && Walk(g, a, b, w)
  }

  ghost function Reach(g: Graph, a: Value, b: Value): Relation
    requires Valid(g) && Inside(g, a) && Inside(g, b)
  {
    iset p: (nat, nat) | Reached(g, a, b, p)
  }

  lemma EqualAnswers(g: Graph, v: Value, u: Value, w: Stack)
    requires Valid(g) && Inside(g, v) && Inside(g, u) && Eq(g, v, u, w)
    ensures Decide(g, v, u) in {Some(true), None}
    ensures Decide(g, v, u).None? && v.Ref? && u.Ref? && OnStack(w, v.node) ==> Partner(w, v.node) == u.node
  {
  }

  lemma ReachedBy(g: Graph, a: Value, b: Value, w: Stack)
    requires Valid(g) && Inside(g, a) && Inside(g, b) && w != [] && Walk(g, a, b, w)
    ensures w[|w| - 1] in Reach(g, a, b)
  {
  }

  // A pair met on a walk is decided at once, or is one the walks come to.
  lemma MetIsRelated(g: Graph, a: Value, b: Value, w: Stack, v: Value, u: Value)
    requires Valid(g) && Inside(g, a) && Inside(g, b) && Eq(g, a, b, []) && Met(g, a, b, w, v, u)
    requires !Misled(g, a, b)
    ensures Inside(g, v) && Inside(g, u) && Related(g, v, u, Reach(g, a, b))
  {
    hide Decide, Met, SameLeaf, Eq, Walk, Members, Aligned, Valid, Reached, Confused, HiddenOn;
    EqualAlong(g, a, b, w, v, u);
    EqualAnswers(g, v, u, w);
    MetInside(g, a, b, w, v, u);
    DecidesLeaves(g, v, u);
    assert Confused(g, v, u) ==> ConfusedOn(g, a, b, w, v, u);
    if Decide(g, v, u).None? {
      DecidesDeep(g, v, u);
      DeepIsReached(g, a, b, w, v, u);
    }
  }

  lemma DeepIsReached(g: Graph, a: Value, b: Value, w: Stack, v: Value, u: Value)
    requires Valid(g) && Inside(g, a) && Inside(g, b) && Eq(g, a, b, []) && Met(g, a, b, w, v, u)
    requires Inside(g, v) && Inside(g, u) && Decide(g, v, u).None?
    ensures v.Ref? && u.Ref? && (v.node, u.node) in Reach(g, a, b)
  {
    hide Decide, Met, Eq, Walk, Members, Aligned, Valid, Reached;
    EqualAlong(g, a, b, w, v, u);
    EqualAnswers(g, v, u, w);
    DecidesDeep(g, v, u);
    MetOnWalk(g, a, b, w, v, u);
    var x, y := v.node, u.node;
    if OnStack(w, x) {
      var i :| 0 <= i < |w| && w[i].0 == x;
      PartnerOnWalk(g, a, b, w, i);
      assert w[..i + 1][|w[..i + 1]| - 1] == (x, y);
      ReachedBy(g, a, b, w[..i + 1]);
    } else {
      WalkOn(g, a, b, w, x, y);
      ReachedBy(g, a, b, w + [(x, y)]);
    }
  }

  // So they form a bisimulation: a true answer is right, unless it was misled.
  lemma EqualIsBisimilar(g: Graph, a: Value, b: Value)
    requires Valid(g) && Inside(g, a) && Inside(g, b) && Eq(g, a, b, []) && !Misled(g, a, b)
    ensures Bisimilar(g, a, b)
  {
    hide Decide, Met, Related, Alike, Misled;
    var r := Reach(g, a, b);
    forall p | p in r ensures p.0 < |g| && p.1 < |g| && Alike(g, p.0, p.1, r) {
      var w: Stack :| w != [] && w[|w| - 1] == p && Walk(g, a, b, w);
      ReachedIsAlike(g, a, b, w);
    }
    assert Met(g, a, b, [], a, b) by { MetAtStart(g, a, b); }
    MetIsRelated(g, a, b, [], a, b);
    assert Bisimulation(g, r);
  }

  lemma MetAtStart(g: Graph, a: Value, b: Value)
    requires Valid(g) && Inside(g, a) && Inside(g, b)
    ensures Met(g, a, b, [], a, b)
  {
  }

  lemma ReachedIsAlike(g: Graph, a: Value, b: Value, w: Stack)
    requires Valid(g) && Inside(g, a) && Inside(g, b) && Eq(g, a, b, []) && !Misled(g, a, b)
    requires w != [] && Walk(g, a, b, w)
    ensures var p := w[|w| - 1]; p.0 < |g| && p.1 < |g| && Alike(g, p.0, p.1, Reach(g, a, b))
  {
    hide Decide, Met, Related, Members, Comparable, CtorsAgree, InheritedAgree, Alike, Reach, Eq, Valid, HidesKey,
      ConfusedOn;
    var n := |w| - 1;
    var x, y := w[n].0, w[n].1;
    EqualTop(g, a, b, w);
    DecidesDeep(g, Ref(x), Ref(y));
    forall i | 0 <= i < |Members(g, x, y)|
      ensures Related(g, Members(g, x, y)[i].0, Members(g, x, y)[i].1, Reach(g, a, b))
    {
      MetMember(g, a, b, w, i);
      MetIsRelated(g, a, b, w, Members(g, x, y)[i].0, Members(g, x, y)[i].1);
    }
    assert !HiddenOn(g, a, b, w);
    AlikeByMembers(g, x, y, Reach(g, a, b));
  }

  // ---- and conversely, as long as no walk clashes

  lemma RelatedDecides(g: Graph, v: Value, u: Value, r: Relation)
    requires Valid(g) && Inside(g, v) && Inside(g, u) && Bisimulation(g, r) && Related(g, v, u, r)
    ensures Decide(g, v, u) == Some(true) || (Decide(g, v, u).None? && v.Ref? && u.Ref? && (v.node, u.node) in r)
    ensures !Confused(g, v, u)
  {
    hide Related, Decide, Confused;
    DecidesLeaves(g, v, u);
    if !SameLeaf(g, v, u) {
      RelatedByPair(g, v, u, r);
      assert Alike(g, v.node, u.node, r);
      DeepIsUndecided(g, v, u);
    }
    if SameLeaf(g, v, u) {
      assert Decide(g, v, u) == Some(true);
    }
  }

  lemma RelatedByPair(g: Graph, v: Value, u: Value, r: Relation)
    requires Inside(g, v) && Inside(g, u) && Related(g, v, u, r) && !SameLeaf(g, v, u)
    ensures v.Ref? && u.Ref? && (v.node, u.node) in r
  {
  }

  lemma DeepIsUndecided(g: Graph, v: Value, u: Value)
    requires Inside(g, v) && Inside(g, u) && v.Ref? && u.Ref? && v != u && ClassOf(g, v) == ClassOf(g, u)
    requires g[v.node].ArrayObj? || g[v.node].PlainObj?
    ensures Decide(g, v, u) == None
  {
  }

  lemma {:induction false} BisimilarIsEqual(g: Graph, a: Value, b: Value, r: Relation, w: Stack, v: Value, u: Value)
    requires Valid(g) && Inside(g, a) && Inside(g, b)
    requires !Clashes(g, a, b) && !Parted(g, a, b) && Met(g, a, b, w, v, u) && Inside(g, v) && Inside(g, u)
    requires Bisimulation(g, r) && Related(g, v, u, r)
    ensures Eq(g, v, u, w)
    decreases Fresh(g, w)
  {
    hide Decide, Met, Related, Bisimulation, Members, Comparable, CtorsAgree, InheritedAgree, Alike, HidesKey, Confused;
    MetInside(g, a, b, w, v, u);
    RelatedDecides(g, v, u, r);
    if Decide(g, v, u).None? {
      var x, y := v.node, u.node;
      if OnStack(w, x) {
        MetOnWalk(g, a, b, w, v, u);
        var i :| 0 <= i < |w| && w[i].0 == x;
        PartnerOnWalk(g, a, b, w, i);
        assert w[i].1 != y ==> Clash(g, a, b, w, x, y);
      } else {
        FreshShrinks(g, w, x, y);
        WalkOn(g, a, b, w, x, y);
        var longer := w + [(x, y)];
        PairIsAlike(g, x, y, r);
        DecidesDeep(g, v, u);
        AlikeByMembers(g, x, y, r);
        assert longer[|longer| - 1] == (x, y) && !PartedOn(g, a, b, longer);
        forall i | 0 <= i < |Members(g, x, y)|
          ensures Eq(g, Members(g, x, y)[i].0, Members(g, x, y)[i].1, longer)
        {
          MetMember(g, a, b, longer, i);
          BisimilarIsEqual(g, a, b, r, longer, Members(g, x, y)[i].0, Members(g, x, y)[i].1);
        }
      }
    }
  }

  lemma PairIsAlike(g: Graph, x: nat, y: nat, r: Relation)
    requires Valid(g) && Bisimulation(g, r) && (x, y) in r
    ensures x < |g| && y < |g| && Alike(g, x, y, r)
  {
  }

  // Along a bisimulation every pair met is related, so no key is hidden and no number confused.
  lemma {:induction false} RelatedAlong(g: Graph, a: Value, b: Value, r: Relation, w: Stack, v: Value, u: Value)
    requires Valid(g) && Inside(g, a) && Inside(g, b) && Bisimulation(g, r) && Related(g, a, b, r)
    requires Met(g, a, b, w, v, u)
    ensures Inside(g, v) && Inside(g, u) && Related(g, v, u, r)
    decreases |w|
  {
    hide Decide, Related, Alike, Members, Comparable, CtorsAgree, InheritedAgree, HidesKey, Bisimulation;
    MetInside(g, a, b, w, v, u);
    if w != [] {
      TopRelated(g, a, b, r, w);
      var x, y := w[|w| - 1].0, w[|w| - 1].1;
      var i :| 0 <= i < |Members(g, x, y)| && Members(g, x, y)[i] == (v, u);
    }
  }

  lemma {:induction false} TopRelated(g: Graph, a: Value, b: Value, r: Relation, w: Stack)
    requires Valid(g) && Inside(g, a) && Inside(g, b) && Bisimulation(g, r) && Related(g, a, b, r)
    requires w != [] && Walk(g, a, b, w)
    ensures var x, y := w[|w| - 1].0, w[|w| - 1].1;
            && x < |g| && y < |g| && Comparable(g[x], g[y]) && InheritedAgree(g, g[x], g[y]) && !HidesKey(g[x], g[y])
            && forall i :: 0 <= i < |Members(g, x, y)| ==> Related(g, Members(g, x, y)[i].0, Members(g, x, y)[i].1, r)
    decreases |w|, 0
  {
    hide Decide, Related, Alike, Members, Comparable, CtorsAgree, InheritedAgree, HidesKey, Bisimulation;
    var n := |w| - 1;
    var x, y := w[n].0, w[n].1;
    RelatedAlong(g, a, b, r, w[..n], Ref(x), Ref(y));
    RelatedDecides(g, Ref(x), Ref(y), r);
    DecidesDeep(g, Ref(x), Ref(y));
    PairIsAlike(g, x, y, r);
    AlikeByMembers(g, x, y, r);
  }

  lemma BisimilarIsNotMisled(g: Graph, a: Value, b: Value)
    requires Valid(g) && Inside(g, a) && Inside(g, b) && Bisimilar(g, a, b)
    ensures !Misled(g, a, b)
  {
    hide Related, Bisimulation, Met, Walk, Confused, HidesKey, Members, Comparable, InheritedAgree, CtorsAgree;
    var r: Relation :| Bisimulation(g, r) && Related(g, a, b, r);
    if w: Stack :| HiddenOn(g, a, b, w) {
      TopRelated(g, a, b, r, w);
    }
    if w: Stack, v, u :| ConfusedOn(g, a, b, w, v, u) {
      RelatedAlong(g, a, b, r, w, v, u);
      RelatedDecides(g, v, u, r);
    }
  }

  // Of every graph: a true answer is right exactly if no walk is misled, by a hidden key, a
  // masked constructor or a tiny number; and values that no walk tells apart are answered true
  // exactly if no walk clashes, and none comes to properties `constructor` that do not agree.
  lemma EqualExactly(g: Graph, a: Value, b: Value)
    requires Valid(g) && Inside(g, a) && Inside(g, b)
    ensures Eq(g, a, b, []) ==> (Bisimilar(g, a, b) <==> !Misled(g, a, b))
    ensures Bisimilar(g, a, b) ==> (Eq(g, a, b, []) <==> !Clashes(g, a, b) && !Parted(g, a, b))
    ensures Eq(g, a, b, []) && !Misled(g, a, b) <==> Bisimilar(g, a, b) && !Clashes(g, a, b) && !Parted(g, a, b)
  {
    hide Eq, Misled, Clashes, Parted, Met, Related, Bisimulation;
    if Eq(g, a, b, []) {
      EqualDoesNotClash(g, a, b);
      EqualIsNotParted(g, a, b);
      if !Misled(g, a, b) {
        EqualIsBisimilar(g, a, b);
      }
    }
    if Bisimilar(g, a, b) {
      BisimilarIsNotMisled(g, a, b);
      if !Clashes(g, a, b) && !Parted(g, a, b) {
        var r: Relation :| Bisimulation(g, r) && Related(g, a, b, r);
        MetAtStart(g, a, b);
        BisimilarIsEqual(g, a, b, r, [], a, b);
      }
    }
  }

  // ---- graphs in which nothing can mislead

  // No own property is hidden from enumeration or named `constructor`, and no number is tiny.
  predicate OrdinaryValue(v: Value) {
    v.Number? ==> !Tiny(v.n)
  }

  predicate OrdinaryObject(o: Obj) {
    match o
    case NumberObj(n) => !Tiny(n)
    case ArrayObj(elems) => forall i :: 0 <= i < |elems| ==> OrdinaryValue(elems[i])
    case PlainObj(_, _, keys, own) =>
      "constructor" !in own && forall k :: k in own ==> k in keys && OrdinaryValue(own[k])
    case _ => true
  }

  predicate Ordinary(g: Graph) {
    forall x :: 0 <= x < |g| ==> OrdinaryObject(g[x])
  }

  lemma MembersOrdinary(g: Graph, x: nat, y: nat, i: nat)
    requires Valid(g) && Ordinary(g) && x < |g| && y < |g| && Aligned(g, g[x], g[y]) && i < |Members(g, x, y)|
    ensures OrdinaryValue(Members(g, x, y)[i].0) && OrdinaryValue(Members(g, x, y)[i].1)
  {
    assert WellFormed(g, g[x]) && WellFormed(g, g[y]) && OrdinaryObject(g[x]) && OrdinaryObject(g[y]);
  }

  lemma MetOrdinary(g: Graph, a: Value, b: Value, w: Stack, v: Value, u: Value)
    requires Valid(g) && Inside(g, a) && Inside(g, b) && Met(g, a, b, w, v, u)
    requires Ordinary(g) && OrdinaryValue(a) && OrdinaryValue(b)
    ensures OrdinaryValue(v) && OrdinaryValue(u)
  {
    if w != [] {
      var top := w[|w| - 1];
      var i :| 0 <= i < |Members(g, top.0, top.1)| && Members(g, top.0, top.1)[i] == (v, u);
      MembersOrdinary(g, top.0, top.1, i);
    }
  }

  lemma NothingHidden(g: Graph, x: nat, y: nat)
    requires Ordinary(g) && x < |g| && y < |g|
    ensures !HidesKey(g[x], g[y]) && (CtorsAgree(g, g[x], g[y]) <==> InheritedAgree(g, g[x], g[y]))
  {
    hide SameCtor;
    assert OrdinaryObject(g[x]) && OrdinaryObject(g[y]);
  }

  lemma NothingTiny(g: Graph, v: Value, u: Value)
    requires Ordinary(g) && Inside(g, v) && Inside(g, u) && OrdinaryValue(u)
    ensures !Confused(g, v, u)
  {
    assert u.Ref? ==> OrdinaryObject(g[u.node]);
  }

  lemma OrdinaryIsNotMisled(g: Graph, a: Value, b: Value)
    requires Valid(g) && Inside(g, a) && Inside(g, b) && Ordinary(g) && OrdinaryValue(a) && OrdinaryValue(b)
    ensures !Misled(g, a, b)
  {
    hide Met, Walk, Tiny, Ordinary, OrdinaryValue, Confused, HidesKey, CtorsAgree, InheritedAgree;
    if w: Stack :| HiddenOn(g, a, b, w) {
      WalkInside(g, a, b, w);
      NothingHidden(g, w[|w| - 1].0, w[|w| - 1].1);
    }
    if w: Stack, v, u :| ConfusedOn(g, a, b, w, v, u) {
      MetOrdinary(g, a, b, w, v, u);
      NothingTiny(g, v, u);
    }
  }

  // In such graphs only a clash is in the way of the right answer.
  lemma OrdinaryExactly(g: Graph, a: Value, b: Value)
    requires Valid(g) && Inside(g, a) && Inside(g, b) && Ordinary(g) && OrdinaryValue(a) && OrdinaryValue(b)
    ensures Eq(g, a, b, []) <==> Bisimilar(g, a, b) && !Clashes(g, a, b)
  {
    hide Eq, Clashes, Walk, Related, Bisimulation, Ordinary, OrdinaryValue, CtorsAgree, InheritedAgree, Comparable,
      Members, HidesKey;
    OrdinaryIsNotMisled(g, a, b);
    hide Misled;
    EqualExactly(g, a, b);
    if Bisimilar(g, a, b) {
      var r: Relation :| Bisimulation(g, r) && Related(g, a, b, r);
      if w: Stack :| PartedOn(g, a, b, w) {
        TopRelated(g, a, b, r, w);
        NothingHidden(g, w[|w| - 1].0, w[|w| - 1].1);
      }
    }
  }

  lemma WalkInside(g: Graph, a: Value, b: Value, w: Stack)
    requires Valid(g) && Inside(g, a) && Inside(g, b) && w != [] && Walk(g, a, b, w)
    ensures w[|w| - 1].0 < |g| && w[|w| - 1].1 < |g|
  {
  }

  // ---- values without cycles

  predicate Below(g: Graph, v: Value, s: set<nat>, rank: map<nat, nat>, bound: nat) {
    v.Ref? ==> v.node in s && v.node in rank && rank[v.node] < bound
  }

  // s is closed under members, and ranks go down from an object to its members.
  predicate Ranked(g: Graph, s: set<nat>, rank: map<nat, nat>)
    requires Valid(g)
  {
    forall x :: x in s ==> x < |g| && x in rank && BelowAll(g, g[x], s, rank, rank[x])
  }

  predicate BelowAll(g: Graph, o: Obj, s: set<nat>, rank: map<nat, nat>, bound: nat) {
    match o
    case ArrayObj(elems) => forall i :: 0 <= i < |elems| ==> Below(g, elems[i], s, rank, bound)
    case PlainObj(_, _, keys, own) =>
      forall i :: 0 <= i < |keys| && keys[i] in own ==> Below(g, own[keys[i]], s, rank, bound)
    case _ => true
  }

  lemma {:induction false} RanksFall(g: Graph, a: Value, b: Value, s: set<nat>, rank: map<nat, nat>, w: Stack,
                                     v: Value, u: Value)
    requires Valid(g) && Inside(g, a) && Inside(g, b) && Ranked(g, s, rank) && (a.Ref? ==> a.node in s)
    requires Met(g, a, b, w, v, u)
    ensures v.Ref? ==> v.node in s
    ensures forall i :: 0 <= i < |w| && v.Ref? && w[i].0 in rank && v.node in rank ==> rank[v.node] < rank[w[i].0]
    decreases |w|
  {
    hide Decide, Eq;
    if w != [] {
      var n := |w| - 1;
      RanksFall(g, a, b, s, rank, w[..n], Ref(w[n].0), Ref(w[n].1));
      assert forall i :: 0 <= i < n ==> w[..n][i] == w[i];
      MembersBelow(g, w[n].0, w[n].1, s, rank, v, u);
    }
  }

  lemma MembersBelow(g: Graph, x: nat, y: nat, s: set<nat>, rank: map<nat, nat>, v: Value, u: Value)
    requires Valid(g) && Ranked(g, s, rank) && x in s && x < |g| && y < |g| && Aligned(g, g[x], g[y])
    requires (v, u) in Members(g, x, y)
    ensures x in rank && Below(g, v, s, rank, rank[x])
  {
    assert WellFormed(g, g[x]) && BelowAll(g, g[x], s, rank, rank[x]);
  }

  // If the first value has no cycles, the answer is wrong only if it is misled or comes to
  // constructors that do not agree, whatever the second value is.
  lemma EqualWithoutCycles(g: Graph, a: Value, b: Value, s: set<nat>, rank: map<nat, nat>)
    requires Valid(g) && Inside(g, a) && Inside(g, b) && Ranked(g, s, rank) && (a.Ref? ==> a.node in s)
    ensures Bisimilar(g, a, b) && !Parted(g, a, b) <==> Eq(g, a, b, []) && !Misled(g, a, b)
  {
    hide Met, Decide, Eq, Bisimilar, Misled, Parted;
    EqualExactly(g, a, b);
    if w: Stack, x: nat, y: nat :| Clash(g, a, b, w, x, y) {
      RanksFall(g, a, b, s, rank, w, Ref(x), Ref(y));
      assert x in rank;
    }
  }

  // ---- where it goes wrong

  function Holder(next: nat): Obj {
    PlainObj("Object", Ref(3), ["next"], map["next" := Ref(next)])
  }

  // An object that is its own member, and two that are each other's.
  function OneCycleAndTwo(): Graph {
    [Holder(0), Holder(2), Holder(1), FunctionObj(true)]
  }

  lemma HoldersAlike(g: Graph, x: nat, y: nat, r: Relation)
    requires Valid(g) && x < |g| && y < |g| && g[x].PlainObj? && g[y].PlainObj?
    requires g[x] == Holder(0) && exists z: nat :: g[y] == Holder(z) && (0, z) in r
    ensures Alike(g, x, y, r)
  {
  }

  lemma CyclesAreFine()
    ensures var g := OneCycleAndTwo();
            Valid(g) && Ordinary(g) && Bisimilar(g, Ref(0), Ref(1))
  {
    CyclesValid();
    hide Alike, WellFormed, OrdinaryObject, Valid, Ordinary;
    var g := OneCycleAndTwo();
    var r: Relation := iset{(0, 1), (0, 2)};
    HoldersAlike(g, 0, 1, r);
    HoldersAlike(g, 0, 2, r);
    TwoPairs(g, 0, 1, 0, 2);
  }

  lemma CyclesValid()
    ensures Valid(OneCycleAndTwo()) && Ordinary(OneCycleAndTwo())
  {
  }

  // Two pairs that are alike if they are related.
  lemma TwoPairs(g: Graph, a: nat, b: nat, c: nat, d: nat)
    requires Valid(g) && a < |g| && b < |g| && c < |g| && d < |g| && g[a].PlainObj? && g[b].PlainObj?
    requires Alike(g, a, b, iset{(a, b), (c, d)}) && Alike(g, c, d, iset{(a, b), (c, d)})
    ensures Bisimilar(g, Ref(a), Ref(b))
  {
    hide Alike, Valid;
    var r: Relation := iset{(a, b), (c, d)};
    assert Bisimulation(g, r) && Related(g, Ref(a), Ref(b), r);
  }

  lemma CyclesMembers()
    requires Valid(OneCycleAndTwo())
    ensures var g := OneCycleAndTwo();
            && Decide(g, Ref(0), Ref(1)) == None == Decide(g, Ref(0), Ref(2))
            && Aligned(g, g[0], g[1]) && Members(g, 0, 1) == [(Ref(0), Ref(2))]
  {
    DeepIsUndecided(OneCycleAndTwo(), Ref(0), Ref(1));
    DeepIsUndecided(OneCycleAndTwo(), Ref(0), Ref(2));
  }

  // Nothing tells them apart, but the walk clashes in its second step.
  lemma CyclesOfTwoLengths()
    ensures var g := OneCycleAndTwo();
            Valid(g) && Ordinary(g) && Bisimilar(g, Ref(0), Ref(1)) && !Eq(g, Ref(0), Ref(1), [])
  {
    hide Eq, Walk, Met, Decide, Members, Aligned, Valid, Ordinary, Bisimilar;
    var g := OneCycleAndTwo();
    CyclesAreFine();
    CyclesMembers();
    MetAtStart(g, Ref(0), Ref(1));
    WalkOn(g, Ref(0), Ref(1), [], 0, 1);
    var w: Stack := [(0, 1)];
    assert [] + w == w;
    MetMember(g, Ref(0), Ref(1), w, 0);
    assert w[0].0 == 0 && w[0].1 != 2;
    assert Clash(g, Ref(0), Ref(1), w, 0, 2);
    EqualExactly(g, Ref(0), Ref(1));
  }

  // Objects whose only members to be compared are one and the same.
  lemma SameMember(g: Graph, x: nat, y: nat, v: Value)
    requires Valid(g) && x < |g| && y < |g| && Aligned(g, g[x], g[y]) && Decide(g, Ref(x), Ref(y)) == None
    requires Inside(g, v) && Members(g, x, y) == [(v, v)] && Decide(g, v, v) == Some(true)
    ensures Eq(g, Ref(x), Ref(y), [])
  {
    hide Decide, Aligned, Members;
    assert [] + [(x, y)] == [(x, y)];
    assert Eq(g, v, v, [(x, y)]);
  }

  lemma HiddenKey()
    ensures var c := Ref(2);
            var one := Number(Finite(1.0));
            var g := [PlainObj("Object", c, ["x"], map["x" := one]),
                      PlainObj("Object", c, ["y"], map["x" := one, "y" := one]), FunctionObj(true)];
            Valid(g) && Eq(g, Ref(0), Ref(1), []) && !Bisimilar(g, Ref(0), Ref(1))
  {
    var c := Ref(2);
    var one := Number(Finite(1.0));
    var g := [PlainObj("Object", c, ["x"], map["x" := one]),
              PlainObj("Object", c, ["y"], map["x" := one, "y" := one]), FunctionObj(true)];
    assert Valid(g);
    hide Valid, Reciprocal, Overflows;
    DeepIsUndecided(g, Ref(0), Ref(1));
    assert Members(g, 0, 1) == [(one, one)];
    SameMember(g, 0, 1, one);
    hide Eq;
    assert "x" in g[0].keys && "x" !in g[1].keys;
  }

  lemma ZeroTakenForTiny()
    ensures exists n :: Eq([], Number(Finite(0.0)), Number(n), []) && !Bisimilar([], Number(Finite(0.0)), Number(n))
  {
    hide Bisimilar, Overflows, Power;
    ZeroEqualsTiny();
    var n :| n != Finite(0.0) && NumbersEqual(Finite(0.0), n) && !NumbersEqual(n, Finite(0.0));
    var zero := Number(Finite(0.0));
    NumberTest(Finite(0.0), n);
    DecidesLeaves([], zero, Number(n));
    MetAtStart([], zero, Number(n));
    assert ConfusedOn([], zero, Number(n), [], zero, Number(n));
    EqualExactly([], zero, Number(n));
  }

  // An object with a member of its own that is named `constructor`.
  function Owner(inherited: nat, member: nat): Obj {
    PlainObj("Object", Ref(inherited), ["constructor"], map["constructor" := Ref(member)])
  }

  // Two such objects, whose members of that name are alike, but two objects.
  function OwnConstructors(): Graph {
    var member := PlainObj("Object", Ref(4), ["x"], map["x" := Number(Finite(1.0))]);
    [Owner(4, 2), Owner(4, 3), member, member, FunctionObj(true)]
  }

  lemma OwnConstructorsAlike()
    ensures var g := OwnConstructors(); Valid(g) && Bisimilar(g, Ref(0), Ref(1))
  {
    OwnConstructorsValid();
    OwnConstructorsMembers();
    hide Alike, Valid;
    TwoPairs(OwnConstructors(), 0, 1, 2, 3);
  }

  lemma OwnConstructorsValid()
    ensures Valid(OwnConstructors())
  {
  }

  lemma OwnConstructorsMembers()
    requires Valid(OwnConstructors())
    ensures var g, r := OwnConstructors(), iset{(0, 1), (2, 3)}; Alike(g, 0, 1, r) && Alike(g, 2, 3, r)
  {
    hide Valid;
  }

  // Nothing tells them apart, but their properties `constructor` are neither the same nor functions.
  lemma OwnConstructorIsCompared()
    ensures var g := OwnConstructors();
            Valid(g) && Bisimilar(g, Ref(0), Ref(1)) && !Eq(g, Ref(0), Ref(1), [])
  {
    hide Eq, Walk, Met, Decide, Bisimilar, Valid, CtorsAgree;
    var g := OwnConstructors();
    OwnConstructorsAlike();
    MetAtStart(g, Ref(0), Ref(1));
    DeepIsUndecided(g, Ref(0), Ref(1));
    WalkOn(g, Ref(0), Ref(1), [], 0, 1);
    assert [] + [(0, 1)] == [(0, 1)];
    OwnersDisagree();
    assert PartedOn(g, Ref(0), Ref(1), [(0, 1)]);
    EqualExactly(g, Ref(0), Ref(1));
  }

  lemma OwnersDisagree()
    ensures var g := OwnConstructors(); !CtorsAgree(g, g[0], g[1])
  {
  }

  lemma MaskedIsEqual()
    ensures var g := [Owner(3, 2), Owner(4, 2), FunctionObj(false), FunctionObj(false), FunctionObj(false)];
            Valid(g) && Eq(g, Ref(0), Ref(1), []) && MasksCtor(g, g[0], g[1])
  {
    var g := [Owner(3, 2), Owner(4, 2), FunctionObj(false), FunctionObj(false), FunctionObj(false)];
    assert Valid(g);
    hide Valid;
    DeepIsUndecided(g, Ref(0), Ref(1));
    assert Members(g, 0, 1) == [(Ref(2), Ref(2))];
    SameMember(g, 0, 1, Ref(2));
    hide Eq;
  }

  // Objects of two different constructors are answered true if they have a property of their
  // own of that name, of the same value.
  lemma MaskedConstructor()
    ensures var g := [Owner(3, 2), Owner(4, 2), FunctionObj(false), FunctionObj(false), FunctionObj(false)];
            Valid(g) && Eq(g, Ref(0), Ref(1), []) && !Bisimilar(g, Ref(0), Ref(1))
  {
    hide Bisimilar, Eq, Met, Walk, Valid, MasksCtor, Decide;
    var g := [Owner(3, 2), Owner(4, 2), FunctionObj(false), FunctionObj(false), FunctionObj(false)];
    MaskedIsEqual();
    DeepIsUndecided(g, Ref(0), Ref(1));
    assert [] + [(0, 1)] == [(0, 1)];
    MetAtStart(g, Ref(0), Ref(1));
    WalkOn(g, Ref(0), Ref(1), [], 0, 1);
    assert HiddenOn(g, Ref(0), Ref(1), [(0, 1)]);
    EqualExactly(g, Ref(0), Ref(1));
  }

  // Two objects without members are told apart by their constructors alone: these must be the
  // same, or both functions that are instances of themselves, as `Object` is in every frame. If
  // they are numbers, the zeros are the same, and NaN is not the same as itself.
  lemma ConstructorsDecide(g: Graph, x: nat, y: nat, name: string, c: Value, d: Value)
    requires Valid(g) && x < |g| && y < |g| && x != y
    requires g[x] == PlainObj(name, c, [], map[]) && g[y] == PlainObj(name, d, [], map[])
    ensures Eq(g, Ref(x), Ref(y), []) <==> OneConstructor(g, c, d)
  {
    hide Valid, Decide, Aligned, EqMembers;
    DeepIsUndecided(g, Ref(x), Ref(y));
    assert [] + [(x, y)] == [(x, y)];
    NoMembers(g, x, y);
    EmptyAligned(g, g[x], g[y]);
  }

  predicate OneConstructor(g: Graph, c: Value, d: Value) {
    match (c, d)
    case (Number(m), Number(n)) =>
      m != NaN && (m == n || (m in {Finite(0.0), NegativeZero} && n in {Finite(0.0), NegativeZero}))
    case (Ref(i), Ref(j)) =>
      i == j || (i < |g| && j < |g| && g[i] == FunctionObj(true) && g[j] == FunctionObj(true))
    case _ => c == d
  }

  lemma NoMembers(g: Graph, x: nat, y: nat)
    requires Valid(g) && x < |g| && y < |g| && g[x].PlainObj? && g[x].keys == []
    ensures EqMembers(g, x, y, [(x, y)]) <==> Aligned(g, g[x], g[y])
  {
    hide Valid, CtorsAgree, Eq;
  }

  lemma EmptyAligned(g: Graph, o: Obj, p: Obj)
    requires o.PlainObj? && p.PlainObj? && o.keys == p.keys == [] && "constructor" !in o.own && "constructor" !in p.own
    ensures Aligned(g, o, p) <==> OneConstructor(g, o.ctor, p.ctor)
  {
  }
}
