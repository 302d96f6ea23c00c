/** Shuffling: the result is built from the front, each value going to a random place whose value
    moves to the new end. */
module Shuffling {

  // _.random(max): from a number u with 0 <= u < 1 to a whole number.
  function Random(max: nat, u: real): (k: nat)
    requires 0.0 <= u < 1.0
    ensures k <= max
  {
    RandomBounds(max, u);
    (u * (max + 1) as real).Floor
  }

  lemma RandomBounds(max: nat, u: real)
    requires 0.0 <= u < 1.0
    ensures 0 <= (u * (max + 1) as real).Floor <= max
  {
    var n := (max + 1) as real;
    assert 0.0 <= u * n;
    assert u * n < 1.0 * n;
    var k := (u * n).Floor;
    assert k as real <= u * n < (max + 1) as real;
    assert k < max + 1;
    assert (u * (max + 1) as real).Floor == k;
  }

  // Each number is chosen on an interval of the same length.
  lemma RandomIsUniform(max: nat, u: real, k: nat)
    requires 0.0 <= u < 1.0
    ensures Random(max, u) == k <==> k as real / (max + 1) as real <= u < (k + 1) as real / (max + 1) as real
  {
    var n := (max + 1) as real;
    assert k as real / n <= u <==> k as real <= u * n by { Scaled(k as real, u, n); }
    assert u < (k + 1) as real / n <==> u * n < (k + 1) as real by { Scaled((k + 1) as real, u, n); }
  }

  lemma Scaled(a: real, u: real, n: real)
    requires n > 0.0
    ensures a / n <= u <==> a <= u * n
  {
    var q := a / n;
    assert q * n == a;
    if q <= u {
      assert q * n <= u * n;
    } else {
      assert u * n < q * n;
    }
  }

  function Put<T>(s: seq<T>, r: nat, v: T): (t: seq<T>)
    requires r <= |s|
    ensures |t| == |s| + 1
  {
    if r == |s| then s + [v] else s[r := v] + [s[r]]
  }

  predicate Choices(choices: seq<nat>) {
    forall k :: 0 <= k < |choices| ==> choices[k] <= k
  }

  function Shuffle<T>(input: seq<T>, choices: seq<nat>): (s: seq<T>)
    requires |choices| == |input| && Choices(choices)
    ensures |s| == |input|
  {
    if input == [] then [] else
      var n := |input| - 1;
      Put(Shuffle(input[..n], choices[..n]), choices[n], input[n])
  }

  lemma NoChoices<T>(obj: seq<T>)
    ensures Choices([]) && Shuffle(obj[..0], []) == []
  {
  }

  lemma PutInPlace<T>(s: seq<T>, r: nat, v: T)
    requires r <= |s|
    ensures (s + [if r < |s| then s[r] else v])[r := v] == Put(s, r, v)
  {
  }

  lemma ShuffleNext<T>(obj: seq<T>, i: nat, choices: seq<nat>, rand: nat)
    requires i < |obj| && |choices| == i && Choices(choices) && rand <= i
    ensures Choices(choices + [rand])
    ensures Shuffle(obj[..i + 1], choices + [rand]) == Put(Shuffle(obj[..i], choices), rand, obj[i])
  {
    assert obj[..i + 1][..i] == obj[..i] && (choices + [rand])[..i] == choices;
  }

  method ShuffleValues<T>(obj: seq<T>, us: seq<real>) returns (shuffled: seq<T>, ghost choices: seq<nat>)
    requires |us| == |obj| && forall i :: 0 <= i < |us| ==> 0.0 <= us[i] < 1.0
    ensures |choices| == |obj| && Choices(choices) && shuffled == Shuffle(obj, choices)
    ensures forall k :: 0 <= k < |obj| ==> choices[k] == Random(k, us[k])
    ensures multiset(shuffled) == multiset(obj)
  {
    hide Shuffle, Put, Random, Choices;
    var index := 0;
    shuffled := [];
    NoChoices(obj);
    choices := [];
    for i := 0 to |obj|
      invariant index == i == |choices| && Choices(choices)
      invariant forall k :: 0 <= k < i ==> choices[k] == Random(k, us[k])
      invariant shuffled == Shuffle(obj[..i], choices)
    {
      var value := obj[i];
      var rand := Random(index, us[i]);
      index := index + 1;
      // Past the end there is nothing to move; the new place is overwritten at once.
      shuffled := shuffled + [if rand < index - 1 then shuffled[rand] else value];
      shuffled := shuffled[rand := value];
      PutInPlace(Shuffle(obj[..i], choices), rand, value);
      ShuffleNext(obj, i, choices, rand);
      choices := choices + [rand];
    }
    assert obj[..|obj|] == obj;
    ShuffleKeeps(obj, choices);
  }

  lemma PutKeeps<T>(s: seq<T>, r: nat, v: T)
    requires r <= |s|
    ensures multiset(Put(s, r, v)) == multiset(s) + multiset{v}
  {
    if r < |s| {
      assert multiset(s[r := v]) == multiset(s) - multiset{s[r]} + multiset{v};
      assert multiset(s[r := v] + [s[r]]) == multiset(s[r := v]) + multiset{s[r]};
    }
  }

  lemma {:induction false} ShuffleKeeps<T>(input: seq<T>, choices: seq<nat>)
    requires |choices| == |input| && Choices(choices)
    ensures multiset(Shuffle(input, choices)) == multiset(input)
    decreases |input|
  {
    hide Put;
    if input != [] {
      var n := |input| - 1;
      ShuffleKeeps(input[..n], choices[..n]);
      PutKeeps(Shuffle(input[..n], choices[..n]), choices[n], input[n]);
      assert input == input[..n] + [input[n]];
    }
  }

  // ---- one sequence of choices for each permutation

  predicate Distinct<T(==)>(s: seq<T>) {
    forall i, j :: 0 <= i < j < |s| ==> s[i] != s[j]
  }

  // What was there before v was put into place r.
  function Unput<T>(p: seq<T>, r: nat): (s: seq<T>)
    requires r < |p|
    ensures |s| == |p| - 1
  {
    p[r := p[|p| - 1]][..|p| - 1]
  }

  lemma UnputPut<T>(p: seq<T>, r: nat)
    requires r < |p|
    ensures Put(Unput(p, r), r, p[r]) == p
  {
  }

  lemma PutUnput<T>(s: seq<T>, r: nat, v: T)
    requires r <= |s|
    ensures Unput(Put(s, r, v), r) == s && Put(s, r, v)[r] == v
  {
  }

  lemma DistinctIsMultiset<T>(s: seq<T>)
    ensures Distinct(s) <==> forall x :: x in s ==> multiset(s)[x] == 1
    decreases |s|
  {
    if s != [] {
      var n := |s| - 1;
      DistinctIsMultiset(s[..n]);
      assert s == s[..n] + [s[n]];
      assert multiset(s) == multiset(s[..n]) + multiset{s[n]};
      if Distinct(s) {
        assert s[n] !in s[..n];
        forall x | x in s ensures multiset(s)[x] == 1 {
          assert x in s[..n] || x == s[n];
        }
      }
      if forall x :: x in s ==> multiset(s)[x] == 1 {
        assert multiset(s)[s[n]] == 1;
        assert s[n] !in multiset(s[..n]);
        forall x | x in s[..n] ensures multiset(s[..n])[x] == 1 {
          assert x in s && multiset(s)[x] == 1;
        }
      }
    }
  }

  lemma PermutationDistinct<T>(p: seq<T>, s: seq<T>)
    requires multiset(p) == multiset(s) && Distinct(s)
    ensures Distinct(p)
  {
    DistinctIsMultiset(s);
    DistinctIsMultiset(p);
    forall x | x in p ensures multiset(p)[x] == 1 {
      assert x in multiset(p);
    }
  }

  lemma UnputKeeps<T(!new)>(p: seq<T>, r: nat, input: seq<T>)
    requires r < |p| && input != [] && multiset(p) == multiset(input) && p[r] == input[|input| - 1]
    ensures multiset(Unput(p, r)) == multiset(input[..|input| - 1])
  {
    UnputPut(p, r);
    PutKeeps(Unput(p, r), r, p[r]);
    var n := |input| - 1;
    assert input == input[..n] + [input[n]];
    forall x ensures multiset(Unput(p, r))[x] == multiset(input[..n])[x] {
      assert (multiset(Unput(p, r)) + multiset{p[r]})[x] == (multiset(input[..n]) + multiset{p[r]})[x];
    }
  }

  // Every permutation is some shuffle,
  lemma {:induction false} EveryPermutation<T(!new)>(input: seq<T>, p: seq<T>) returns (choices: seq<nat>)
    requires multiset(p) == multiset(input)
    ensures |choices| == |input| && Choices(choices) && Shuffle(input, choices) == p
    decreases |input|
  {
    assert |p| == |multiset(p)| == |input|;
    if input == [] {
      choices := [];
    } else {
      var n := |input| - 1;
      assert input[n] in multiset(p);
      var r :| 0 <= r < |p| && p[r] == input[n];
      UnputKeeps(p, r, input);
      var before := EveryPermutation(input[..n], Unput(p, r));
      choices := before + [r];
      assert choices[..n] == before;
      UnputPut(p, r);
    }
  }

  // and if the values differ, of one sequence of choices only.
  lemma {:induction false} ChoicesUnique<T>(input: seq<T>, c: seq<nat>, d: seq<nat>)
    requires Distinct(input) && |c| == |d| == |input| && Choices(c) && Choices(d)
    requires Shuffle(input, c) == Shuffle(input, d)
    ensures c == d
    decreases |input|
  {
    if input != [] {
      var n := |input| - 1;
      var p := Shuffle(input, c);
      var first, second := Shuffle(input[..n], c[..n]), Shuffle(input[..n], d[..n]);
      ShuffleKeeps(input, c);
      PermutationDistinct(p, input);
      PutUnput(first, c[n], input[n]);
      PutUnput(second, d[n], input[n]);
      assert p[c[n]] == p[d[n]];
      assert c[n] == d[n];
      ChoicesUnique(input[..n], c[..n], d[..n]);
      assert c == c[..n] + [c[n]] && d == d[..n] + [d[n]];
    }
  }

  ghost predicate Yields<T(!new)>(input: seq<T>, choices: seq<nat>, p: seq<T>) {
    |choices| == |input| && Choices(choices) && Shuffle(input, choices) == p
  }

  // So the choices and the permutations correspond one to one.
  lemma ShuffleIsBijective<T(!new)>(input: seq<T>, p: seq<T>)
    requires Distinct(input)
    ensures multiset(p) == multiset(input) <==> exists choices :: Yields(input, choices, p)
    ensures forall c, d :: Yields(input, c, p) && Yields(input, d, p) ==> c == d
  {
    if multiset(p) == multiset(input) {
      var choices := EveryPermutation(input, p);
      assert Yields(input, choices, p);
    }
    if choices :| Yields(input, choices, p) {
      ShuffleKeeps(input, choices);
    }
    forall c, d | Yields(input, c, p) && Yields(input, d, p) ensures c == d {
      ChoicesUnique(input, c, d);
    }
  }
}
