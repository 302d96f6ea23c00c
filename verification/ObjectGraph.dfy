/** JavaScript values as a deep comparison sees them: primitives, and references into a finite
    graph of objects that may contain cycles. */
module ObjectGraph {
  import opened Options

  // Numbers without rounding; what divides two zeros and NaN from the rest is kept.
  datatype Num = NaN | NegativeZero | Finite(r: real) | PlusInfinity | MinusInfinity

  datatype Value = Undefined | Null | Bool(b: bool) | Number(n: Num) | Str(s: string) | Ref(node: nat)

  datatype Obj =
    | StringObj(text: string)
    | NumberObj(number: Num)
    | BooleanObj(bit: bool)
    | DateObj(time: Option<int>)      // None: an invalid date
    | RegExpObj(source: string, global: bool, multiline: bool, ignoreCase: bool)
    | FunctionObj(ownInstance: bool)  // whether it is an instance of itself, as `Object` is in every frame
    | ArrayObj(elems: seq<Value>)
    | PlainObj(name: string, ctor: Value, keys: seq<string>, own: map<string, Value>)
    // ctor: what its prototypes give for `constructor`
    // keys: the enumerable ones among its own properties, in the order of enumeration

  type Graph = seq<Obj>

  datatype Class = NoClass | StringClass | NumberClass | BooleanClass | DateClass | RegExpClass | FunctionClass |
                   ArrayClass | Named(name: string)

  predicate Inside(g: Graph, v: Value) {
    v.Ref? ==> v.node < |g|
  }

  predicate Distinct<T(==)>(s: seq<T>) {
    forall i, j :: 0 <= i < j < |s| ==> s[i] != s[j]
  }

  predicate WellFormed(g: Graph, o: Obj) {
    match o
    case ArrayObj(elems) => forall i :: 0 <= i < |elems| ==> Inside(g, elems[i])
    case PlainObj(_, ctor, keys, own) =>
      && Inside(g, ctor) && Distinct(keys) && (forall i :: 0 <= i < |keys| ==> keys[i] in own)
      && forall k :: k in own ==> Inside(g, own[k])
    case _ => true
  }

  predicate Valid(g: Graph) {
    forall x :: 0 <= x < |g| ==> WellFormed(g, g[x])
  }

  // The property `constructor`: its own one hides the inherited one.
  function ConstructorOf(o: Obj): Value
    requires o.PlainObj?
  {
    if "constructor" in o.own then o.own["constructor"] else o.ctor
  }

  function ClassOf(g: Graph, v: Value): Class
    requires Inside(g, v)
  {
    match v
    case Undefined => NoClass
    case Null => NoClass
    case Bool(_) => BooleanClass
    case Number(_) => NumberClass
    case Str(_) => StringClass
    case Ref(x) =>
      match g[x]
      case StringObj(_) => StringClass
      case NumberObj(_) => NumberClass
      case BooleanObj(_) => BooleanClass
      case DateObj(_) => DateClass
      case RegExpObj(_, _, _, _) => RegExpClass
      case FunctionObj(_) => FunctionClass
      case ArrayObj(_) => ArrayClass
      case PlainObj(name, _, _, _) => Named(name)
  }

  predicate Zero(n: Num) { n == NegativeZero || n == Finite(0.0) }

  // ---- reciprocals, which is how the comparison tells the zeros apart

  function Power(n: nat): (p: real)
    ensures p > 0.0
  {
    if n == 0 then 1.0 else 2.0 * Power(n - 1)
  }

  // Doubles: from here on a quotient is rounded to infinity (section 8.5 of ECMAScript 5.1).
  predicate Overflows(r: real) {
    r >= Power(1024) - Power(970) || r <= Power(970) - Power(1024)
  }

  function Reciprocal(n: Num): Num {
    match n
    case NaN => NaN
    case NegativeZero => MinusInfinity
    case PlusInfinity => Finite(0.0)
    case MinusInfinity => NegativeZero
    case Finite(r) =>
      if r == 0.0 then PlusInfinity
      else if Overflows(1.0 / r) then (if r > 0.0 then PlusInfinity else MinusInfinity)
      else Finite(1.0 / r)
  }

  // a == b
  predicate NumbersLooselyEqual(a: Num, b: Num) {
    a != NaN && b != NaN && (a == b || (Zero(a) && Zero(b)))
  }

  // a != +a ? b != +b : (a == 0 ? 1 / a == 1 / b : a == +b)
  predicate NumbersEqual(a: Num, b: Num) {
    if !NumbersLooselyEqual(a, a) then !NumbersLooselyEqual(b, b)
    else if Zero(a) then NumbersLooselyEqual(Reciprocal(a), Reciprocal(b))
    else NumbersLooselyEqual(a, b)
  }

  // A number so close to zero that its reciprocal is an infinity.
  predicate Tiny(n: Num) {
    n.Finite? && n.r != 0.0 && Overflows(1.0 / n.r)
  }

  // A zero is taken for a tiny number of its sign; nothing else goes wrong.
  lemma NumberTest(a: Num, b: Num)
    ensures (NumbersEqual(a, b) <==> a == b) <==> !(Zero(a) && Tiny(b) && (a == NegativeZero <==> b.r < 0.0))
  {
    hide Overflows;
    if b.Finite? && b.r != 0.0 {
      assert 1.0 / b.r != 0.0;
    }
  }

  lemma ZeroEqualsTiny()
    ensures exists b :: b != Finite(0.0) && NumbersEqual(Finite(0.0), b) && !NumbersEqual(b, Finite(0.0))
  {
    var p := Power(1024);
    var r := 1.0 / p;
    assert r * p == 1.0;
    assert r > 0.0;
    assert 1.0 / r == p;
    assert Overflows(p);
    var b := Finite(r);
    assert NumbersEqual(Finite(0.0), b) && !NumbersEqual(b, Finite(0.0));
  }

  // How tiny: at most 2^-1023 from zero, and certainly from 2^-1024 on.
  lemma TinyBounds(r: real)
    requires r != 0.0
    ensures var size := if r > 0.0 then r else -r;
            && (Tiny(Finite(r)) ==> size * Power(1023) <= 1.0)
            && (size * Power(1024) <= 1.0 ==> Tiny(Finite(r)))
  {
    hide Power;
    PowerGrows(970, 1023);
    PowerDoubles(1023);
    var size := if r > 0.0 then r else -r;
    TinyWithin(size, Power(1023), Power(1024), Power(970));
    OppositeInverse(size);
    assert size >= 0.0 && 1.0 / size > 0.0;
  }

  lemma OppositeInverse(r: real)
    requires r > 0.0
    ensures 1.0 / -r == -(1.0 / r) && 1.0 / r > 0.0
  {
    var q, p := 1.0 / r, 1.0 / -r;
    assert q * r == 1.0 && p * -r == 1.0;
    assert (p + q) * r == 0.0;
  }

  lemma TinyWithin(r: real, half: real, whole: real, rest: real)
    requires r > 0.0 && whole == 2.0 * half && 0.0 < rest <= half
    ensures 1.0 / r >= whole - rest ==> r * half <= 1.0
    ensures r * whole <= 1.0 ==> 1.0 / r >= whole - rest
  {
    Inverse(r);
    if 1.0 / r >= whole - rest {
      ScaleLeast(r, half, 1.0 / r);
    }
    if r * whole <= 1.0 {
      ScaleBack(r, whole, 1.0 / r);
    }
  }

  lemma Inverse(r: real)
    requires r > 0.0
    ensures r * (1.0 / r) == 1.0
  {
    var q := 1.0 / r;
    assert q * r == 1.0;
  }

  lemma PowerDoubles(n: nat)
    ensures Power(n + 1) == 2.0 * Power(n)
  {
  }

  lemma ScaleLeast(r: real, a: real, q: real)
    requires r > 0.0 && a <= q
    ensures r * a <= r * q
  {
  }

  lemma ScaleBack(r: real, a: real, q: real)
    requires r > 0.0 && r * a <= r * q
    ensures a <= q
  {
    assert a > q ==> r * (a - q) > 0.0;
  }

  lemma PowerGrows(m: nat, n: nat)
    requires m <= n
    ensures Power(m) <= Power(n)
    decreases n
  {
    if m < n {
      PowerGrows(m, n - 1);
    }
  }
}
