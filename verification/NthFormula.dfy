/** The argument of :nth-child: from the text of an accepted formula, through the parsing in
    the CHILD preFilter, to the arithmetic test in the CHILD filter. */
module NthFormula {
  import opened Options

  datatype Sign = Plus | Minus

  // Offset of a linear formula: sign, blanks, digits.
  datatype Offset = Offset(sign: Sign, blanks: string, digits: string)

  // The formulas the CHILD expression accepts.
  datatype Formula =
    | Even
    | Odd
    | Integer(sign: Option<Sign>, digits: string)
    | Linear(sign: Option<Sign>, coefficient: string, blanks: string, offset: Option<Offset>)

  predicate IsDigit(c: char) {
    '0' <= c <= '9'
  }

  // \s: white space and line terminators (sections 7.2, 7.3 and 15.10.2.12 of ECMAScript 5.1)
  predicate IsBlank(c: char) {
    || '\t' <= c <= '\r' || c == ' ' || c == '\U{00A0}' || c == '\U{1680}' || c == '\U{180E}'
    || '\U{2000}' <= c <= '\U{200A}' || c == '\U{2028}' || c == '\U{2029}' || c == '\U{202F}'
    || c == '\U{205F}' || c == '\U{3000}' || c == '\U{FEFF}'
  }

  // Which characters these are, and no others.
  lemma BlanksAre(c: char)
    ensures IsBlank(c) <==>
            c in "\t\n\U{000B}\U{000C}\r \U{00A0}\U{1680}\U{180E}" +
                 "\U{2000}\U{2001}\U{2002}\U{2003}\U{2004}\U{2005}\U{2006}\U{2007}\U{2008}\U{2009}\U{200A}" +
                 "\U{2028}\U{2029}\U{202F}\U{205F}\U{3000}\U{FEFF}"
  {
    var first := "\t\n\U{000B}\U{000C}\r \U{00A0}\U{1680}\U{180E}";
    var spaces := "\U{2000}\U{2001}\U{2002}\U{2003}\U{2004}\U{2005}\U{2006}\U{2007}\U{2008}\U{2009}\U{200A}";
    if '\U{2000}' <= c <= '\U{200A}' {
      assert spaces[c as int - 0x2000] == c;
    }
    if '\t' <= c <= '\r' {
      assert first[c as int - 9] == c;
    }
    assert first[5] == ' ' && first[6] == '\U{00A0}' && first[7] == '\U{1680}' && first[8] == '\U{180E}';
  }

  predicate Digits(s: string) {
    forall i :: 0 <= i < |s| ==> IsDigit(s[i])
  }

  predicate Blanks(s: string) {
    forall i :: 0 <= i < |s| ==> IsBlank(s[i])
  }

  predicate Accepted(f: Formula) {
    match f
    case Even => true
    case Odd => true
    case Integer(_, digits) => digits != "" && Digits(digits)
    case Linear(_, coefficient, blanks, offset) =>
      Digits(coefficient) && Blanks(blanks) &&
      (offset.Some? ==> Blanks(offset.value.blanks) && offset.value.digits != "" && Digits(offset.value.digits))
  }

  function SignText(sign: Sign): string {
    if sign == Plus then "+" else "-"
  }

  function OptionalSign(sign: Option<Sign>): string {
    match sign case None => "" case Some(s) => SignText(s)
  }

  function Text(f: Formula): string {
    match f
    case Even => "even"
    case Odd => "odd"
    case Integer(sign, digits) => OptionalSign(sign) + digits
    case Linear(sign, coefficient, blanks, offset) =>
      OptionalSign(sign) + coefficient + "n" + blanks +
      (match offset case None => "" case Some(o) => SignText(o.sign) + o.blanks + o.digits)
  }

  // ---- the meaning: indices a * n + b for n >= 0 (section 6.6.5.2 of Selectors Level 3)

  function Value(digits: string): nat
    requires Digits(digits)
  {
    if digits == "" then 0
    else Value(digits[..|digits| - 1]) * 10 + (digits[|digits| - 1] as int - '0' as int)
  }

  // How a number is written.
  function Numeral(n: nat): string {
    (if n < 10 then "" else Numeral(n / 10)) + [(n % 10 + '0' as int) as char]
  }

  lemma {:induction false} NumeralsAreDecimal(n: nat)
    ensures Numeral(n) != "" && Digits(Numeral(n)) && Value(Numeral(n)) == n
    decreases n
  {
    var front := if n < 10 then "" else Numeral(n / 10);
    if n >= 10 {
      NumeralsAreDecimal(n / 10);
    }
    hide Value, Digits;
    OneDigitMore(front, n % 10);
    assert n == n / 10 * 10 + n % 10;
  }

  lemma OneDigitMore(front: string, d: nat)
    requires Digits(front) && d < 10
    ensures var s := front + [(d + '0' as int) as char];
            Digits(s) && Value(s) == Value(front) * 10 + d && Value("") == 0 && Digits("")
  {
    var c := (d + '0' as int) as char;
    assert c as int - '0' as int == d;
    assert (front + [c])[..|front|] == front;
  }

  function Signed(sign: Sign, n: int): int {
    if sign == Plus then n else -n
  }

  function SignOf(sign: Option<Sign>): Sign {
    if sign.Some? then sign.value else Plus
  }

  function Coefficient(f: Formula): int
    requires Accepted(f)
  {
    match f
    case Even => 2
    case Odd => 2
    case Integer(_, _) => 0
    case Linear(sign, coefficient, _, _) => Signed(SignOf(sign), if coefficient == "" then 1 else Value(coefficient))
  }

  function Constant(f: Formula): int
    requires Accepted(f)
  {
    match f
    case Even => 0
    case Odd => 1
    case Integer(sign, digits) => Signed(SignOf(sign), Value(digits))
    case Linear(_, _, _, offset) => if offset.None? then 0 else Signed(offset.value.sign, Value(offset.value.digits))
  }

  ghost predicate Represents(a: int, b: int, index: int) {
    exists n: nat :: index == a * n + b
  }

  // What a formula with numbers a and b is about, told by the numbers themselves.
  lemma WrittenFormula(a: nat, b: nat, minus: bool)
    ensures var f := Linear(if minus then Some(Minus) else None, Numeral(a), "", Some(Offset(Plus, "", Numeral(b))));
            && Accepted(f) && Text(f) == (if minus then "-" else "") + Numeral(a) + "n+" + Numeral(b)
            && (if minus then Coefficient(f) + a == 0 else Coefficient(f) == a) && Constant(f) == b
  {
    hide Numeral, Value;
    NumeralsAreDecimal(a);
    NumeralsAreDecimal(b);
    assert "n" + "" + ("+" + "" + Numeral(b)) == "n+" + Numeral(b);
    assert (if minus then "-" else "") + Numeral(a) + "n" + "" + ("+" + "" + Numeral(b)) ==
           (if minus then "-" else "") + Numeral(a) + ("n" + "" + ("+" + "" + Numeral(b)));
    assert (if minus then "-" else "") + Numeral(a) + "n+" + Numeral(b) ==
           (if minus then "-" else "") + Numeral(a) + ("n+" + Numeral(b));
  }

  // ---- the code

  datatype Number = NaN | Int(v: int)

  // match[ 2 ] and match[ 3 ] after parsing
  datatype Parsed = Parsed(first: int, last: Number)

  function WithoutBlanks(s: string): string {
    if s == "" then ""
    else (if IsBlank(s[0]) then "" else [s[0]]) + WithoutBlanks(s[1..])
  }

  // .replace( /^\+|\s*/g, "" )
  function Strip(s: string): string {
    if s != "" && s[0] == '+' then WithoutBlanks(s[1..]) else WithoutBlanks(s)
  }

  function TakeDigits(s: string): (digits: string)
    ensures Digits(digits) && |digits| <= |s|
  {
    if s != "" && IsDigit(s[0]) then [s[0]] + TakeDigits(s[1..]) else ""
  }

  // Conversion of what ([+\-]?\d*) matched: "" is 0, a sign alone is not a number.
  function ToNumber(s: string): Number {
    if s == "" then Int(0)
    else if s[0] == '+' || s[0] == '-' then
      if s[1..] != "" && Digits(s[1..]) then Int(Signed(if s[0] == '-' then Minus else Plus, Value(s[1..]))) else NaN
    else if Digits(s) then Int(Value(s)) else NaN
  }

  // What (?:n([+\-]?\d*))? matches at the start of s, converted.
  function MatchOffset(s: string): Number {
    if s != "" && s[0] == 'n' then
      var tail := s[1..];
      var sign := if tail != "" && (tail[0] == '+' || tail[0] == '-') then [tail[0]] else "";
      ToNumber(sign + TakeDigits(tail[|sign|..]))
    else NaN
  }

  function MatchUnsigned(sign: Sign, s: string): Parsed {
    var digits := TakeDigits(s);
    Parsed(Signed(sign, if digits == "" then 1 else Value(digits)), MatchOffset(s[|digits|..]))
  }

  // What /(-?)(\d*)(?:n([+\-]?\d*))?/ finds at the start of s, converted.
  function Match(s: string): Parsed {
    if s != "" && s[0] == '-' then MatchUnsigned(Minus, s[1..]) else MatchUnsigned(Plus, s)
  }

  function Parse(text: string): Parsed {
    var s := Strip(text);
    Match(if s == "even" then "2n"
          else if s == "odd" then "2n+1"
          else if Digits(s) then "0n+" + s
          else s)
  }

  // a % b, truncated towards zero
  function Remainder(a: int, b: int): int
    requires b != 0
  {
    var m := (if a < 0 then -a else a) % (if b < 0 then -b else b);
    if a < 0 then -m else m
  }

  // a / b >= 0, the division being exact or not
  predicate QuotientNotNegative(a: int, b: int)
    requires b != 0
  {
    a == 0 || (a > 0 <==> b > 0)
  }

  predicate Test(p: Parsed, index: int) {
    if p.first == 1 && p.last == Int(0) then true
    else if p.last == NaN then false   // every comparison with NaN is false
    else
      var diff := index - p.last.v;
      if p.first == 0 then diff == 0
      else Remainder(diff, p.first) == 0 && QuotientNotNegative(diff, p.first)
  }

  // ---- parsing gets the numbers right

  lemma WithoutBlanksAppend(s: string, t: string)
    ensures WithoutBlanks(s + t) == WithoutBlanks(s) + WithoutBlanks(t)
  {
    if s == "" {
      assert s + t == t;
    } else {
      assert (s + t)[1..] == s[1..] + t;
      WithoutBlanksAppend(s[1..], t);
    }
  }

  lemma NoBlanksInDigits(s: string)
    requires Digits(s)
    ensures WithoutBlanks(s) == s
  {
    if s != "" {
      NoBlanksInDigits(s[1..]);
    }
  }

  lemma OnlyBlanks(s: string)
    requires Blanks(s)
    ensures WithoutBlanks(s) == ""
  {
    if s != "" {
      OnlyBlanks(s[1..]);
    }
  }

  lemma TakesDigit(s: string)
    requires s != "" && IsDigit(s[0])
    ensures TakeDigits(s) == [s[0]] + TakeDigits(s[1..])
  {
  }

  lemma {:induction false} TakesAllDigits(s: string, t: string)
    requires Digits(s) && (t == "" || !IsDigit(t[0]))
    ensures TakeDigits(s + t) == s
    decreases |s|
  {
    if s == "" {
      assert s + t == t;
    } else {
      assert IsDigit(s[0]) && (s + t)[0] == s[0] && (s + t)[1..] == s[1..] + t;
      TakesDigit(s + t);
      TakesAllDigits(s[1..], t);
      hide TakeDigits, IsDigit;
      assert [s[0]] + s[1..] == s;
    }
  }

  function MinusText(sign: Option<Sign>): string {
    if sign == Some(Minus) then "-" else ""
  }

  function OffsetText(offset: Option<Offset>): string {
    match offset case None => "" case Some(o) => SignText(o.sign) + o.digits
  }

  lemma StripSigned(sign: Option<Sign>, s: string)
    requires s != "" && (IsDigit(s[0]) || s[0] == 'n')
    ensures Strip(OptionalSign(sign) + s) == MinusText(sign) + WithoutBlanks(s)
  {
    match sign
    case None => assert OptionalSign(sign) + s == s;
    case Some(Plus) => assert (OptionalSign(sign) + s)[1..] == s;
    case Some(Minus) =>
      WithoutBlanksAppend("-", s);
  }

  lemma StripOffset(o: Offset)
    requires Blanks(o.blanks) && Digits(o.digits)
    ensures WithoutBlanks(SignText(o.sign) + o.blanks + o.digits) == SignText(o.sign) + o.digits
  {
    WithoutBlanksAppend(SignText(o.sign) + o.blanks, o.digits);
    WithoutBlanksAppend(SignText(o.sign), o.blanks);
    NoBlanksInDigits(o.digits);
    OnlyBlanks(o.blanks);
    assert WithoutBlanks(SignText(o.sign)) == SignText(o.sign);
    hide WithoutBlanks;
    assert SignText(o.sign) + "" == SignText(o.sign);
  }

  lemma StripBody(coefficient: string, blanks: string, tail: string)
    requires Digits(coefficient) && Blanks(blanks)
    ensures WithoutBlanks(coefficient + "n" + blanks + tail) == coefficient + "n" + WithoutBlanks(tail)
  {
    WithoutBlanksAppend(coefficient + "n" + blanks, tail);
    WithoutBlanksAppend(coefficient + "n", blanks);
    WithoutBlanksAppend(coefficient, "n");
    NoBlanksInDigits(coefficient);
    OnlyBlanks(blanks);
    assert WithoutBlanks("n") == "n";
    hide WithoutBlanks;
    assert coefficient + "n" + "" == coefficient + "n";
  }

  lemma StripLinear(f: Formula)
    requires Accepted(f) && f.Linear?
    ensures Strip(Text(f)) == MinusText(f.sign) + (f.coefficient + "n" + OffsetText(f.offset))
  {
    hide Strip, WithoutBlanks;
    var tail := match f.offset case None => "" case Some(o) => SignText(o.sign) + o.blanks + o.digits;
    var s := f.coefficient + "n" + f.blanks + tail;
    assert Text(f) == OptionalSign(f.sign) + s;
    StripSigned(f.sign, s);
    StripBody(f.coefficient, f.blanks, tail);
    if f.offset.Some? {
      StripOffset(f.offset.value);
    } else {
      OnlyBlanks("");
    }
  }

  lemma OffsetMatched(offset: Option<Offset>)
    requires offset.Some? ==> offset.value.digits != "" && Digits(offset.value.digits)
    ensures MatchOffset("n" + OffsetText(offset)) ==
            Int(if offset.None? then 0 else Signed(offset.value.sign, Value(offset.value.digits)))
  {
    hide Value, TakeDigits, Digits;
    var tail := OffsetText(offset);
    assert ("n" + tail)[1..] == tail;
    if offset.Some? {
      var o := offset.value;
      TakesAllDigits(o.digits, "");
      assert o.digits + "" == o.digits;
      assert tail == [tail[0]] + o.digits && tail[1..] == o.digits;
    }
  }

  lemma UnsignedMatched(sign: Sign, coefficient: string, offset: Option<Offset>)
    requires Digits(coefficient)
    requires offset.Some? ==> offset.value.digits != "" && Digits(offset.value.digits)
    ensures MatchUnsigned(sign, coefficient + "n" + OffsetText(offset)) ==
            Parsed(Signed(sign, if coefficient == "" then 1 else Value(coefficient)),
                   Int(if offset.None? then 0 else Signed(offset.value.sign, Value(offset.value.digits))))
  {
    var after := "n" + OffsetText(offset);
    OffsetMatched(offset);
    TakesAllDigits(coefficient, after);
    Concatenation(coefficient, OffsetText(offset));
    hide MatchOffset, TakeDigits, Value, OffsetText, Digits;
  }

  lemma Concatenation(s: string, t: string)
    ensures s + "n" + t == s + ("n" + t) && (s + ("n" + t))[|s|..] == "n" + t
  {
  }

  lemma ParseLinear(f: Formula)
    requires Accepted(f) && f.Linear?
    ensures Parse(Text(f)) == Parsed(Coefficient(f), Int(Constant(f)))
  {
    StripLinear(f);
    var body := f.coefficient + "n" + OffsetText(f.offset);
    var s := MinusText(f.sign) + body;
    UnsignedMatched(SignOf(f.sign), f.coefficient, f.offset);
    NotAWord(f.coefficient, OffsetText(f.offset), f.sign);
    hide Strip, Text, MatchUnsigned, OffsetText, Value;
    assert f.sign == Some(Minus) ==> s[1..] == body;
    assert f.sign != Some(Minus) ==> s == body;
  }

  lemma NotAWord(coefficient: string, tail: string, sign: Option<Sign>)
    requires Digits(coefficient)
    ensures var body := coefficient + "n" + tail;
            var s := MinusText(sign) + body;
            !Digits(s) && s != "even" && s != "odd" && body != "" && body[0] != '-'
  {
    var s := MinusText(sign) + (coefficient + "n" + tail);
    assert s[|MinusText(sign)| + |coefficient|] == 'n';
    assert s[0] == '-' || IsDigit(s[0]) || s[0] == 'n';
  }

  // A plain integer with a minus sign: nothing is parsed as the offset.
  lemma ParseNegative(digits: string)
    requires digits != "" && Digits(digits)
    ensures Parse("-" + digits) == Parsed(Signed(Minus, Value(digits)), NaN)
  {
    hide Value, TakeDigits, Strip, MatchUnsigned, WithoutBlanks;
    StripSigned(Some(Minus), digits);
    NoBlanksInDigits(digits);
    MinusIsNoDigit(digits);
    UnsignedDigits(digits);
  }

  lemma MinusIsNoDigit(digits: string)
    ensures var s := "-" + digits;
            s[0] == '-' && s[1..] == digits && !Digits(s) && s != "even" && s != "odd"
  {
    var s := "-" + digits;
    assert !IsDigit(s[0]);
    assert "even"[0] == 'e' && "odd"[0] == 'o';
  }

  lemma UnsignedDigits(digits: string)
    requires digits != "" && Digits(digits)
    ensures MatchUnsigned(Minus, digits) == Parsed(Signed(Minus, Value(digits)), NaN)
  {
    hide Value, TakeDigits, Digits;
    TakesAllDigits(digits, "");
    assert digits + "" == digits && digits[|digits|..] == "";
  }

  lemma ParsePositive(sign: Option<Sign>, digits: string)
    requires digits != "" && Digits(digits) && sign != Some(Minus)
    ensures Parse(OptionalSign(sign) + digits) == Parsed(0, Int(Value(digits)))
  {
    StripSigned(sign, digits);
    NoBlanksInDigits(digits);
    assert Strip(OptionalSign(sign) + digits) == digits by {
      assert MinusText(sign) + digits == digits;
    }
    DigitsAreNoWord(digits);
    MatchConstant(digits);
    hide Value, Match, Strip, Digits;
  }

  lemma DigitsAreNoWord(s: string)
    requires Digits(s)
    ensures s != "even" && s != "odd"
  {
    assert !IsDigit("even"[0]) && !IsDigit("odd"[0]);
  }

  lemma MatchConstant(digits: string)
    requires digits != "" && Digits(digits)
    ensures Match("0n+" + digits) == Parsed(0, Int(Value(digits)))
  {
    UnsignedMatched(Plus, "0", Some(Offset(Plus, "", digits)));
    ValueZero();
    ConstantText(digits);
    MatchUnsignedText("0n+" + digits);
    hide *;
  }

  lemma MatchUnsignedText(s: string)
    requires s != "" && s[0] != '-'
    ensures Match(s) == MatchUnsigned(Plus, s)
  {
  }

  lemma ConstantText(digits: string)
    ensures "0" + "n" + OffsetText(Some(Offset(Plus, "", digits))) == "0n+" + digits
    ensures ("0n+" + digits)[0] != '-' && Signed(Plus, 0) == 0
    ensures "0" != "" && Signed(Plus, Value("0")) == Value("0")
    ensures forall n :: Signed(Plus, n) == n
  {
  }

  lemma ValueZero()
    ensures Value("0") == 0
  {
    assert "0"[..0] == "";
  }

  // ---- the arithmetic

  lemma RemainderIsZero(a: int, b: int)
    requires b != 0
    ensures Remainder(a, b) == 0 && QuotientNotNegative(a, b) <==> exists n: nat :: a == b * n
  {
    var p, q := if a < 0 then -a else a, if b < 0 then -b else b;
    if Remainder(a, b) == 0 && QuotientNotNegative(a, b) {
      var n := p / q;
      assert p == q * n;
      assert a == b * n;
    }
    if n: nat :| a == b * n {
      assert p == q * n;
      MultipleHasNoRemainder(q, n);
    }
  }

  lemma MultipleHasNoRemainder(q: nat, n: nat)
    requires q > 0
    ensures (q * n) % q == 0
  {
    var m := q * n;
    var k, r := m / q, m % q;
    assert m == q * k + r;
    assert q * (n - k) == r;
    if n - k >= 1 {
      NotLess(q, n - k);
    } else if n - k <= -1 {
      assert q * (k - n) == -(q * (n - k));
      NotLess(q, k - n);
    }
  }

  lemma NotLess(q: nat, x: int)
    requires x >= 1
    ensures q * x >= q
  {
    assert q * x == q * (x - 1) + q;
    assert q * (x - 1) >= 0;
  }

  // For every pair of numbers, the test is the meaning.
  lemma TestIsMeaning(a: int, b: int, index: nat)
    requires index >= 1
    ensures Test(Parsed(a, Int(b)), index) <==> Represents(a, b, index)
  {
    if a == 1 && b == 0 {
      assert index == a * index + b;
    } else if a == 0 {
      assert forall n: nat :: a * n == 0;
      assert index == b ==> index == a * 0 + b;
    } else {
      RemainderIsZero(index - b, a);
      assert forall n: nat :: index - b == a * n <==> index == a * n + b;
    }
  }

  // For every accepted formula text and every index, the test answers true exactly if the
  // index is a * n + b for some n >= 0, with a and b as the formula says.
  lemma NthChildIsRight(f: Formula, index: nat)
    requires Accepted(f) && index >= 1
    ensures Test(Parse(Text(f)), index) <==> Represents(Coefficient(f), Constant(f), index)
  {
    match f
    case Even =>
      ParseWords();
      TestIsMeaning(2, 0, index);
    case Odd =>
      ParseWords();
      TestIsMeaning(2, 1, index);
    case Integer(sign, digits) =>
      if sign == Some(Minus) {
        ParseNegative(digits);
        assert forall n: nat :: 0 * n == 0;
      } else {
        ParsePositive(sign, digits);
        TestIsMeaning(0, Value(digits), index);
      }
    case Linear(_, _, _, _) =>
      ParseLinear(f);
      TestIsMeaning(Coefficient(f), Constant(f), index);
  }

  lemma ParseWords()
    ensures Parse("even") == Parsed(2, Int(0)) && Parse("odd") == Parsed(2, Int(1))
  {
    assert Strip("even") == "even" by {
      assert "even"[1..] == "ven" && "ven"[1..] == "en" && "en"[1..] == "n" && "n"[1..] == "";
    }
    assert Strip("odd") == "odd" by {
      assert "odd"[1..] == "dd" && "dd"[1..] == "d" && "d"[1..] == "";
    }
    MatchWords();
    hide Strip, Match;
  }

  lemma MatchWords()
    ensures Match("2n") == Parsed(2, Int(0)) && Match("2n+1") == Parsed(2, Int(1))
  {
    UnsignedMatched(Plus, "2", None);
    UnsignedMatched(Plus, "2", Some(Offset(Plus, "", "1")));
    assert Value("2") == 2 && Value("1") == 1 by {
      assert "2"[..0] == "" && "1"[..0] == "";
    }
    hide MatchUnsigned, Value;
    assert "2" + "n" + OffsetText(None) == "2n";
    assert "2" + "n" + OffsetText(Some(Offset(Plus, "", "1"))) == "2n+1";
  }
}
