/** Event namespaces. A regular expression over two sorted, dot-joined lists stands in for
    multiset inclusion: an event reaches a handler if each of its namespaces is among the
    handler's, as many times as the event has it. */
module Namespaces {

  // ---- regular expressions, as far as they are needed (section 15.10 of ECMAScript 5.1)

  datatype Re =
    | Start                    // ^
    | End                      // $
    | Char(c: char)
    | AnyChar                  // . , which is no line terminator
    | Star(r: Re)
    | Alt(left: Re, right: Re)
    | Cat(first: Re, second: Re)
    | Empty

  predicate LineTerminator(c: char) {
    c == '\n' || c == '\r' || c == '\U{2028}' || c == '\U{2029}'
  }

  predicate NoTerminator(s: string) {
    forall i :: 0 <= i < |s| ==> !LineTerminator(s[i])
  }

  // re matches s from position i up to position j.
  predicate Match(re: Re, s: string, i: nat, j: nat)
    requires i <= |s| && j <= |s|
    decreases re, j - i
  {
    match re
    case Start => i == j == 0
    case End => i == j == |s|
    case Char(c) => j == i + 1 && s[i] == c
    case AnyChar => j == i + 1 && !LineTerminator(s[i])
    case Star(r) => i == j || exists k :: i < k <= j && Match(r, s, i, k) && Match(re, s, k, j)
    case Alt(left, right) => Match(left, s, i, j) || Match(right, s, i, j)
    case Cat(first, second) => exists k :: i <= k <= j && Match(first, s, i, k) && Match(second, s, k, j)
    case Empty => i == j
  }

  // RegExp.prototype.test
  predicate Test(re: Re, s: string) {
    exists i, j :: 0 <= i <= |s| && 0 <= j <= |s| && Match(re, s, i, j)
  }

  function Literal(t: string): Re {
    if t == "" then Empty else Cat(Char(t[0]), Literal(t[1..]))
  }

  // "\\.(?:.*\\.)?"
  function Separator(): Re {
    Cat(Char('.'), Alt(Cat(Star(AnyChar), Char('.')), Empty))
  }

  function JoinedBy(parts: seq<string>): Re
    requires parts != []
  {
    if |parts| == 1 then Literal(parts[0]) else Cat(Literal(parts[0]), Cat(Separator(), JoinedBy(parts[1..])))
  }

  // (^|\\.)
  const Lead := Alt(Start, Char('.'))

  // (\\.|$)
  const Stop := Alt(Char('.'), End)

  // "(^|\\.)" + namespaces.join( "\\.(?:.*\\.)?" ) + "(\\.|$)"
  function Pattern(namespaces: seq<string>): Re
    requires namespaces != []
  {
    Cat(Lead, Cat(JoinedBy(namespaces), Stop))
  }

  // namespaces.join( "." )
  function Join(parts: seq<string>): string {
    if parts == [] then "" else if |parts| == 1 then parts[0] else parts[0] + "." + Join(parts[1..])
  }

  // A namespace: not empty, without dots.
  predicate Name(t: string) {
    t != "" && forall i :: 0 <= i < |t| ==> t[i] != '.'
  }

  predicate Names(parts: seq<string>) {
    forall i :: 0 <= i < |parts| ==> Name(parts[i])
  }

  // The names of a handler come from an expression that does not match across line terminators.
  // Those of a triggered event are only split at dots.
  predicate OneLine(names: seq<string>) {
    forall i :: 0 <= i < |names| ==> NoTerminator(names[i])
  }

  // The names of an event go into the pattern as they are, so they stand for themselves only
  // if no character of theirs is special in an expression (section 15.10.1 of ECMAScript 5.1).
  predicate Plain(t: string) {
    forall i :: 0 <= i < |t| ==> t[i] !in "^$\\.*+?()[]{}|"
  }

  predicate PlainNames(parts: seq<string>) {
    forall i :: 0 <= i < |parts| ==> Name(parts[i]) && Plain(parts[i])
  }

  // ---- what the pattern matches, in terms of the text that is left

  // The joined parts and a final dot or end match at the beginning of t.
  ghost predicate Begins(parts: seq<string>, t: string)
    requires parts != []
    decreases |parts|, 0
  {
    parts[0] <= t &&
    var after := t[|parts[0]|..];
    if |parts| == 1 then after == "" || after[0] == '.'
    else after != "" && after[0] == '.' && Continues(parts[1..], after[1..])
  }

  ghost predicate Continues(parts: seq<string>, t: string)
    requires parts != []
    decreases |parts|, 1
  {
    Begins(parts, t) ||
    exists k :: 0 <= k < |t| && t[k] == '.' && NoTerminator(t[..k]) && Begins(parts, t[k + 1..])
  }

  lemma CatSplits(first: Re, second: Re, s: string, i: nat, j: nat) returns (k: nat)
    requires i <= |s| && j <= |s| && Match(Cat(first, second), s, i, j)
    ensures i <= k <= j && Match(first, s, i, k) && Match(second, s, k, j)
  {
    k :| i <= k <= j && Match(first, s, i, k) && Match(second, s, k, j);
  }

  lemma CatJoins(first: Re, second: Re, s: string, i: nat, k: nat, j: nat)
    requires i <= k <= j <= |s| && Match(first, s, i, k) && Match(second, s, k, j)
    ensures Match(Cat(first, second), s, i, j)
  {
  }

  lemma {:induction false} LiteralMatches(t: string, s: string, i: nat, j: nat)
    requires i <= |s| && j <= |s|
    ensures Match(Literal(t), s, i, j) <==> j == i + |t| && s[i..j] == t
    decreases |t|
  {
    if t != "" {
      var first, rest := Char(t[0]), Literal(t[1..]);
      if Match(Cat(first, rest), s, i, j) {
        var k := CatSplits(first, rest, s, i, j);
        LiteralMatches(t[1..], s, k, j);
        assert s[i..j] == [s[i]] + s[i + 1..j];
      }
      if j == i + |t| && s[i..j] == t {
        assert s[i + 1..j] == t[1..];
        assert s[i] == s[i..j][0];
        LiteralMatches(t[1..], s, i + 1, j);
        CatJoins(first, rest, s, i, i + 1, j);
      }
    }
  }

  lemma {:induction false} AnyStringMatches(s: string, i: nat, j: nat)
    requires i <= |s| && j <= |s|
    ensures Match(Star(AnyChar), s, i, j) <==> i <= j && NoTerminator(s[i..j])
    decreases j - i
  {
    if i < j {
      assert s[i..j] == [s[i]] + s[i + 1..j];
      AnyStringMatches(s, i + 1, j);
      if Match(Star(AnyChar), s, i, j) {
        StarSplits(s, i, j);
      }
      if NoTerminator(s[i..j]) {
        assert s[i] == s[i..j][0];
        NoTerminatorTail(s[i..j]);
        assert s[i..j][1..] == s[i + 1..j];
        assert Match(AnyChar, s, i, i + 1);
      }
    }
  }

  lemma NoTerminatorTail(t: string)
    requires t != ""
    ensures NoTerminator(t) <==> !LineTerminator(t[0]) && NoTerminator(t[1..])
  {
    if !LineTerminator(t[0]) && NoTerminator(t[1..]) {
      assert forall m :: 0 < m < |t| ==> t[m] == t[1..][m - 1];
    }
  }

  lemma StarSplits(s: string, i: nat, j: nat)
    requires i < j <= |s| && Match(Star(AnyChar), s, i, j)
    ensures !LineTerminator(s[i]) && Match(Star(AnyChar), s, i + 1, j)
  {
    var k :| i < k <= j && Match(AnyChar, s, i, k) && Match(Star(AnyChar), s, k, j);
  }

  // The separator goes over one dot, or over anything up to a later dot.
  ghost predicate Separates(s: string, i: int, j: int) {
    0 <= i < j <= |s| && s[i] == '.' && (j == i + 1 || (s[j - 1] == '.' && NoTerminator(s[i + 1..j - 1])))
  }

  lemma SeparatorMatches(s: string, i: nat, j: nat)
    requires i <= |s| && j <= |s|
    ensures Match(Separator(), s, i, j) <==> Separates(s, i, j)
  {
    var dots := Cat(Star(AnyChar), Char('.'));
    var tail := Alt(dots, Empty);
    if Match(Separator(), s, i, j) {
      var k := CatSplits(Char('.'), tail, s, i, j);
      if Match(dots, s, k, j) {
        var m := CatSplits(Star(AnyChar), Char('.'), s, k, j);
        AnyStringMatches(s, k, m);
      }
    }
    if Separates(s, i, j) {
      if j > i + 1 {
        AnyStringMatches(s, i + 1, j - 1);
        CatJoins(Star(AnyChar), Char('.'), s, i + 1, j - 1, j);
      }
      CatJoins(Char('.'), tail, s, i, i + 1, j);
    }
  }

  predicate Stops(s: string, k: int) {
    k == |s| || (0 <= k < |s| && s[k] == '.')
  }

  lemma StopMatched(s: string, k: nat, j: nat)
    requires k <= |s| && j <= |s| && Match(Stop, s, k, j)
    ensures Stops(s, k) && k <= j
  {
    assert Match(Char('.'), s, k, j) || Match(End, s, k, j);
  }

  lemma StopMatches(s: string, k: nat) returns (j: nat)
    requires k <= |s| && Stops(s, k)
    ensures k <= j <= |s| && Match(Stop, s, k, j)
  {
    j := if k == |s| then k else k + 1;
    assert Match(Char('.'), s, k, j) || Match(End, s, k, j);
  }

  lemma LeadMatches(s: string, i: nat, m: nat)
    requires i <= |s| && m <= |s|
    ensures Match(Lead, s, i, m) <==> (i == 0 && m == 0) || (m == i + 1 && s[i] == '.')
  {
    assert Match(Lead, s, i, m) <==> Match(Start, s, i, m) || Match(Char('.'), s, i, m);
  }

  lemma {:induction false} JoinedBegins(parts: seq<string>, s: string, i: nat, k: nat)
    requires parts != [] && i <= |s| && k <= |s| && Match(JoinedBy(parts), s, i, k) && Stops(s, k)
    ensures Begins(parts, s[i..])
    decreases |parts|
  {
    if |parts| == 1 {
      LiteralMatches(parts[0], s, i, k);
    } else {
      var rest := JoinedBy(parts[1..]);
      var e := CatSplits(Literal(parts[0]), Cat(Separator(), rest), s, i, k);
      LiteralMatches(parts[0], s, i, e);
      var m := CatSplits(Separator(), rest, s, e, k);
      SeparatorMatches(s, e, m);
      JoinedBegins(parts[1..], s, m, k);
      assert s[i..][|parts[0]|..] == s[e..];
      BeginsAfter(parts[1..], s, e, m);
    }
  }

  lemma BeginsAfter(parts: seq<string>, s: string, e: nat, m: nat)
    requires parts != [] && m <= |s| && Separates(s, e, m) && Begins(parts, s[m..])
    ensures s[e..] != "" && s[e..][0] == '.' && Continues(parts, s[e..][1..])
  {
    var t := s[e..][1..];
    assert t == s[e + 1..];
    if m > e + 1 {
      var k := m - e - 2;
      assert t[k + 1..] == s[m..] && t[k] == s[m - 1] && t[..k] == s[e + 1..m - 1];
    }
  }

  lemma {:induction false} BeginsJoined(parts: seq<string>, s: string, i: nat) returns (k: nat)
    requires parts != [] && i <= |s| && Begins(parts, s[i..])
    ensures k <= |s| && Match(JoinedBy(parts), s, i, k) && Stops(s, k)
    decreases |parts|
  {
    var e := i + |parts[0]|;
    assert s[i..e] == parts[0];
    assert s[i..][|parts[0]|..] == s[e..];
    LiteralMatches(parts[0], s, i, e);
    if |parts| == 1 {
      k := e;
    } else {
      var rest := JoinedBy(parts[1..]);
      var m := AfterBegins(parts[1..], s, e);
      SeparatorMatches(s, e, m);
      k := BeginsJoined(parts[1..], s, m);
      JoinedForward(rest, s, m, k);
      CatJoins(Separator(), rest, s, e, m, k);
      CatJoins(Literal(parts[0]), Cat(Separator(), rest), s, i, e, k);
    }
  }

  lemma JoinedForward(re: Re, s: string, i: nat, j: nat)
    requires i <= |s| && j <= |s| && Match(re, s, i, j)
    ensures i <= j
  {
    match re
    case Star(r) => if i != j { var k :| i < k <= j && Match(r, s, i, k) && Match(re, s, k, j); }
    case Alt(left, right) =>
      if Match(left, s, i, j) { JoinedForward(left, s, i, j); } else { JoinedForward(right, s, i, j); }
    case _ =>
  }

  lemma TextAfter(s: string, e: nat, k: nat)
    requires e < |s| && k < |s[e..][1..]|
    ensures var t := s[e..][1..];
            t[k + 1..] == s[e + k + 2..] && t[k] == s[e + k + 1] && t[..k] == s[e + 1..e + k + 1]
  {
    assert s[e..][1..] == s[e + 1..];
  }

  lemma AfterBegins(parts: seq<string>, s: string, e: nat) returns (m: nat)
    requires parts != [] && e < |s| && s[e] == '.' && Continues(parts, s[e..][1..])
    ensures m <= |s| && Separates(s, e, m) && Begins(parts, s[m..])
  {
    hide Begins, NoTerminator;
    var t := s[e..][1..];
    assert t == s[e + 1..];
    if Begins(parts, t) {
      m := e + 1;
    } else {
      var k :| 0 <= k < |t| && t[k] == '.' && NoTerminator(t[..k]) && Begins(parts, t[k + 1..]);
      m := e + k + 2;
      TextAfter(s, e, k);
    }
  }

  // The pattern is found where the text begins, or after a dot.
  ghost predicate FoundAt(parts: seq<string>, s: string, i: int)
    requires parts != []
  {
    0 <= i <= |s| && (i == 0 || s[i - 1] == '.') && Begins(parts, s[i..])
  }

  lemma PatternFound(parts: seq<string>, s: string, i: nat, j: nat) returns (m: nat)
    requires parts != [] && i <= |s| && j <= |s| && Match(Pattern(parts), s, i, j)
    ensures FoundAt(parts, s, m)
  {
    var body := Cat(JoinedBy(parts), Stop);
    m := CatSplits(Lead, body, s, i, j);
    LeadMatches(s, i, m);
    var k := CatSplits(JoinedBy(parts), Stop, s, m, j);
    StopMatched(s, k, j);
    JoinedBegins(parts, s, m, k);
  }

  lemma FoundPattern(parts: seq<string>, s: string, m: nat) returns (i: nat, j: nat)
    requires parts != [] && FoundAt(parts, s, m)
    ensures i <= |s| && j <= |s| && Match(Pattern(parts), s, i, j)
  {
    var body := Cat(JoinedBy(parts), Stop);
    var k := BeginsJoined(parts, s, m);
    JoinedForward(JoinedBy(parts), s, m, k);
    j := StopMatches(s, k);
    CatJoins(JoinedBy(parts), Stop, s, m, k, j);
    i := if m == 0 then 0 else m - 1;
    LeadMatches(s, i, m);
    CatJoins(Lead, body, s, i, m, j);
  }

  lemma PatternFinds(parts: seq<string>, s: string)
    requires parts != []
    ensures Test(Pattern(parts), s) <==> exists i :: FoundAt(parts, s, i)
  {
    if Test(Pattern(parts), s) {
      var i, j :| 0 <= i <= |s| && 0 <= j <= |s| && Match(Pattern(parts), s, i, j);
      var m := PatternFound(parts, s, i, j);
    }
    if m :| FoundAt(parts, s, m) {
      var i, j := FoundPattern(parts, s, m);
    }
  }

  // ---- on a joined list, positions after a dot are where its parts begin

  lemma JoinDots(names: seq<string>, k: nat)
    requires Names(names) && k < |Join(names)| && Join(names)[k] == '.'
    ensures exists c :: 0 < c < |names| && Join(names)[k + 1..] == Join(names[c..])
    decreases |names|
  {
    var n := |names[0]|;
    if |names| > 1 {
      var tail := Join(names[1..]);
      assert Join(names) == names[0] + "." + tail;
      if k == n {
        assert Join(names)[k + 1..] == Join(names[1..]);
      } else {
        assert k > n;
        assert Join(names)[k] == tail[k - n - 1];
        JoinDots(names[1..], k - n - 1);
        var c :| 0 < c < |names[1..]| && tail[k - n - 1 + 1..] == Join(names[1..][c..]);
        assert names[1..][c..] == names[c + 1..];
        assert Join(names)[k + 1..] == tail[k - n..];
      }
    }
  }

  lemma DotBefore(names: seq<string>, c: nat) returns (k: nat)
    requires Names(names) && OneLine(names) && 0 < c < |names|
    ensures k < |Join(names)| && Join(names)[k] == '.' && Join(names)[k + 1..] == Join(names[c..])
    ensures NoTerminator(Join(names)[..k])
    decreases |names|
  {
    var n := |names[0]|;
    var tail := Join(names[1..]);
    assert Join(names) == names[0] + "." + tail;
    if c == 1 {
      k := n;
      assert Join(names)[..n] == names[0];
    } else {
      var m := DotBefore(names[1..], c - 1);
      k := n + 1 + m;
      assert names[1..][c - 1..] == names[c..];
      assert Join(names)[..k] == names[0] + "." + tail[..m];
    }
  }

  // The first part of the pattern is a whole name.
  lemma WholeName(name: string, names: seq<string>)
    requires Name(name) && Names(names) && names != []
    ensures name <= Join(names) && Stops(Join(names), |name|) <==> name == names[0]
  {
    var j, h := Join(names), names[0];
    if |names| > 1 {
      assert j == h + "." + Join(names[1..]);
    }
    if name <= j && Stops(j, |name|) {
      assert forall n :: 0 <= n < |h| ==> j[n] == h[n];
      assert |h| < |j| ==> j[|h|] == '.';
      assert forall n :: 0 <= n < |name| ==> j[n] == name[n];
      assert |name| == |h|;
      assert j[..|name|] == j[..|h|];
    }
  }

  // ---- parts of the pattern are found, in order, among the names

  ghost predicate Subsequence(parts: seq<string>, names: seq<string>) {
    parts == [] ||
    (names != [] &&
     ((parts[0] == names[0] && Subsequence(parts[1..], names[1..])) || Subsequence(parts, names[1..])))
  }

  lemma SubsequenceFrom(parts: seq<string>, names: seq<string>, c: nat)
    requires c <= |names| && Subsequence(parts, names[c..])
    ensures Subsequence(parts, names)
    decreases c
  {
    if c > 0 {
      assert names[c - 1..][1..] == names[c..];
      SubsequenceFrom(parts, names, c - 1);
    } else {
      assert names[0..] == names;
    }
  }

  // Where the first part of a subsequence is.
  lemma SubsequenceStart(parts: seq<string>, names: seq<string>) returns (c: nat)
    requires parts != [] && Subsequence(parts, names)
    ensures c < |names| && names[c] == parts[0] && Subsequence(parts[1..], names[c + 1..])
  {
    if parts[0] == names[0] && Subsequence(parts[1..], names[1..]) {
      c := 0;
    } else {
      var d := SubsequenceStart(parts, names[1..]);
      c := d + 1;
      assert names[1..][d + 1..] == names[c + 1..];
    }
  }

  lemma {:induction false} BeginsIsSubsequence(parts: seq<string>, names: seq<string>)
    requires parts != [] && names != [] && Names(parts) && Names(names) && OneLine(names)
    ensures Begins(parts, Join(names)) <==> parts[0] == names[0] && Subsequence(parts[1..], names[1..])
    decreases |parts|, 0
  {
    WholeName(parts[0], names);
    var n := |parts[0]|;
    if |parts| > 1 && parts[0] == names[0] {
      if |names| == 1 {
        assert Join(names)[n..] == "";
      } else {
        var tail := Join(names[1..]);
        assert Join(names) == names[0] + "." + tail;
        assert Join(names)[n..] == "." + tail;
        assert ("." + tail)[1..] == tail;
        ContinuesIsSubsequence(parts[1..], names[1..]);
      }
    }
  }

  lemma {:induction false} ContinuesIsSubsequence(parts: seq<string>, names: seq<string>)
    requires parts != [] && names != [] && Names(parts) && Names(names) && OneLine(names)
    ensures Continues(parts, Join(names)) <==> Subsequence(parts, names)
    decreases |parts|, 1
  {
    var t := Join(names);
    if Continues(parts, t) {
      if Begins(parts, t) {
        BeginsIsSubsequence(parts, names);
      } else {
        var k :| 0 <= k < |t| && t[k] == '.' && NoTerminator(t[..k]) && Begins(parts, t[k + 1..]);
        JoinDots(names, k);
        var c :| 0 < c < |names| && t[k + 1..] == Join(names[c..]);
        BeginsIsSubsequence(parts, names[c..]);
        SubsequenceFrom(parts, names, c);
      }
    }
    if Subsequence(parts, names) {
      var c := SubsequenceStart(parts, names);
      assert names[c..][1..] == names[c + 1..];
      BeginsIsSubsequence(parts, names[c..]);
      if c == 0 {
        assert names[0..] == names;
      } else {
        var k := DotBefore(names, c);
      }
    }
  }

  lemma PatternIsSubsequence(parts: seq<string>, names: seq<string>)
    requires parts != [] && Names(parts) && Names(names) && OneLine(names)
    ensures Test(Pattern(parts), Join(names)) <==> Subsequence(parts, names)
  {
    var t := Join(names);
    PatternFinds(parts, t);
    if i :| FoundAt(parts, t, i) {
      if names == [] {
      } else if i == 0 {
        assert t[0..] == t;
        BeginsIsSubsequence(parts, names);
      } else {
        JoinDots(names, i - 1);
        var c :| 0 < c < |names| && t[i - 1 + 1..] == Join(names[c..]);
        BeginsIsSubsequence(parts, names[c..]);
        SubsequenceFrom(parts, names, c);
      }
    }
    if Subsequence(parts, names) {
      var c := SubsequenceStart(parts, names);
      assert names[c..][1..] == names[c + 1..];
      BeginsIsSubsequence(parts, names[c..]);
      if c == 0 {
        assert names[0..] == names && t[0..] == t;
        assert FoundAt(parts, t, 0);
      } else {
        var k := DotBefore(names, c);
        assert FoundAt(parts, t, k + 1);
      }
    }
  }

  // ---- sorting, by the order of characters

  predicate Before(s: string, t: string) {
    s == "" || (t != "" && (s[0] < t[0] || (s[0] == t[0] && Before(s[1..], t[1..]))))
  }

  lemma {:induction false} BeforeIsTotal(s: string, t: string)
    ensures Before(s, t) || Before(t, s)
    decreases |s|
  {
    if s != "" && t != "" {
      BeforeIsTotal(s[1..], t[1..]);
    }
  }

  lemma {:induction false} BeforeIsAntisymmetric(s: string, t: string)
    requires Before(s, t) && Before(t, s)
    ensures s == t
    decreases |s|
  {
    if s != "" {
      BeforeIsAntisymmetric(s[1..], t[1..]);
      assert s == [s[0]] + s[1..] && t == [t[0]] + t[1..];
    }
  }

  lemma {:induction false} BeforeIsTransitive(s: string, t: string, u: string)
    requires Before(s, t) && Before(t, u)
    ensures Before(s, u)
    decreases |s|
  {
    if s != "" && s[0] == t[0] && t[0] == u[0] {
      BeforeIsTransitive(s[1..], t[1..], u[1..]);
    }
  }

  predicate Sorted(names: seq<string>) {
    forall i, j :: 0 <= i < j < |names| ==> Before(names[i], names[j])
  }

  // What Array.prototype.sort may return for names.
  predicate SortedFrom(sorted: seq<string>, names: seq<string>) {
    Sorted(sorted) && multiset(sorted) == multiset(names)
  }

  lemma FirstOfMultiset(names: seq<string>)
    requires names != []
    ensures multiset(names) == multiset{names[0]} + multiset(names[1..])
  {
    assert names == [names[0]] + names[1..];
  }

  lemma RestIsIncluded(name: string, small: multiset<string>, large: multiset<string>)
    requires multiset{name} + small <= multiset{name} + large
    ensures small <= large
  {
    forall n ensures small[n] <= large[n] {
      assert (multiset{name} + small)[n] <= (multiset{name} + large)[n];
    }
  }

  lemma {:induction false} SubsequenceIsIncluded(parts: seq<string>, names: seq<string>)
    requires Subsequence(parts, names)
    ensures multiset(parts) <= multiset(names)
    decreases |names|
  {
    if parts != [] {
      FirstOfMultiset(parts);
      FirstOfMultiset(names);
      if parts[0] == names[0] && Subsequence(parts[1..], names[1..]) {
        SubsequenceIsIncluded(parts[1..], names[1..]);
      } else {
        SubsequenceIsIncluded(parts, names[1..]);
      }
    }
  }

  // A sorted list whose smallest name is not the first of parts can do without that name.
  lemma SmallestIsSkipped(parts: seq<string>, names: seq<string>)
    requires Sorted(parts) && Sorted(names) && parts != [] && names != []
    requires multiset(parts) <= multiset(names) && parts[0] != names[0]
    ensures multiset(parts) <= multiset(names[1..])
  {
    FirstOfMultiset(names);
    assert parts[0] in multiset(parts);
    var k :| 0 <= k < |names| && names[k] == parts[0];
    assert Before(names[0], parts[0]);
    if names[0] in multiset(parts) {
      var m :| 0 <= m < |parts| && parts[m] == names[0];
      assert Before(parts[0], names[0]);
      BeforeIsAntisymmetric(parts[0], names[0]);
    }
  }

  lemma {:induction false} IncludedIsSubsequence(parts: seq<string>, names: seq<string>)
    requires Sorted(parts) && Sorted(names) && multiset(parts) <= multiset(names)
    ensures Subsequence(parts, names)
    decreases |names|
  {
    if parts != [] {
      assert parts[0] in multiset(parts);
      FirstOfMultiset(parts);
      FirstOfMultiset(names);
      if parts[0] == names[0] {
        RestIsIncluded(parts[0], multiset(parts[1..]), multiset(names[1..]));
        IncludedIsSubsequence(parts[1..], names[1..]);
      } else {
        SmallestIsSkipped(parts, names);
        IncludedIsSubsequence(parts, names[1..]);
      }
    }
  }

  // The pattern made of the event's sorted namespaces is found in the handler's sorted and
  // joined ones exactly when the event's are contained in the handler's, with multiplicity.
  lemma PatternIsInclusion(event: seq<string>, handler: seq<string>, parts: seq<string>, names: seq<string>)
    requires event != [] && PlainNames(event) && Names(handler) && OneLine(handler)
    requires SortedFrom(parts, event) && SortedFrom(names, handler)
    ensures parts != []
    ensures Test(Pattern(parts), Join(names)) <==> multiset(event) <= multiset(handler)
  {
    hide Test, Pattern;
    assert event[0] in multiset(parts);
    SameNames(event, parts);
    SameNames(handler, names);
    PatternIsSubsequence(parts, names);
    if Subsequence(parts, names) {
      SubsequenceIsIncluded(parts, names);
    }
    if multiset(event) <= multiset(handler) {
      IncludedIsSubsequence(parts, names);
    }
  }

  lemma SameNames(names: seq<string>, sorted: seq<string>)
    requires Names(names) && multiset(sorted) == multiset(names)
    ensures Names(sorted) && (OneLine(names) ==> OneLine(sorted))
  {
    forall i | 0 <= i < |sorted| ensures Name(sorted[i]) && (OneLine(names) ==> NoTerminator(sorted[i])) {
      assert sorted[i] in multiset(sorted);
    }
  }

  // Without the sorting the pattern would miss namespaces: this is why both sides sort.
  lemma UnsortedMisses()
    ensures var event, handler := ["a", "b"], ["b", "a"];
            multiset(event) <= multiset(handler) && !Test(Pattern(event), Join(handler))
  {
    PatternIsSubsequence(["a", "b"], ["b", "a"]);
    assert !Subsequence(["a", "b"], ["a"]);
    assert !Subsequence(["b"], []);
    assert ["b", "a"][1..] == ["a"] && ["a"][1..] == [] && ["a", "b"][1..] == ["b"];
    assert ["a", "b"][0] != ["b", "a"][0] by { assert "a"[0] != "b"[0]; }
  }

  // ---- a sort that meets the description

  function Insert(name: string, names: seq<string>): (r: seq<string>)
    requires Sorted(names)
    ensures SortedFrom(r, [name] + names)
  {
    if names == [] then [name]
    else if Before(name, names[0]) then
      InsertFirst(name, names); [name] + names
    else
      InsertLater(name, names); [names[0]] + Insert(name, names[1..])
  }

  lemma InsertFirst(name: string, names: seq<string>)
    requires Sorted(names) && names != [] && Before(name, names[0])
    ensures Sorted([name] + names)
  {
    forall j | 0 < j < |names| ensures Before(name, names[j]) {
      BeforeIsTransitive(name, names[0], names[j]);
    }
  }

  lemma InsertLater(name: string, names: seq<string>)
    requires Sorted(names) && names != [] && !Before(name, names[0])
    ensures forall rest :: SortedFrom(rest, [name] + names[1..]) ==> SortedFrom([names[0]] + rest, [name] + names)
  {
    BeforeIsTotal(name, names[0]);
    forall rest | SortedFrom(rest, [name] + names[1..]) ensures SortedFrom([names[0]] + rest, [name] + names) {
      FirstOfMultiset(names);
      forall j | 0 <= j < |rest| ensures Before(names[0], rest[j]) {
        assert rest[j] in multiset(rest);
        assert rest[j] == name || rest[j] in names[1..];
      }
    }
  }

  function Sort(names: seq<string>): (r: seq<string>)
    ensures SortedFrom(r, names)
  {
    if names == [] then [] else
      assert names == [names[0]] + names[1..];
      Insert(names[0], Sort(names[1..]))
  }
}
