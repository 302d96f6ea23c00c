/** What a template means, and what running its program yields. */
module TemplateMeaning {
  import opened Options
  import opened HtmlEscape
  import opened TemplateText
  import opened Templates
  import P = TemplateProgram

  // ---- what a template means

  // The tags only show identifiers, to which the data object gives values.
  predicate Bound(body: string, data: map<string, P.Val>) {
    match P.Reference(body)
    case Some((name, n)) => n == |body| && name in data
    case None => false
  }

  predicate Plain(t: Template, data: map<string, P.Val>) {
    match t
    case Last(_) => true
    case Then(_, tag, rest) => tag.kind != EvaluateTag && Bound(tag.body, data) && Plain(rest, data)
  }

  // The text as it stands, with each tag replaced by what its identifier shows.
  function Interpret(t: Template, data: map<string, P.Val>): string
    requires Plain(t, data)
  {
    match t
    case Last(text) => text
    case Then(text, tag, rest) =>
      text + P.Shown(data[P.Reference(tag.body).value.0], tag.kind == EscapeTag) + Interpret(rest, data)
  }

  // ---- blanks and words end where a bracket follows

  lemma {:induction false} BlanksEnd(s: string, t: string)
    requires t != "" && !P.Blank(t[0])
    ensures P.Blanks(s + t) == P.Blanks(s)
    decreases |s|
  {
    if s == "" {
      assert s + t == t;
    } else {
      assert (s + t)[1..] == s[1..] + t;
      BlanksEnd(s[1..], t);
    }
  }

  lemma {:induction false} WordEnds(s: string, t: string)
    requires t != "" && !P.WordChar(t[0])
    ensures P.Word(s + t) == P.Word(s)
    decreases |s|
  {
    if s == "" {
      assert s + t == t;
    } else {
      assert (s + t)[1..] == s[1..] + t;
      WordEnds(s[1..], t);
    }
  }

  lemma ReferenceEnds(s: string, t: string)
    requires t != "" && t[0] == ')' && P.Reference(s).Some?
    ensures P.Reference(s + t) == P.Reference(s)
  {
    hide P.Blanks, P.Word;
    var b := P.Blanks(s);
    var w := P.Word(s[b..]);
    BlanksEnd(s, t);
    assert (s + t)[b..] == s[b..] + t;
    WordEnds(s[b..], t);
    assert (s + t)[b..b + w] == s[b..b + w];
    assert (s + t)[b + w..] == s[b + w..] + t;
    BlanksEnd(s[b + w..], t);
  }

  // ---- evaluating what was emitted

  // The term of a tag, without the quotes around it.
  function TermText(t: Tag): string {
    P.TAG_OPEN + t.body + P.NULL_TEST + if t.kind == EscapeTag then P.SHOW_ESCAPED else P.SHOW
  }

  lemma CodeIsTerm(t: Tag)
    requires t.kind != EvaluateTag
    ensures Code(t) == "'" + ("+\n" + (TermText(t) + ("+\n" + "'")))
  {
    assert "'+\n((__t=(" == "'" + "+\n" + P.TAG_OPEN;
    if t.kind == EscapeTag {
      assert "))==null?'':_.escape(__t))+\n'" == P.NULL_TEST + P.SHOW_ESCAPED + "+\n" + "'";
      RegroupTerm("'", "+\n", P.TAG_OPEN, t.body, P.NULL_TEST, P.SHOW_ESCAPED);
    } else {
      assert "))==null?'':__t)+\n'" == P.NULL_TEST + P.SHOW + "+\n" + "'";
      RegroupTerm("'", "+\n", P.TAG_OPEN, t.body, P.NULL_TEST, P.SHOW);
    }
  }

  lemma RegroupTerm(q: string, n: string, open: string, body: string, test: string, show: string)
    ensures (q + n + open) + body + (test + show + n + q) == q + (n + ((open + body + test + show) + (n + q)))
  {
  }

  lemma BeginsWith(t: string, rest: string)
    ensures P.Begins(t + rest, t) && (t + rest)[|t|..] == rest
  {
  }

  // What a tag does: its value goes to __t, which is the data object's if it has that name.
  function Stored(data: map<string, P.Val>, v: P.Val): map<string, P.Val> {
    if "__t" in data then data["__t" := v] else data
  }

  function ValueOf(t: Tag, data: map<string, P.Val>): P.Val
    requires Bound(t.body, data)
  {
    data[P.Reference(t.body).value.0]
  }

  // An escape tag with something to show, while the data object hides what `_` names.
  predicate Hidden(t: Tag, v: P.Val, data: map<string, P.Val>) {
    t.kind == EscapeTag && v.Text? && "_" in data
  }

  lemma TagShows(t: Tag, rest: string, st: P.State) returns (after: P.State)
    requires t.kind != EvaluateTag && Bound(t.body, st.data)
    ensures var v := ValueOf(t, st.data);
            && after.data == Stored(st.data, v) && after.p == st.p
            && P.Term(TermText(t) + rest, st) ==
               if Hidden(t, v, st.data) then None else Some(P.Outcome(P.Shown(v, t.kind == EscapeTag), after, rest))
  {
    hide P.Reference, P.Shown;
    var v := ValueOf(t, st.data);
    after := P.Assign("__t", v, st);
    var show := (if t.kind == EscapeTag then P.SHOW_ESCAPED else P.SHOW) + rest;
    var test := P.NULL_TEST + show;
    var inner := t.body + test;
    assert TermText(t) + rest == P.TAG_OPEN + inner;
    BeginsWith(P.TAG_OPEN, inner);
    ReferenceEnds(t.body, test);
    assert inner[|t.body|..] == test;
    BeginsWith(P.NULL_TEST, show);
    ShowTermShows(t.kind == EscapeTag, rest, v, after);
    assert (P.TAG_OPEN + inner)[0] == '(';
  }

  lemma ShowTermShows(escaped: bool, rest: string, v: P.Val, st: P.State)
    requires P.Lookup("__t", st) == Some(v)
    ensures P.ShowTerm((if escaped then P.SHOW_ESCAPED else P.SHOW) + rest, v, st) ==
            if escaped && v.Text? && "_" in st.data then None
            else Some(P.Outcome(P.Shown(v, escaped), st, rest))
  {
    var s := (if escaped then P.SHOW_ESCAPED else P.SHOW) + rest;
    BeginsWith(if escaped then P.SHOW_ESCAPED else P.SHOW, rest);
    if escaped {
      assert s[1] == '.' && P.SHOW[1] == '_';
    }
  }

  // One term of a sum, and on to the next after a plus sign and a line feed.
  lemma SumGoesOn(s: string, sofar: string, st: P.State, value: string, after: P.State, next: string)
    requires next != "" && !P.Blank(next[0])
    requires P.Term(s, st) == Some(P.Outcome(value, after, "+\n" + next))
    ensures P.Sum(s, sofar, st) == P.Sum(next, sofar + value, after)
  {
    var rest := "+\n" + next;
    assert rest[1..] == "\n" + next;
    assert rest[1..][1..] == next;
    assert P.Blanks(next) == 0;
    assert P.Blanks(rest[1..]) == 1;
    assert rest[2..] == next;
  }

  lemma LiteralTerm(text: string, rest: string, st: P.State)
    ensures P.Term("'" + (Quote(text) + "'" + rest), st) == Some(P.Outcome(text, st, rest))
  {
    LiteralIsText(text, rest);
    var s := "'" + (Quote(text) + "'" + rest);
    assert s[0] == '\'' && s[1..] == Quote(text) + "'" + rest;
  }

  lemma StillPlain(t: Template, data: map<string, P.Val>, other: map<string, P.Val>)
    requires Plain(t, data) && data.Keys == other.Keys
    ensures Plain(t, other)
  {
  }

  // What the tags show when the program runs.
  function Values(t: Template, data: map<string, P.Val>): Option<seq<string>>
    requires Plain(t, data)
  {
    match t
    case Last(_) => Some([])
    case Then(_, tag, rest) =>
      var v := ValueOf(tag, data);
      if Hidden(tag, v, data) then None
      else
        StillPlain(rest, data, Stored(data, v));
        match Values(rest, Stored(data, v))
        case None => None
        case Some(shown) => Some([P.Shown(v, tag.kind == EscapeTag)] + shown)
  }

  // The texts with what the tags show between them.
  function Weave(t: Template, shown: seq<string>): string {
    match t
    case Last(text) => text
    case Then(text, _, rest) => if shown == [] then text else text + shown[0] + Weave(rest, shown[1..])
  }

  // What is added up from the first quote of an emitted template to its last one.
  lemma {:induction false} SumIsWeave(t: Template, sofar: string, st: P.State, k: string) returns (after: P.State)
    requires Plain(t, st.data) && k != "" && k[0] != '+'
    ensures after.p == st.p
    ensures P.Sum("'" + (Emit(t) + "'" + k), sofar, st) ==
            match Values(t, st.data)
            case None => None
            case Some(shown) => Some(P.Outcome(sofar + Weave(t, shown), after, k))
    decreases t
  {
    hide P.Term, Quote, TermText, P.Reference, P.Shown, Code, P.Sum, Hidden;
    match t
    case Last(text) =>
      after := st;
      LiteralTerm(text, k, st);
      SumEnds("'" + (Quote(text) + "'" + k), sofar, st, text, st, k);
    case Then(text, tag, rest) =>
      var v := ValueOf(tag, st.data);
      var shown := P.Shown(v, tag.kind == EscapeTag);
      var last := "'" + (Emit(rest) + "'" + k);
      var middle := TermText(tag) + ("+\n" + last);
      var all := "'" + (Emit(t) + "'" + k);
      Emitted(text, tag, rest, k);
      assert all == "'" + (Quote(text) + "'" + ("+\n" + middle));
      LiteralTerm(text, "+\n" + middle, st);
      TermBegins(tag, "+\n" + last);
      SumGoesOn(all, sofar, st, text, st, middle);
      after := TagShows(tag, "+\n" + last, st);
      if Hidden(tag, v, st.data) {
        SumFails(middle, sofar + text, st);
      } else {
        assert last[0] == '\'';
        SumGoesOn(middle, sofar + text, st, shown, after, last);
        StillPlain(rest, st.data, after.data);
        after := SumIsWeave(rest, sofar + text + shown, after, k);
        WeaveOn(sofar, text, tag, rest, shown, Values(rest, Stored(st.data, v)));
      }
  }

  lemma WeaveOn(sofar: string, text: string, tag: Tag, rest: Template, shown: string, more: Option<seq<string>>)
    ensures more.Some? ==> sofar + text + shown + Weave(rest, more.value) ==
                           sofar + Weave(Then(text, tag, rest), [shown] + more.value)
  {
    if more.Some? { assert ([shown] + more.value)[1..] == more.value; }
  }

  lemma SumEnds(s: string, sofar: string, st: P.State, value: string, after: P.State, rest: string)
    requires rest != "" && rest[0] != '+' && P.Term(s, st) == Some(P.Outcome(value, after, rest))
    ensures P.Sum(s, sofar, st) == Some(P.Outcome(sofar + value, after, rest))
  {
  }

  lemma SumFails(s: string, sofar: string, st: P.State)
    requires P.Term(s, st) == None
    ensures P.Sum(s, sofar, st) == None
  {
  }

  lemma TermBegins(tag: Tag, rest: string)
    ensures TermText(tag) + rest != "" && (TermText(tag) + rest)[0] == '('
  {
    assert TermText(tag)[0] == '(';
  }

  lemma Emitted(text: string, tag: Tag, rest: Template, k: string)
    requires tag.kind != EvaluateTag
    ensures "'" + (Emit(Then(text, tag, rest)) + "'" + k) ==
            "'" + (Quote(text) + "'" + ("+\n" + (TermText(tag) + ("+\n" + ("'" + (Emit(rest) + "'" + k))))))
  {
    hide Quote, TermText, Code;
    CodeIsTerm(tag);
  }

  // What running the program of a template yields, whatever the data are: the texts with what
  // the tags show, or nothing if the data object has the name of the accumulator; unless a tag
  // gets to an escape function that the data object hides.
  lemma RunIsWeave(t: Template, data: map<string, P.Val>)
    requires Plain(t, data)
    ensures P.Run(Program(t), data) ==
            match Values(t, data)
            case None => None
            case Some(shown) => Some(if "__p" in data then "" else Weave(t, shown))
  {
    hide Emit, Plain, P.Sum, Values;
    var sum := "'" + (Emit(t) + "'" + P.EPILOGUE);
    var head := P.PROLOGUE + P.APPEND;
    assert Program(t) == head + sum;
    BeginsWith(head, sum);
    var after := SumIsWeave(t, "", P.State(data, P.Nullish, ""), P.EPILOGUE);
    if Values(t, data).Some? {
      var woven := Weave(t, Values(t, data).value);
      assert "" + woven == woven;
    }
  }

  // ---- when that is what the template means

  function NameOf(t: Tag, data: map<string, P.Val>): string
    requires Bound(t.body, data)
  {
    P.Reference(t.body).value.0
  }

  // What the tags should show.
  function Expected(t: Template, data: map<string, P.Val>): seq<string>
    requires Plain(t, data)
  {
    match t
    case Last(_) => []
    case Then(_, tag, rest) => [P.Shown(ValueOf(tag, data), tag.kind == EscapeTag)] + Expected(rest, data)
  }

  lemma {:induction false} InterpretIsWeave(t: Template, data: map<string, P.Val>)
    requires Plain(t, data)
    ensures Interpret(t, data) == Weave(t, Expected(t, data))
    decreases t
  {
    match t
    case Last(_) =>
    case Then(text, tag, rest) =>
      InterpretIsWeave(rest, data);
      assert Expected(t, data)[1..] == Expected(rest, data);
  }

  // The data after tags of which `last` was the last value stored.
  function Current(data: map<string, P.Val>, last: Option<P.Val>): map<string, P.Val> {
    if last.Some? then Stored(data, last.value) else data
  }

  // No escape tag with something to show meets hidden escaping, and no tag that shows __t
  // comes after one that stored another text there.
  predicate Undisturbed(t: Template, data: map<string, P.Val>, last: Option<P.Val>)
    requires Plain(t, data)
  {
    match t
    case Last(_) => true
    case Then(_, tag, rest) =>
      var stale := NameOf(tag, data) == "__t" && last.Some?;
      && !Hidden(tag, if stale then last.value else ValueOf(tag, data), data)
      && (stale ==> P.Shown(last.value, false) == P.Shown(ValueOf(tag, data), false))
      && Undisturbed(rest, data, if stale then last else Some(ValueOf(tag, data)))
  }

  // Escaping keeps different texts different.
  lemma ShownAlike(v: P.Val, u: P.Val, escaped: bool)
    ensures P.Shown(v, escaped) == P.Shown(u, escaped) <==> P.Shown(v, false) == P.Shown(u, false)
  {
    var a, b := P.Shown(v, false), P.Shown(u, false);
    assert Escape("") == "";
    UnescapeEscape(a);
    UnescapeEscape(b);
  }

  lemma {:induction false} ValuesExactly(t: Template, data: map<string, P.Val>, last: Option<P.Val>)
    requires Plain(t, data) && Plain(t, Current(data, last))
    ensures Values(t, Current(data, last)) == Some(Expected(t, data)) <==> Undisturbed(t, data, last)
    decreases t
  {
    hide P.Shown, P.Reference, Hidden;
    match t
    case Last(_) =>
    case Then(_, tag, rest) =>
      var now := Current(data, last);
      var v := ValueOf(tag, now);
      var stale := NameOf(tag, data) == "__t" && last.Some?;
      assert v == if stale then last.value else ValueOf(tag, data);
      HiddenLikewise(tag, v, data, now);
      ShownAlike(v, ValueOf(tag, data), tag.kind == EscapeTag);
      var next := if stale then last else Some(ValueOf(tag, data));
      assert Stored(now, v) == Current(data, next);
      StillPlain(rest, data, Current(data, next));
      ValuesExactly(rest, data, next);
      if Values(rest, Stored(now, v)).Some? {
        HeadAndTail(P.Shown(v, tag.kind == EscapeTag), Values(rest, Stored(now, v)).value,
                    P.Shown(ValueOf(tag, data), tag.kind == EscapeTag), Expected(rest, data));
      }
  }

  lemma HiddenLikewise(t: Tag, v: P.Val, data: map<string, P.Val>, other: map<string, P.Val>)
    requires data.Keys == other.Keys
    ensures Hidden(t, v, data) == Hidden(t, v, other)
  {
  }

  lemma HeadAndTail(x: string, s: seq<string>, y: string, t: seq<string>)
    ensures [x] + s == [y] + t <==> x == y && s == t
  {
    assert ([x] + s)[0] == x && ([x] + s)[1..] == s && ([y] + t)[0] == y && ([y] + t)[1..] == t;
  }

  // Right on every undisturbed template, but for the name of the accumulator in the data
  // object: then nothing is returned at all.
  lemma ProgramIsMeaning(text: string, data: map<string, P.Val>)
    requires Plain(Parse(text, 0), data) && Undisturbed(Parse(text, 0), data, None)
    ensures P.Run(Program(Parse(text, 0)), data) ==
            Some(if "__p" in data then "" else Interpret(Parse(text, 0), data))
  {
    hide Parse, Plain, Undisturbed, Values, Interpret, Expected, P.Run, Program, Weave;
    var t := Parse(text, 0);
    RunIsWeave(t, data);
    ValuesExactly(t, data, None);
    InterpretIsWeave(t, data);
  }

  // ---- exactly when

  predicate NoTagShowsScratch(t: Template, data: map<string, P.Val>)
    requires Plain(t, data)
  {
    match t
    case Last(_) => true
    case Then(_, tag, rest) => NameOf(tag, data) != "__t" && NoTagShowsScratch(rest, data)
  }

  lemma {:induction false} ValuesOrNone(t: Template, data: map<string, P.Val>, last: Option<P.Val>)
    requires Plain(t, data) && Plain(t, Current(data, last)) && NoTagShowsScratch(t, data)
    ensures Values(t, Current(data, last)) in {None, Some(Expected(t, data))}
    decreases t
  {
    hide P.Shown, P.Reference, Hidden;
    match t
    case Last(_) =>
    case Then(_, tag, rest) =>
      var now := Current(data, last);
      var v := ValueOf(tag, now);
      assert v == ValueOf(tag, data) && Stored(now, v) == Current(data, Some(v));
      StillPlain(rest, data, Current(data, Some(v)));
      ValuesOrNone(rest, data, Some(v));
  }

  // For all data, on a template without a tag that shows __t: the result is right exactly if
  // the data do not have the name of the accumulator (or there is nothing to show), and no
  // escape tag with something to show meets data that hide `_`.
  lemma CompiledExactly(text: string, data: map<string, P.Val>)
    requires Plain(Parse(text, 0), data) && NoTagShowsScratch(Parse(text, 0), data)
    ensures P.Run(Program(Parse(text, 0)), data) == Some(Interpret(Parse(text, 0), data)) <==>
            && ("__p" !in data || Interpret(Parse(text, 0), data) == "")
            && Undisturbed(Parse(text, 0), data, None)
  {
    hide Parse, Plain, Undisturbed, Values, Interpret, Expected, P.Run, Program, Weave, NoTagShowsScratch;
    var t := Parse(text, 0);
    RunIsWeave(t, data);
    ValuesExactly(t, data, None);
    ValuesOrNone(t, data, None);
    InterpretIsWeave(t, data);
  }

  // The same tags, between other texts.
  predicate SameTags(t: Template, u: Template) {
    match t
    case Last(_) => u.Last?
    case Then(_, tag, rest) => u.Then? && u.tag == tag && SameTags(rest, u.rest)
  }

  lemma {:induction false} SameTagsShowAlike(t: Template, u: Template, data: map<string, P.Val>)
    requires SameTags(t, u) && Plain(t, data)
    ensures Plain(u, data) && Values(u, data) == Values(t, data) && Expected(u, data) == Expected(t, data)
    decreases t
  {
    hide P.Shown, P.Reference, Hidden;
    match t
    case Last(_) =>
    case Then(_, tag, rest) =>
      SameTagsShowAlike(rest, u.rest, data);
      var v := ValueOf(tag, data);
      StillPlain(rest, data, Stored(data, v));
      SameTagsShowAlike(rest, u.rest, Stored(data, v));
  }

  function TagCount(t: Template): nat {
    match t case Last(_) => 0 case Then(_, _, rest) => 1 + TagCount(rest)
  }

  lemma {:induction false} AsManyAsTags(t: Template, data: map<string, P.Val>)
    requires Plain(t, data)
    ensures |Expected(t, data)| == TagCount(t)
    ensures Values(t, data).Some? ==> |Values(t, data).value| == TagCount(t)
    decreases t
  {
    hide P.Shown, P.Reference, Hidden;
    match t
    case Last(_) =>
    case Then(_, tag, rest) =>
      AsManyAsTags(rest, data);
      StillPlain(rest, data, Stored(data, ValueOf(tag, data)));
      AsManyAsTags(rest, Stored(data, ValueOf(tag, data)));
  }

  // The tags of t, with one text in front and none between or behind.
  function Fronted(t: Template, text: string): (u: Template)
    ensures SameTags(t, u) && ('<' !in text && AllProper(t) ==> Clear(u))
  {
    match t
    case Last(_) => Last(text)
    case Then(_, tag, rest) => Then(text, tag, Fronted(rest, ""))
  }

  lemma FrontedBegins(t: Template, text: string, shown: seq<string>) returns (more: string)
    ensures Weave(Fronted(t, text), shown) == text + more
  {
    match t
    case Last(_) =>
      more := "";
    case Then(_, _, rest) =>
      more := if shown == [] then "" else shown[0] + Weave(Fronted(rest, ""), shown[1..]);
  }

  // A character that keeps two different texts apart, whatever follows it.
  lemma Separator(a: string, b: string) returns (x: char)
    requires a != b
    ensures x != '<'
    ensures forall s: string, t: string :: a + [x] + s != b + [x] + t
  {
    var n := if |a| < |b| then |a| else |b|;
    if a[..n] != b[..n] {
      x := 'x';
      var i :| 0 <= i < n && a[..n][i] != b[..n][i];
      forall s: string, t: string ensures a + [x] + s != b + [x] + t {
        assert (a + [x] + s)[i] == a[i] && (b + [x] + t)[i] == b[i];
      }
    } else {
      x := if |a| < |b| then Unlike(b[n]) else Unlike(a[n]);
      forall s: string, t: string ensures a + [x] + s != b + [x] + t {
        assert |a| < |b| ==> (a + [x] + s)[n] == x && (b + [x] + t)[n] == b[n];
        assert |b| < |a| ==> (b + [x] + t)[n] == x && (a + [x] + s)[n] == a[n];
      }
    }
  }

  function Unlike(c: char): (d: char)
    ensures d != c && d != '<'
  {
    if c == 'x' then 'y' else 'x'
  }

  lemma {:induction false} TextsTellApart(t: Template, a: seq<string>, b: seq<string>) returns (u: Template)
    requires |a| == |b| == TagCount(t) && a != b
    ensures SameTags(t, u) && Weave(u, a) != Weave(u, b) && (AllProper(t) ==> Clear(u))
    decreases t
  {
    match t
    case Then(_, tag, rest) =>
      if a[0] == b[0] {
        assert a == [a[0]] + a[1..] && b == [b[0]] + b[1..];
        var v := TextsTellApart(rest, a[1..], b[1..]);
        u := Then("", tag, v);
        assert Weave(u, a) == a[0] + Weave(v, a[1..]) && Weave(u, b) == a[0] + Weave(v, b[1..]);
        assert Weave(u, a)[|a[0]|..] == Weave(v, a[1..]) && Weave(u, b)[|a[0]|..] == Weave(v, b[1..]);
      } else {
        var x := Separator(a[0], b[0]);
        u := Then("", tag, Fronted(rest, [x]));
        var s := FrontedBegins(rest, [x], a[1..]);
        var r := FrontedBegins(rest, [x], b[1..]);
        assert Weave(u, a) == a[0] + [x] + s && Weave(u, b) == b[0] + [x] + r;
      }
  }

  predicate Right(t: Template, data: map<string, P.Val>)
    requires Plain(t, data)
  {
    P.Run(Program(t), data) == Some(Interpret(t, data))
  }

  // For all data and all tags: the result is right whatever the pieces around the tags are, if
  // and only if the data do not have the name of the accumulator and no tag is disturbed.
  lemma RightForAllPieces(t: Template, data: map<string, P.Val>)
    requires Plain(t, data)
    ensures (forall u :: SameTags(t, u) && Plain(u, data) ==> Right(u, data)) <==>
            "__p" !in data && Undisturbed(t, data, None)
  {
    hide P.Run, Program, Interpret, Undisturbed, Plain;
    ValuesExactly(t, data, None);
    if "__p" !in data && Undisturbed(t, data, None) {
      forall u | SameTags(t, u) && Plain(u, data) ensures Right(u, data) {
        SameTagsShowAlike(t, u, data);
        RunIsWeave(u, data);
        InterpretIsWeave(u, data);
      }
    } else {
      var u := WrongTexts(t, data);
    }
  }

  lemma WrongTexts(t: Template, data: map<string, P.Val>) returns (u: Template)
    requires Plain(t, data) && !("__p" !in data && Undisturbed(t, data, None))
    ensures SameTags(t, u) && Plain(u, data) && !Right(u, data) && (AllProper(t) ==> Clear(u))
  {
    hide P.Run, Program, Interpret, Undisturbed, Plain, Expected, Values;
    ValuesExactly(t, data, None);
    AsManyAsTags(t, data);
    var shown := Values(t, data);
    u := Fronted(t, "x");
    if "__p" in data {
      var _ := FrontedBegins(t, "x", Expected(t, data));
    } else if shown.Some? {
      u := TextsTellApart(t, shown.value, Expected(t, data));
    }
    SameTagsShowAlike(t, u, data);
    RunIsWeave(u, data);
    InterpretIsWeave(u, data);
  }

  lemma {:induction false} ParsedTagsAreProper(text: string, index: nat, data: map<string, P.Val>)
    requires index <= |text| && Plain(Parse(text, index), data)
    ensures AllProper(Parse(text, index))
    decreases |text| - index
  {
    hide TagAt, Source, Proper, Bound;
    var offset := NextMatch(text, index);
    if TagAt(text, offset).Some? {
      FoundIsProper(text, offset);
      SourceLength(TagAt(text, offset).value);
      ParsedTagsAreProper(text, offset + |Source(TagAt(text, offset).value)|, data);
    }
  }

  // For all data and any template text: the result is right for all the texts that have the
  // same tags, if and only if the data do not have the name of the accumulator and no tag is
  // disturbed.
  lemma RightForAllTexts(text: string, data: map<string, P.Val>)
    requires Plain(Parse(text, 0), data)
    ensures (forall other :: SameTags(Parse(text, 0), Parse(other, 0)) && Plain(Parse(other, 0), data) ==>
               Right(Parse(other, 0), data)) <==>
            "__p" !in data && Undisturbed(Parse(text, 0), data, None)
  {
    hide Parse, Render, P.Run, Program, Interpret, Undisturbed, Plain, Right, SameTags, Clear, AllProper;
    var t := Parse(text, 0);
    RightForAllPieces(t, data);
    if !("__p" !in data && Undisturbed(t, data, None)) {
      var u := WrongTexts(t, data);
      ParsedTagsAreProper(text, 0, data);
      ParsesBack(u, Render(u), 0);
      assert Parse(Render(u), 0) == u;
    }
  }

  // ---- the three names at work

  function OneTag(kind: Kind, name: string): Template {
    Then("", Tag(kind, name), Last(""))
  }

  lemma OneTagShows(kind: Kind, name: string, data: map<string, P.Val>)
    requires kind != EvaluateTag && Bound(name, data) && name == P.Reference(name).value.0
    ensures var t, shown := OneTag(kind, name), P.Shown(data[name], kind == EscapeTag);
            && Plain(t, data) && Interpret(t, data) == shown
            && P.Run(Program(t), data) ==
               if Hidden(t.tag, data[name], data) then None else Some(if "__p" in data then "" else shown)
  {
    hide P.Reference, P.Shown, P.Run, Program;
    var t, shown := OneTag(kind, name), P.Shown(data[name], kind == EscapeTag);
    assert Plain(t.rest, data) && Plain(t, data);
    assert "" + shown + "" == shown;
    StillPlain(t.rest, data, Stored(data, data[name]));
    RunIsWeave(t, data);
    assert ([shown] + [])[1..] == [] && ([shown] + [])[0] == shown;
    assert Weave(t, [shown] + []) == shown;
  }

  lemma HiddenEscape()
    ensures var data := map["x" := P.Text("a"), "_" := P.Text("b")];
            var t := OneTag(EscapeTag, "x");
            Plain(t, data) && Interpret(t, data) == Escape("a") && P.Run(Program(t), data) == None
  {
    OneLetter("x");
    hide P.Reference, P.Run, Program, Plain, Interpret, Escape;
    OneTagShows(EscapeTag, "x", map["x" := P.Text("a"), "_" := P.Text("b")]);
  }

  function TwoTags(first: string, second: string): Template {
    Then("", Tag(InterpolateTag, first), Then("", Tag(InterpolateTag, second), Last("")))
  }

  lemma TwoTagsShow(first: string, second: string, data: map<string, P.Val>)
    requires Bound(first, data) && Bound(second, data) && first == P.Reference(first).value.0
    ensures var t, v := TwoTags(first, second), data[first];
            var name := P.Reference(second).value.0;
            && Plain(t, data)
            && Interpret(t, data) == P.Shown(v, false) + P.Shown(data[name], false)
            && ("__p" !in data ==>
                  P.Run(Program(t), data) == Some(P.Shown(v, false) + P.Shown(Stored(data, v)[name], false)))
  {
    hide P.Reference, P.Shown, P.Run, Program;
    var t, v := TwoTags(first, second), data[first];
    var a, b := P.Shown(v, false), P.Shown(Stored(data, v)[P.Reference(second).value.0], false);
    var name := P.Reference(second).value.0;
    assert Plain(t.rest.rest, data) && Plain(t.rest, data) && Plain(t, data);
    assert Interpret(t.rest, data) == "" + P.Shown(data[name], false) + "" == P.Shown(data[name], false);
    assert "" + a == a;
    RunIsWeave(t, data);
    StillPlain(t.rest, data, Stored(data, v));
    assert Values(t.rest, Stored(data, v)) == Some([b] + []);
    assert Values(t, data) == Some([a] + ([b] + []));
    assert ([a] + ([b] + []))[1..] == [b] && ([a] + ([b] + []))[0] == a;
    assert Weave(t.rest, [b]) == "" + b + "" == b;
    assert Weave(t, [a] + ([b] + [])) == "" + a + b == a + b;
  }

  lemma StaleIn(data: map<string, P.Val>)
    requires data.Keys == {"x", "__t"} && data["x"] == P.Text("a") && data["__t"] == P.Text("b")
    ensures var t := TwoTags("x", "__t");
            Plain(t, data) && Interpret(t, data) == "a" + "b" && P.Run(Program(t), data) == Some("a" + "a")
  {
    hide P.Reference, P.Run, Program, Plain, Interpret, TwoTags;
    OneLetter("x");
    ScratchName();
    TwoTagsShow("x", "__t", data);
  }

  lemma StaleValue()
    ensures var data := map["x" := P.Text("a"), "__t" := P.Text("b")];
            var t := TwoTags("x", "__t");
            Plain(t, data) && Interpret(t, data) == "a" + "b" && P.Run(Program(t), data) == Some("a" + "a")
  {
    hide P.Reference, P.Run, Program, Plain, Interpret, Bound, Stored, TwoTags, P.Shown;
    StaleIn(map["x" := P.Text("a"), "__t" := P.Text("b")]);
  }

  lemma NothingReturned()
    ensures var data := map["x" := P.Text("a"), "__p" := P.Text("b")];
            var t := OneTag(InterpolateTag, "x");
            Plain(t, data) && Interpret(t, data) == "a" && P.Run(Program(t), data) == Some("")
  {
    OneLetter("x");
    hide P.Reference, P.Run, Program, Plain, Interpret, Escape;
    OneTagShows(InterpolateTag, "x", map["x" := P.Text("a"), "__p" := P.Text("b")]);
  }

  lemma OneLetter(name: string)
    requires name == "x"
    ensures P.Reference(name) == Some((name, 1))
  {
    assert name[0..] == name && name[1..] == "" && name[0..1] == name;
    assert |name| == 1;
  }

  lemma ScratchName()
    ensures P.Reference("__t") == Some(("__t", 3))
  {
    var s := "__t";
    assert s[1..] == "_t" && s[1..][1..] == "t" && s[1..][1..][1..] == "";
    assert P.Word("t") == 1 && P.Word("_t") == 2 && P.Word(s) == 3;
    assert s[0..] == s && s[0..3] == s && s[3..] == "";
    assert s !in P.Reserved by { assert forall w :: w in P.Reserved && |w| == 3 ==> w[0] != '_'; }
  }

  // From text to result: an escape tag shows the escaped text, an interpolate tag the text itself,
  // and neither shows null or undefined.
  lemma TagsShow(v: P.Val)
    ensures P.Run(Program(Parse("<%-x%>", 0)), map["x" := v]) == Some(if v.Text? then Escape(v.s) else "")
    ensures P.Run(Program(Parse("<%=x%>", 0)), map["x" := v]) == Some(if v.Text? then v.s else "")
  {
    hide P.Reference, P.Run, Program, Escape, Parse;
    OneTagText(EscapeTag);
    OneTagText(InterpolateTag);
    OneLetter("x");
    assert "<%-" + "x" + "%>" == "<%-x%>" && "<%=" + "x" + "%>" == "<%=x%>";
    OneTagShows(EscapeTag, "x", map["x" := v]);
    OneTagShows(InterpolateTag, "x", map["x" := v]);
  }

  lemma OneTagText(kind: Kind)
    requires kind != EvaluateTag
    ensures Parse(Opening(kind) + "x" + "%>", 0) == OneTag(kind, "x")
  {
    hide Parse, TagAt, TagOf;
    var u, text := OneTag(kind, "x"), Opening(kind) + "x" + "%>";
    assert text[0..] == text;
    assert Render(u) == "" + text + "" == text;
    ParsesBack(u, text, 0);
  }
}
