/** Compiling a template. */
module Templates {
  import opened Options
  import opened TemplateText
  import P = TemplateProgram

  // ---- literals

  const ESCAPED := "'\\\r\n\t\U{2028}\U{2029}"
  const ESCAPES: seq<string> := ["'", "\\", "r", "n", "t", "u2028", "u2029"]

  function EscapeOf(c: char): (k: Option<nat>)
    ensures k.Some? ==> k.value < 7 && ESCAPED[k.value] == c
    ensures k.None? ==> c !in ESCAPED
  {
    if c == '\'' then Some(0) else if c == '\\' then Some(1) else if c == '\r' then Some(2)
    else if c == '\n' then Some(3) else if c == '\t' then Some(4)
    else if c == '\U{2028}' then Some(5) else if c == '\U{2029}' then Some(6) else None
  }

  function Quote(s: string): string {
    if s == "" then "" else
      match EscapeOf(s[0])
      case Some(k) => "\\" + ESCAPES[k] + Quote(s[1..])
      case None => [s[0]] + Quote(s[1..])
  }

  lemma EscapeStands(k: nat, rest: string)
    requires k < 7
    ensures P.EscapeSequence(ESCAPES[k] + rest) == Some(([ESCAPED[k]], |ESCAPES[k]|))
  {
    var s := ESCAPES[k] + rest;
    assert s[0] == ESCAPES[k][0];
    if k >= 5 {
      assert s[1..5] == ESCAPES[k][1..5];
      HexOfSeparators(k);
    }
  }

  lemma HexOfSeparators(k: nat)
    requires 5 <= k < 7
    ensures P.Hex(ESCAPES[k][1..5]) == Some(ESCAPED[k] as int)
  {
    var s := ESCAPES[k][1..5];
    assert s == if k == 5 then "2028" else "2029";
    assert s[..3] == "202" && s[..3][..2] == "20" && s[..3][..2][..1] == "2" && s[..3][..2][..1][..0] == "";
    assert P.Hex(s[..3][..2][..1]) == Some(2);
    assert P.Hex(s[..3][..2]) == Some(0x20);
    assert P.Hex(s[..3]) == Some(0x202);
  }

  lemma QuoteEnds(rest: string)
    ensures P.StringRest("'" + rest) == Some(("", rest))
  {
    assert ("'" + rest)[1..] == rest;
  }

  lemma CharacterFirst(c: char, rest: string)
    requires c !in ESCAPED
    ensures P.StringRest([c] + rest) == P.Before([c], P.StringRest(rest))
  {
    hide P.EscapeSequence;
    var s := [c] + rest;
    assert s[1..] == rest;
    assert '\'' in ESCAPED && '\\' in ESCAPED;
    assert P.LineTerminator(c) ==> c in ESCAPED;
  }

  lemma EscapeFirst(k: nat, rest: string)
    requires k < 7
    ensures P.StringRest("\\" + (ESCAPES[k] + rest)) == P.Before([ESCAPED[k]], P.StringRest(rest))
  {
    hide P.EscapeSequence;
    var s := "\\" + (ESCAPES[k] + rest);
    assert s[0] == '\\' && s[1..] == ESCAPES[k] + rest;
    EscapeStands(k, rest);
    assert s[1 + |ESCAPES[k]|..] == rest;
  }

  lemma EscapesAreLetters(k: nat)
    requires k < 7
    ensures forall c :: c in ESCAPES[k] ==> c in "'\\rntu0289"
  {
  }

  // What stands between the quotes is on one line.
  lemma {:induction false} QuoteIsOneLine(s: string)
    ensures forall c :: c in Quote(s) ==> c != '\n' && c != '\r' && c != '\U{2028}' && c != '\U{2029}'
    decreases |s|
  {
    if s != "" {
      QuoteIsOneLine(s[1..]);
      if EscapeOf(s[0]).Some? {
        EscapesAreLetters(EscapeOf(s[0]).value);
      }
    }
  }

  // Between its quotes the literal holds no line terminator and no quote that would end it, and
  // it stands for the text again.
  lemma {:induction false} LiteralIsText(s: string, rest: string)
    ensures P.StringRest(Quote(s) + "'" + rest) == Some((s, rest))
    decreases |s|
  {
    hide P.StringRest;
    if s == "" {
      QuoteEnds(rest);
      assert Quote(s) + "'" + rest == "'" + rest;
    } else {
      LiteralIsText(s[1..], rest);
      var more := Quote(s[1..]) + "'" + rest;
      assert s == [s[0]] + s[1..];
      match EscapeOf(s[0])
      case Some(k) =>
        assert Quote(s) + "'" + rest == "\\" + (ESCAPES[k] + more);
        EscapeFirst(k, more);
      case None =>
        assert Quote(s) + "'" + rest == [s[0]] + more;
        CharacterFirst(s[0], more);
    }
  }

  // ---- the program

  function Code(t: Tag): string {
    match t.kind
    case EscapeTag => "'+\n((__t=(" + t.body + "))==null?'':_.escape(__t))+\n'"
    case InterpolateTag => "'+\n((__t=(" + t.body + "))==null?'':__t)+\n'"
    case EvaluateTag => "';\n" + t.body + "\n__p+='"
  }

  function Emit(t: Template): string {
    match t
    case Last(text) => Quote(text)
    case Then(text, tag, rest) => Quote(text) + Code(tag) + Emit(rest)
  }

  function Program(t: Template): string {
    P.PROLOGUE + P.APPEND + "'" + Emit(t) + "'" + P.EPILOGUE
  }

  // Template text in, program text out: the pieces are emitted one after the other, and `index`
  // is where the last one ended.
  method Compile(text: string) returns (source: string)
    ensures source == Program(Parse(text, 0))
  {
    hide *;
    var index: nat := 0;
    source := "__p+='";
    ghost var whole := Emit(Parse(text, 0));
    ghost var left := whole;
    var matching := true;
    while matching
      invariant index <= |text|
      invariant left == if matching then Emit(Parse(text, index)) else ""
      invariant source + left == "__p+='" + whole
      decreases matching, |text| - index
    {
      var offset := NextMatch(text, index);
      ParseStep(text, index);
      var literal := Quote(text[index..offset]);
      source := source + literal;
      match TagAt(text, offset) {
        case Some(tag) =>
          SourceFits(text, offset);
          left := Emit(Parse(text, offset + |Source(tag)|));
          source := source + Code(tag);
          index := offset + |Source(tag)|;
        case None =>
          left := "";
          matching := false;
      }
    }
    source := source + "';\n";
    source := "with(obj||{}){\n" + source + "}\n";
    source := "var __t,__p='',__j=Array.prototype.join," + "print=function(){__p+=__j.call(arguments,'');};\n" +
      source + "return __p;\n";
    Assemble(Parse(text, 0));
  }

  lemma SourceFits(text: string, offset: nat)
    requires offset <= |text| && TagAt(text, offset).Some?
    ensures 0 < |Source(TagAt(text, offset).value)| <= |text| - offset
  {
  }

  lemma ParseStep(text: string, index: nat)
    requires index <= |text|
    ensures var offset := NextMatch(text, index);
            Emit(Parse(text, index)) ==
            match TagAt(text, offset)
            case Some(tag) => Quote(text[index..offset]) + Code(tag) + Emit(Parse(text, offset + |Source(tag)|))
            case None => Quote(text[index..offset])
  {
    hide TagAt, Source, NextMatch, Quote, Code;
  }

  lemma Assemble(t: Template)
    ensures "var __t,__p='',__j=Array.prototype.join," + "print=function(){__p+=__j.call(arguments,'');};\n" +
            ("with(obj||{}){\n" + (("__p+='" + Emit(t)) + "';\n") + "}\n") + "return __p;\n" == Program(t)
  {
    hide Emit;
    assert "__p+='" == P.APPEND + "'";
    assert "'" + P.EPILOGUE == "';\n" + "}\n" + "return __p;\n";
    Regroup("var __t,__p='',__j=Array.prototype.join," + "print=function(){__p+=__j.call(arguments,'');};\n",
            "with(obj||{}){\n", P.APPEND, "'", Emit(t), "';\n", "}\n", "return __p;\n", P.EPILOGUE);
  }

  lemma Regroup(f: string, w: string, p: string, q: string, e: string, c: string, b: string, r: string, k: string)
    requires q + k == c + b + r
    ensures f + (w + (((p + q) + e) + c) + b) + r == f + w + p + q + e + q + k
  {
    assert f + (w + (((p + q) + e) + c) + b) + r == f + w + p + q + e + (c + b + r);
  }

  // The code of an evaluate tag is copied between two statements, as it stands.
  lemma CodeIsCopied(code: string)
    ensures Program(Then("a", Tag(EvaluateTag, code), Last("b"))) ==
            "var __t,__p='',__j=Array.prototype.join," + "print=function(){__p+=__j.call(arguments,'');};\n" +
            "with(obj||{}){\n" + "__p+='a';\n" + code + "\n__p+='b';\n}\nreturn __p;\n"
  {
    EmitsCode("a", code, "b");
    OneQuoted('a');
    OneQuoted('b');
    CodeStarts();
    CodeEnds();
    hide Emit, Quote, Program;
    RegroupCode(P.PROLOGUE + P.APPEND + "'", "a", "';\n", code, "\n__p+='", "b", "'" + P.EPILOGUE);
  }

  lemma EmitsCode(a: string, code: string, b: string)
    ensures Program(Then(a, Tag(EvaluateTag, code), Last(b))) ==
            P.PROLOGUE + P.APPEND + "'" + (Quote(a) + ("';\n" + code + "\n__p+='") + Quote(b)) + ("'" + P.EPILOGUE)
  {
    hide Quote;
    var emitted := Quote(a) + ("';\n" + code + "\n__p+='") + Quote(b);
    assert Emit(Then(a, Tag(EvaluateTag, code), Last(b))) == emitted;
    TwoMore(P.PROLOGUE + P.APPEND + "'" + emitted, "'", P.EPILOGUE);
  }

  lemma TwoMore(s: string, a: string, b: string)
    ensures s + a + b == s + (a + b)
  {
  }

  lemma CodeStarts()
    ensures P.PROLOGUE + P.APPEND + "'" + "a" + "';\n" ==
            "var __t,__p='',__j=Array.prototype.join," + "print=function(){__p+=__j.call(arguments,'');};\n" +
            "with(obj||{}){\n" + "__p+='a';\n"
  {
    RegroupHead(P.PROLOGUE, P.APPEND, "'", "a", "';\n");
    assert P.APPEND + "'" + "a" + "';\n" == "__p+='a';\n";
  }

  lemma CodeEnds()
    ensures "\n__p+='" + "b" + ("'" + P.EPILOGUE) == "\n__p+='b';\n}\nreturn __p;\n"
  {
  }

  lemma OneQuoted(c: char)
    requires c !in ESCAPED
    ensures Quote([c]) == [c]
  {
    assert [c][1..] == "";
  }

  lemma RegroupHead(h: string, a: string, b: string, c: string, d: string)
    ensures h + a + b + c + d == h + (a + b + c + d)
  {
  }

  lemma RegroupCode(h: string, a: string, x: string, code: string, y: string, b: string, e: string)
    ensures h + (a + (x + code + y) + b) + e == (h + a + x) + code + (y + b + e)
  {
  }
}
