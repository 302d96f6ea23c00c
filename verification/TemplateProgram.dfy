/** Evaluating the programs that templates compile to: the part of the language they use, read
    character by character (sections 7.8.4, 7.6 and 11.13.2 of ECMAScript 5.1). */
module TemplateProgram {
  import opened Options
  import opened HtmlEscape

  // A value as far as a template shows it: its string, or that it is null or undefined.
  datatype Val = Nullish | Text(s: string)

  // The data object is searched first (section 12.10: `with`), then the local variables.
  datatype State = State(data: map<string, Val>, t: Val, p: string)

  predicate LineTerminator(c: char) {
    c == '\n' || c == '\r' || c == '\U{2028}' || c == '\U{2029}'
  }

  // White space and line terminators (sections 7.2 and 7.3)
  predicate Blank(c: char) {
    || LineTerminator(c) || c == '\t' || c == '\U{000B}' || c == '\U{000C}' || c == ' ' || c == '\U{00A0}'
    || c == '\U{1680}' || c == '\U{180E}' || '\U{2000}' <= c <= '\U{200A}' || c == '\U{202F}' || c == '\U{205F}'
    || c == '\U{3000}' || c == '\U{FEFF}'
  }

  predicate Digit(c: char) { '0' <= c <= '9' }

  predicate WordChar(c: char) {
    'a' <= c <= 'z' || 'A' <= c <= 'Z' || Digit(c) || c == '_' || c == '$'
  }

  // ---- string literals

  function HexDigit(c: char): Option<nat> {
    if Digit(c) then Some(c as int - '0' as int)
    else if 'a' <= c <= 'f' then Some(c as int - 'a' as int + 10)
    else if 'A' <= c <= 'F' then Some(c as int - 'A' as int + 10)
    else None
  }

  function Hex(s: string): Option<nat> {
    if s == "" then Some(0) else
      match (Hex(s[..|s| - 1]), HexDigit(s[|s| - 1]))
      case (Some(high), Some(low)) => Some(16 * high + low)
      case _ => None
  }

  // What an escape sequence stands for, and how many characters follow the backslash.
  function EscapeSequence(s: string): (r: Option<(string, nat)>)
    ensures r.Some? ==> 0 < r.value.1 <= |s|
  {
    if s == "" then None else
      var c := s[0];
      if c == 'b' then Some(("\U{0008}", 1))
      else if c == 't' then Some(("\t", 1))
      else if c == 'n' then Some(("\n", 1))
      else if c == 'v' then Some(("\U{000B}", 1))
      else if c == 'f' then Some(("\U{000C}", 1))
      else if c == 'r' then Some(("\r", 1))
      else if c == 'x' then HexEscape(s, 2)
      else if c == 'u' then HexEscape(s, 4)
      else if c == '\r' && |s| > 1 && s[1] == '\n' then Some(("", 2))
      else if LineTerminator(c) then Some(("", 1))
      else if c == '0' && (|s| == 1 || !Digit(s[1])) then Some(("\0", 1))
      else if Digit(c) then None
      else Some(([c], 1))
  }

  // Surrogates do not stand for characters by themselves, and are not followed.
  function HexEscape(s: string, n: nat): (r: Option<(string, nat)>)
    requires s != ""
    ensures r.Some? ==> 0 < r.value.1 <= |s|
  {
    if |s| < n + 1 then None else
      match Hex(s[1..n + 1])
      case Some(v) => if v < 0xD800 || 0xE000 <= v < 0x10000 then Some(([v as char], n + 1)) else None
      case None => None
  }

  // The rest of a literal in single quotes: its characters, and what follows it.
  function StringRest(s: string): (r: Option<(string, string)>)
    ensures r.Some? ==> |r.value.1| < |s|
    decreases |s|
  {
    if s == "" then None
    else if s[0] == '\'' then Some(("", s[1..]))
    else if LineTerminator(s[0]) then None
    else if s[0] == '\\' then
      match EscapeSequence(s[1..])
      case None => None
      case Some((c, n)) => Before(c, StringRest(s[1 + n..]))
    else Before([s[0]], StringRest(s[1..]))
  }

  function Before(c: string, r: Option<(string, string)>): Option<(string, string)> {
    match r
    case Some((text, rest)) => Some((c + text, rest))
    case None => None
  }

  // ---- references

  const Reserved: set<string> := {
    "break", "case", "catch", "continue", "debugger", "default", "delete", "do", "else", "finally", "for", "function",
    "if", "in", "instanceof", "new", "return", "switch", "this", "throw", "try", "typeof", "var", "void", "while",
    "with", "class", "const", "enum", "export", "extends", "import", "super", "null", "true", "false"}

  function Blanks(s: string): (n: nat)
    ensures n <= |s|
  {
    if s != "" && Blank(s[0]) then 1 + Blanks(s[1..]) else 0
  }

  function Word(s: string): (n: nat)
    ensures n <= |s|
  {
    if s != "" && WordChar(s[0]) then 1 + Word(s[1..]) else 0
  }

  // An identifier with blanks around it, and the number of characters all that takes.
  function Reference(s: string): (r: Option<(string, nat)>)
    ensures r.Some? ==> r.value.1 <= |s|
  {
    var b := Blanks(s);
    var w := Word(s[b..]);
    var name := s[b..b + w];
    if w == 0 || Digit(name[0]) || name in Reserved then None
    else Some((name, b + w + Blanks(s[b + w..])))
  }

  function Lookup(name: string, st: State): Option<Val> {
    if name in st.data then Some(st.data[name])
    else if name == "__t" then Some(st.t)
    else if name == "__p" then Some(Text(st.p))
    else None   // unknown here: a global, or an error
  }

  function Assign(name: string, v: Val, st: State): State
    requires name == "__t"
  {
    if name in st.data then st.(data := st.data[name := v]) else st.(t := v)
  }

  // ---- expressions: strings, added from left to right

  const TAG_OPEN := "((__t=("
  const NULL_TEST := "))==null?'':"
  const SHOW := "__t)"
  const SHOW_ESCAPED := "_.escape(__t))"

  predicate Begins(s: string, t: string) {
    |t| <= |s| && s[..|t|] == t
  }

  // The value of a term, the state after it, and what follows it.
  datatype Outcome = Outcome(value: string, state: State, rest: string)

  function Shown(v: Val, escaped: bool): string {
    if v.Nullish? then "" else if escaped then Escape(v.s) else v.s
  }

  // ((__t=(name))==null?'':__t) or ((__t=(name))==null?'':_.escape(__t))
  function TagTerm(s: string, st: State): (o: Option<Outcome>)
    requires Begins(s, TAG_OPEN)
    ensures o.Some? ==> |o.value.rest| < |s|
  {
    var inner := s[|TAG_OPEN|..];
    match Reference(inner)
    case None => None
    case Some((name, n)) =>
      var after := inner[n..];
      if !Begins(after, NULL_TEST) then None else
        match Lookup(name, st)
        case None => None
        case Some(v) => ShowTerm(after[|NULL_TEST|..], v, Assign("__t", v, st))
  }

  // What follows the test of v against null: __t is read back, and escaped by the function
  // that `_` names. If the data object has that name, what happens then is not followed.
  function ShowTerm(s: string, v: Val, st: State): (o: Option<Outcome>)
    ensures o.Some? ==> |o.value.rest| <= |s|
  {
    match Lookup("__t", st)
    case None => None
    case Some(t) =>
      if Begins(s, SHOW) then
        Some(Outcome(if v.Nullish? then "" else Shown(t, false), st, s[|SHOW|..]))
      else if Begins(s, SHOW_ESCAPED) && v.Nullish? then Some(Outcome("", st, s[|SHOW_ESCAPED|..]))
      else if Begins(s, SHOW_ESCAPED) && "_" !in st.data then
        Some(Outcome(Shown(t, true), st, s[|SHOW_ESCAPED|..]))
      else None
  }

  function Term(s: string, st: State): (o: Option<Outcome>)
    ensures o.Some? ==> |o.value.rest| < |s|
  {
    if s != "" && s[0] == '\'' then
      match StringRest(s[1..])
      case Some((text, rest)) => Some(Outcome(text, st, rest))
      case None => None
    else if Begins(s, TAG_OPEN) then TagTerm(s, st)
    else None
  }

  function Sum(s: string, sofar: string, st: State): (o: Option<Outcome>)
    ensures o.Some? ==> |o.value.rest| < |s|
    decreases |s|
  {
    match Term(s, st)
    case None => None
    case Some(o) =>
      var value := sofar + o.value;
      if o.rest != "" && o.rest[0] == '+' then Sum(o.rest[1 + Blanks(o.rest[1..])..], value, o.state)
      else Some(Outcome(value, o.state, o.rest))
  }

  // ---- the program

  const PROLOGUE := "var __t,__p='',__j=Array.prototype.join," +
                    "print=function(){__p+=__j.call(arguments,'');};\n" + "with(obj||{}){\n"
  const APPEND := "__p+="
  const EPILOGUE := ";\n}\nreturn __p;\n"

  // __p+=<sum>;  The target is found, and its old value read, before the sum is evaluated.
  function Run(source: string, data: map<string, Val>): Option<string> {
    if !Begins(source, PROLOGUE + APPEND) then None else
      var start := State(data, Nullish, "");
      match Sum(source[|PROLOGUE + APPEND|..], "", start)
      case None => None
      case Some(o) =>
        if o.rest != EPILOGUE then None
        else if "__p" in data then Some(start.p)   // the data object was appended to
        else Some(start.p + o.value)
  }
}
