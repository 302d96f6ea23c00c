/** Escaping text for HTML, and taking the escapes back: each is one pass that replaces the
    matches of an expression from left to right. */
module HtmlEscape {
  import opened Options

  const SPECIAL := "&<>\"'/"
  const ENTITIES: seq<string> := ["&amp;", "&lt;", "&gt;", "&quot;", "&#x27;", "&#x2F;"]

  // The place of a special character, which is also that of its entity.
  function Place(c: char): (k: Option<nat>)
    ensures k.Some? ==> k.value < 6 && SPECIAL[k.value] == c
    ensures k.None? ==> c !in SPECIAL
  {
    if c == '&' then Some(0) else if c == '<' then Some(1) else if c == '>' then Some(2)
    else if c == '"' then Some(3) else if c == '\'' then Some(4) else if c == '/' then Some(5) else None
  }

  function Escape(s: string): string {
    if s == "" then "" else
      match Place(s[0])
      case Some(k) => ENTITIES[k] + Escape(s[1..])
      case None => [s[0]] + Escape(s[1..])
  }

  predicate StartsWith(s: string, t: string) {
    |t| <= |s| && s[..|t|] == t
  }

  // The first alternative of (&amp;|&lt;|...) that matches at the beginning of s.
  function EntityFrom(s: string, k: nat): (e: Option<nat>)
    requires k <= 6
    ensures e.Some? ==> k <= e.value < 6 && StartsWith(s, ENTITIES[e.value])
    ensures forall i :: k <= i < 6 && (e.Some? ==> i < e.value) ==> !StartsWith(s, ENTITIES[i])
    decreases 6 - k
  {
    if k == 6 then None else if StartsWith(s, ENTITIES[k]) then Some(k) else EntityFrom(s, k + 1)
  }

  lemma EntitiesLong(k: nat)
    requires k < 6
    ensures 4 <= |ENTITIES[k]| <= 6 && ENTITIES[k][0] == '&'
  {
  }

  function Unescape(s: string): string
    decreases |s|
  {
    if s == "" then "" else
      match EntityFrom(s, 0)
      case Some(k) => EntitiesLong(k); [SPECIAL[k]] + Unescape(s[|ENTITIES[k]|..])
      case None => [s[0]] + Unescape(s[1..])
  }

  // No entity is the beginning of another.
  lemma EntityStands(k: nat, t: string)
    requires k < 6
    ensures EntityFrom(ENTITIES[k] + t, 0) == Some(k)
  {
    var s := ENTITIES[k] + t;
    assert s[..|ENTITIES[k]|] == ENTITIES[k];
    forall i | 0 <= i < k ensures !StartsWith(s, ENTITIES[i]) {
      EntitiesDiffer(i, k, t);
    }
  }

  lemma EntitiesDiffer(i: nat, k: nat, t: string)
    requires i < k < 6
    ensures !StartsWith(ENTITIES[k] + t, ENTITIES[i])
  {
    // They differ in their second character, or else in the fourth or fifth.
    var s := ENTITIES[k] + t;
    var at := if i == 4 then 4 else 1;
    assert at < |ENTITIES[i]| && at < |ENTITIES[k]| && ENTITIES[i][at] != ENTITIES[k][at];
    assert s[at] == ENTITIES[k][at];
  }

  lemma OnlyAmpersands(s: string)
    requires s != "" && s[0] != '&'
    ensures EntityFrom(s, 0) == None
  {
    forall k | 0 <= k < 6 ensures !StartsWith(s, ENTITIES[k]) {
      EntitiesLong(k);
    }
  }

  lemma {:induction false} UnescapeEscape(s: string)
    ensures Unescape(Escape(s)) == s
    decreases |s|
  {
    if s != "" {
      UnescapeEscape(s[1..]);
      assert s == [s[0]] + s[1..];
      var rest := Escape(s[1..]);
      match Place(s[0])
      case Some(k) =>
        EntityStands(k, rest);
        EntitiesLong(k);
        assert (ENTITIES[k] + rest)[|ENTITIES[k]|..] == rest;
      case None =>
        OnlyAmpersands([s[0]] + rest);
        assert ([s[0]] + rest)[1..] == rest;
    }
  }

  // Safe to put into HTML text and quoted attributes: no special character but ampersands,
  // each of which begins one of the six entities.
  predicate Safe(t: string) {
    forall i :: 0 <= i < |t| && t[i] in SPECIAL ==> t[i] == '&' && EntityFrom(t[i..], 0).Some?
  }

  lemma SafeAfter(t: string, n: nat)
    requires n <= |t| && Safe(t)
    ensures Safe(t[n..])
  {
    forall i | 0 <= i < |t[n..]| && t[n..][i] in SPECIAL
      ensures t[n..][i] == '&' && EntityFrom(t[n..][i..], 0).Some?
    {
      assert t[n..][i] == t[n + i] && t[n..][i..] == t[n + i..];
    }
  }

  lemma SafeBefore(first: string, t: string)
    requires Safe(t) && first != ""
    requires first[0] in SPECIAL ==> first[0] == '&' && EntityFrom(first + t, 0).Some?
    requires forall i :: 1 <= i < |first| ==> first[i] !in SPECIAL
    ensures Safe(first + t)
  {
    var s := first + t;
    forall i | 0 <= i < |s| && s[i] in SPECIAL ensures s[i] == '&' && EntityFrom(s[i..], 0).Some? {
      if i >= |first| {
        assert s[i] == t[i - |first|] && s[i..] == t[i - |first|..];
      } else {
        assert i == 0 && s[0..] == s;
      }
    }
  }

  lemma EntityTail(k: nat)
    requires k < 6
    ensures forall i :: 1 <= i < |ENTITIES[k]| ==> ENTITIES[k][i] !in SPECIAL
  {
  }

  lemma {:induction false} EscapeIsSafe(s: string)
    ensures Safe(Escape(s))
    ensures forall c :: c in Escape(s) ==> c != '<' && c != '>' && c != '"' && c != '\'' && c != '/'
    decreases |s|
  {
    if s != "" {
      EscapeIsSafe(s[1..]);
      var rest := Escape(s[1..]);
      match Place(s[0])
      case Some(k) =>
        EntityStands(k, rest);
        EntitiesLong(k);
        EntityTail(k);
        SafeBefore(ENTITIES[k], rest);
      case None =>
        SafeBefore([s[0]], rest);
    }
  }

  // And every safe text is the escape of what it unescapes to: the two are inverse to each other
  // between all texts and the safe ones.
  lemma {:induction false} EscapeUnescape(t: string)
    ensures Escape(Unescape(t)) == t <==> Safe(t)
    decreases |t|
  {
    EscapeIsSafe(Unescape(t));
    if Safe(t) && t != "" {
      match EntityFrom(t, 0)
      case Some(k) =>
        var n := |ENTITIES[k]|;
        EntitiesLong(k);
        SafeAfter(t, n);
        EscapeUnescape(t[n..]);
        assert Place(SPECIAL[k]) == Some(k);
        assert t == ENTITIES[k] + t[n..];
        assert Unescape(t)[1..] == Unescape(t[n..]);
      case None =>
        assert t[0..] == t;
        SafeAfter(t, 1);
        EscapeUnescape(t[1..]);
        assert t == [t[0]] + t[1..];
        assert Unescape(t)[1..] == Unescape(t[1..]);
    }
  }

  // ---- what the entities stand for (section 5.3 of HTML 4.01)

  function HexDigit(c: char): (v: Option<nat>)
    ensures v.Some? ==> v.value < 16
  {
    if '0' <= c <= '9' then Some((c - '0') as nat)
    else if 'a' <= c <= 'f' then Some((c - 'a') as nat + 10)
    else if 'A' <= c <= 'F' then Some((c - 'A') as nat + 10)
    else None
  }

  function Hexadecimal(s: string): Option<nat> {
    if s == "" then Some(0) else
      var front, last := Hexadecimal(s[..|s| - 1]), HexDigit(s[|s| - 1]);
      if front.Some? && last.Some? then Some(16 * front.value + last.value) else None
  }

  // The character that a reference of this name stands for: #x and its number in hexadecimal
  // digits, or one of the names of the characters that have a meaning in HTML.
  function Character(name: string): Option<char> {
    if name == "amp" then Some('&')
    else if name == "lt" then Some('<')
    else if name == "gt" then Some('>')
    else if name == "quot" then Some('"')
    else if |name| > 2 && name[..2] == "#x" then
      match Hexadecimal(name[2..])
      case Some(n) => if n < 0xD800 then Some(n as char) else None
      case None => None
    else None
  }

  function UpTo(s: string, c: char): (n: nat)
    ensures n <= |s| && (forall i :: 0 <= i < n ==> s[i] != c) && (n < |s| ==> s[n] == c)
  {
    if s == "" || s[0] == c then 0 else UpTo(s[1..], c) + 1
  }

  // The name of the reference at the beginning of s: what stands between & and the next semicolon.
  function Reference(s: string): (name: Option<string>)
    ensures name.Some? ==> StartsWith(s, "&" + name.value + ";")
  {
    if s == "" || s[0] != '&' then None else
      var n := UpTo(s[1..], ';');
      if n == |s| - 1 then None else
        assert s[..n + 2] == "&" + s[1..][..n] + ";";
        Some(s[1..][..n])
  }

  // The text in which the references of these names are read as their characters.
  ghost function Decode(s: string, names: iset<string>): string
    decreases |s|
  {
    if s == "" then "" else
      match Reference(s)
      case None => [s[0]] + Decode(s[1..], names)
      case Some(name) =>
        if name in names && Character(name).Some? then [Character(name).value] + Decode(s[|name| + 2..], names)
        else [s[0]] + Decode(s[1..], names)
  }

  const WRITTEN: iset<string> := iset{"amp", "lt", "gt", "quot", "#x27", "#x2F"}

  lemma UpToIs(s: string, c: char, n: nat)
    requires n < |s| && s[n] == c && forall i :: 0 <= i < n ==> s[i] != c
    ensures UpTo(s, c) == n
  {
  }

  lemma ReferenceIs(name: string, t: string)
    requires ';' !in name
    ensures Reference("&" + name + ";" + t) == Some(name)
  {
    var s := "&" + name + ";" + t;
    assert s[1..] == name + ";" + t && s[1..][..|name|] == name;
    UpToIs(s[1..], ';', |name|);
  }

  // The name of an entity.
  function NameOf(k: nat): string
    requires k < 6
  {
    EntitiesLong(k);
    ENTITIES[k][1..|ENTITIES[k]| - 1]
  }

  lemma TwoDigits(a: char, b: char)
    ensures Hexadecimal([a, b]) == if HexDigit(a).Some? && HexDigit(b).Some?
                                   then Some(16 * HexDigit(a).value + HexDigit(b).value) else None
  {
    assert [a, b][..1] == [a] && [a][..0] == "";
    assert Hexadecimal("") == Some(0) && Hexadecimal([a]) == HexDigit(a);
  }

  lemma NumberNamed(a: char, b: char)
    requires HexDigit(a).Some? && HexDigit(b).Some?
    ensures Character(['#', 'x', a, b]) == Some((16 * HexDigit(a).value + HexDigit(b).value) as char)
  {
    var name := ['#', 'x', a, b];
    assert name[..2] == "#x" && name[2..] == [a, b];
    assert name[0] != "amp"[0] && name[0] != "lt"[0] && name[0] != "gt"[0] && name[0] != "quot"[0];
    TwoDigits(a, b);
  }

  // The entities are references, in HTML, to the characters they are written for.
  lemma EntityNames(k: nat)
    requires k < 6
    ensures ENTITIES[k] == "&" + NameOf(k) + ";" && ';' !in NameOf(k)
    ensures NameOf(k) in WRITTEN && Character(NameOf(k)) == Some(SPECIAL[k])
  {
    hide Character;
    if k < 4 {
      LetteredEntity(k);
    } else {
      NumberedEntity(k);
    }
  }

  lemma LetteredEntity(k: nat)
    requires k < 4
    ensures ENTITIES[k] == "&" + NameOf(k) + ";" && ';' !in NameOf(k)
    ensures NameOf(k) in WRITTEN && Character(NameOf(k)) == Some(SPECIAL[k])
  {
    var name := if k == 0 then "amp" else if k == 1 then "lt" else if k == 2 then "gt" else "quot";
    assert ENTITIES[k] == "&" + name + ";";
    assert NameOf(k) == name;
  }

  lemma NumberedEntity(k: nat)
    requires 4 <= k < 6
    ensures ENTITIES[k] == "&" + NameOf(k) + ";" && ';' !in NameOf(k)
    ensures NameOf(k) in WRITTEN && Character(NameOf(k)) == Some(SPECIAL[k])
  {
    hide Character;
    var last := if k == 4 then '7' else 'F';
    NumberNamed('2', last);
    var name := ['#', 'x', '2', last];
    assert ENTITIES[k] == "&" + name + ";";
    assert NameOf(k) == name;
    assert name == "#x27" || name == "#x2F";
  }

  lemma EntityRead(k: nat, t: string, names: iset<string>)
    requires k < 6 && WRITTEN <= names
    ensures Decode(ENTITIES[k] + t, names) == [SPECIAL[k]] + Decode(t, names)
  {
    EntityNames(k);
    EntitiesLong(k);
    ReferenceIs(NameOf(k), t);
    hide Reference, NameOf, Character;
    var s := ENTITIES[k] + t;
    assert s == "&" + NameOf(k) + ";" + t;
    assert s[|NameOf(k)| + 2..] == t;
  }

  // Whoever reads HTML, with these references and any others, reads the escaped text as the text.
  lemma {:induction false} EscapeReadsBack(s: string, names: iset<string>)
    requires WRITTEN <= names
    ensures Decode(Escape(s), names) == s
    decreases |s|
  {
    if s != "" {
      EscapeReadsBack(s[1..], names);
      assert s == [s[0]] + s[1..];
      var rest := Escape(s[1..]);
      match Place(s[0])
      case Some(k) => EntityRead(k, rest, names);
      case None => assert ([s[0]] + rest)[1..] == rest;
    }
  }

  lemma WrittenIsEntity(t: string, name: string)
    requires EntityFrom(t, 0).None? && StartsWith(t, "&" + name + ";")
    ensures name !in WRITTEN
  {
    forall k | 0 <= k < 6 ensures ENTITIES[k] != "&" + name + ";" {
      assert !StartsWith(t, ENTITIES[k]);
    }
    assert "&" + "amp" + ";" == ENTITIES[0] && "&" + "lt" + ";" == ENTITIES[1] && "&" + "gt" + ";" == ENTITIES[2];
    assert "&" + "quot" + ";" == ENTITIES[3] && "&" + "#x27" + ";" == ENTITIES[4];
    assert "&" + "#x2F" + ";" == ENTITIES[5];
  }

  // Unescaping, for every text, reads the references of these six names and no others.
  lemma {:induction false} UnescapeReads(t: string)
    ensures Unescape(t) == Decode(t, WRITTEN)
    decreases |t|
  {
    hide Character, Reference, NameOf;
    if t != "" {
      match EntityFrom(t, 0)
      case Some(k) =>
        var n := |ENTITIES[k]|;
        EntitiesLong(k);
        assert t == ENTITIES[k] + t[n..];
        EntityRead(k, t[n..], WRITTEN);
        UnescapeReads(t[n..]);
      case None =>
        UnescapeReads(t[1..]);
        if Reference(t).Some? {
          WrittenIsEntity(t, Reference(t).value);
        }
    }
  }
}
