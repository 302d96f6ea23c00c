/** Template texts: the tags that one expression with three alternatives finds from left to
    right, and the text between them. */
module TemplateText {
  import opened Options

  // <%- body %>, <%= body %>, <% body %>
  datatype Kind = EscapeTag | InterpolateTag | EvaluateTag

  datatype Tag = Tag(kind: Kind, body: string)

  // Text, a tag, text, a tag, and so on up to the last text.
  datatype Template = Last(text: string) | Then(text: string, tag: Tag, rest: Template)

  function Opening(kind: Kind): string {
    match kind
    case EscapeTag => "<%-"
    case InterpolateTag => "<%="
    case EvaluateTag => "<%"
  }

  predicate At(text: string, p: nat, s: string) {
    p + |s| <= |text| && text[p..p + |s|] == s
  }

  // Where the first closing %> from p on is.
  function Closing(text: string, p: nat): (k: Option<nat>)
    requires p <= |text|
    ensures k.Some? ==> p <= k.value && At(text, k.value, "%>")
    ensures forall q :: p <= q && (k.Some? ==> q < k.value) ==> !At(text, q, "%>")
    decreases |text| - p
  {
    if p == |text| then None else if At(text, p, "%>") then Some(p) else Closing(text, p + 1)
  }

  // One alternative, tried at p: the body has at least one character, and as few as possible.
  function TagOf(kind: Kind, text: string, p: nat): (t: Option<Tag>)
    requires p <= |text|
    ensures t.Some? ==> t.value.kind == kind && t.value.body != "" && At(text, p, Source(t.value))
  {
    var begin := p + |Opening(kind)|;
    if !At(text, p, Opening(kind)) || begin + 1 > |text| then None else
      match Closing(text, begin + 1)
      case None => None
      case Some(k) =>
        assert text[p..k + 2] == text[p..begin] + text[begin..k] + text[k..k + 2];
        Some(Tag(kind, text[begin..k]))
  }

  function Source(t: Tag): string {
    Opening(t.kind) + t.body + "%>"
  }

  // The alternatives in their order.
  function TagAt(text: string, p: nat): (t: Option<Tag>)
    requires p <= |text|
    ensures t.Some? ==> t.value.body != "" && At(text, p, Source(t.value))
  {
    var escape := TagOf(EscapeTag, text, p);
    var interpolate := TagOf(InterpolateTag, text, p);
    if escape.Some? then escape else if interpolate.Some? then interpolate else TagOf(EvaluateTag, text, p)
  }

  // A tag of this kind with this body stands at p.
  predicate Stands(kind: Kind, text: string, p: nat, body: string) {
    body != "" && At(text, p, Source(Tag(kind, body)))
  }

  lemma ThreeSlices(text: string, p: nat, a: string, b: string, c: string)
    requires At(text, p, a + b + c)
    ensures At(text, p, a) && At(text, p + |a|, b) && At(text, p + |a| + |b|, c)
  {
    FrontAndBack(text, p, a + b, c);
    FrontAndBack(text, p, a, b);
  }

  lemma FrontAndBack(text: string, p: nat, a: string, b: string)
    requires At(text, p, a + b)
    ensures At(text, p, a) && At(text, p + |a|, b)
  {
    var s := text[p..p + |a + b|];
    assert text[p..p + |a|] == s[..|a|] && (a + b)[..|a|] == a;
    assert text[p + |a|..p + |a| + |b|] == s[|a|..] && (a + b)[|a|..] == b;
  }

  lemma StandsCloses(kind: Kind, text: string, p: nat, body: string)
    requires p <= |text| && Stands(kind, text, p, body)
    ensures var begin := p + |Opening(kind)|;
            At(text, p, Opening(kind)) && begin + |body| + 2 <= |text| && At(text, begin + |body|, "%>") &&
            text[begin..begin + |body|] == body
  {
    ThreeSlices(text, p, Opening(kind), body, "%>");
  }

  // An alternative matches if and only if some tag of its kind stands there, and then with the
  // shortest body possible.
  lemma ShortestTag(kind: Kind, text: string, p: nat, body: string)
    requires p <= |text| && Stands(kind, text, p, body)
    ensures TagOf(kind, text, p).Some? && |TagOf(kind, text, p).value.body| <= |body|
    ensures |TagOf(kind, text, p).value.body| == |body| ==> TagOf(kind, text, p).value.body == body
  {
    StandsCloses(kind, text, p, body);
    var begin := p + |Opening(kind)|;
    assert At(text, begin + |body|, "%>") && begin + 1 <= begin + |body|;
  }

  // What is found at p: a tag that stands there, of the first kind possible and with its shortest
  // body; and nothing only if no tag of any kind stands there.
  lemma FirstAlternative(text: string, p: nat, kind: Kind, body: string)
    requires p <= |text|
    ensures Stands(kind, text, p, body) ==>
              var t := TagAt(text, p);
              t.Some? && (t.value.kind == kind ==> |t.value.body| <= |body|) &&
              (t.value.kind != kind ==> t.value.kind.EscapeTag? || kind.EvaluateTag?)
    ensures TagAt(text, p).Some? ==> Stands(TagAt(text, p).value.kind, text, p, TagAt(text, p).value.body)
  {
    hide TagOf, Opening;
    if Stands(kind, text, p, body) {
      ShortestTag(kind, text, p, body);
    }
    if TagOf(EscapeTag, text, p).Some? { KindIs(EscapeTag, text, p); }
    if TagOf(InterpolateTag, text, p).Some? { KindIs(InterpolateTag, text, p); }
    if TagOf(EvaluateTag, text, p).Some? { KindIs(EvaluateTag, text, p); }
  }

  lemma KindIs(kind: Kind, text: string, p: nat)
    requires p <= |text| && TagOf(kind, text, p).Some?
    ensures TagOf(kind, text, p).value.kind == kind && Stands(kind, text, p, TagOf(kind, text, p).value.body)
  {
  }

  // Where the next match from p on begins; the end of the text is the last one.
  function NextMatch(text: string, p: nat): (q: nat)
    requires p <= |text|
    ensures p <= q <= |text| && (q == |text| || TagAt(text, q).Some?)
    ensures forall r :: p <= r < q ==> TagAt(text, r).None?
    decreases |text| - p
  {
    if p == |text| || TagAt(text, p).Some? then p else NextMatch(text, p + 1)
  }

  function Parse(text: string, index: nat): Template
    requires index <= |text|
    decreases |text| - index
  {
    var offset := NextMatch(text, index);
    match TagAt(text, offset)
    case Some(tag) => Then(text[index..offset], tag, Parse(text, offset + |Source(tag)|))
    case None => Last(text[index..offset])
  }

  function Render(t: Template): string {
    match t
    case Last(text) => text
    case Then(text, tag, rest) => text + Source(tag) + Render(rest)
  }

  lemma SourceLength(t: Tag)
    ensures |Source(t)| > 0
  {
  }

  // The pieces cover the text without a gap or an overlap.
  lemma {:induction false} PiecesTile(text: string, index: nat)
    requires index <= |text|
    ensures Render(Parse(text, index)) == text[index..]
    decreases |text| - index
  {
    hide TagAt, Source;
    var offset := NextMatch(text, index);
    match TagAt(text, offset)
    case Some(tag) =>
      SourceLength(tag);
      var next := offset + |Source(tag)|;
      PiecesTile(text, next);
      assert text[index..] == text[index..offset] + text[offset..next] + text[next..];
    case None =>
  }

  // ---- reading back what is rendered

  // An escape or interpolate tag whose body does not end earlier.
  predicate Proper(t: Tag) {
    t.kind != EvaluateTag && t.body != "" && forall q :: 1 <= q < |t.body| ==> !At(t.body + "%>", q, "%>")
  }

  // Proper tags, and texts in which no tag can begin.
  predicate Clear(t: Template) {
    match t
    case Last(text) => '<' !in text
    case Then(text, tag, rest) => '<' !in text && Proper(tag) && Clear(rest)
  }

  predicate AllProper(t: Template) {
    match t case Last(_) => true case Then(_, tag, rest) => Proper(tag) && AllProper(rest)
  }

  lemma BeginsTag(text: string, p: nat, kind: Kind)
    ensures At(text, p, Opening(kind)) ==> p < |text| && text[p] == '<'
  {
    assert At(text, p, Opening(kind)) ==> text[p..p + |Opening(kind)|][0] == text[p];
  }

  lemma NoTagInText(text: string, p: nat)
    requires p <= |text| && (p < |text| ==> text[p] != '<')
    ensures TagAt(text, p).None?
  {
    BeginsTag(text, p, EscapeTag);
    BeginsTag(text, p, InterpolateTag);
    BeginsTag(text, p, EvaluateTag);
  }

  lemma ClosingIs(text: string, p: nat, k: nat)
    requires p <= k && At(text, k, "%>") && forall q :: p <= q < k ==> !At(text, q, "%>")
    ensures Closing(text, p) == Some(k)
  {
  }

  lemma BodyAt(text: string, p: nat, t: Tag, q: nat)
    requires p <= |text| && Stands(t.kind, text, p, t.body) && q < |t.body|
    ensures At(text, p + |Opening(t.kind)| + q, "%>") <==> At(t.body + "%>", q, "%>")
  {
    StandsCloses(t.kind, text, p, t.body);
    var begin, n := p + |Opening(t.kind)|, |t.body|;
    SlicesJoin(text, begin, begin + n, begin + n + 2);
    SliceOfSlice(text, begin, begin + n + 2, q, q + 2);
  }

  lemma SlicesJoin(text: string, a: nat, b: nat, c: nat)
    requires a <= b <= c <= |text|
    ensures text[a..c] == text[a..b] + text[b..c]
  {
  }

  lemma SliceOfSlice(text: string, a: nat, b: nat, i: nat, j: nat)
    requires a <= b <= |text| && i <= j <= b - a
    ensures text[a..b][i..j] == text[a + i..a + j]
  {
    var s, t := text[a..b][i..j], text[a + i..a + j];
    assert |s| == |t|;
    forall k | 0 <= k < |s| ensures s[k] == t[k] {
      assert s[k] == text[a..b][i + k] == text[a + i + k];
    }
  }

  lemma ProperTagFound(text: string, p: nat, t: Tag)
    requires p <= |text| && Proper(t) && Stands(t.kind, text, p, t.body)
    ensures TagAt(text, p) == Some(t)
  {
    StandsCloses(t.kind, text, p, t.body);
    var begin := p + |Opening(t.kind)|;
    forall q | begin + 1 <= q < begin + |t.body|
      ensures !At(text, q, "%>")
    {
      BodyAt(text, p, t, q - begin);
    }
    ClosingIs(text, begin + 1, begin + |t.body|);
    assert TagOf(t.kind, text, p) == Some(t);
    if t.kind == InterpolateTag {
      assert text[p..p + 3][2] == '=';
    }
  }

  lemma FoundIsProper(text: string, p: nat)
    requires p <= |text| && TagAt(text, p).Some? && TagAt(text, p).value.kind != EvaluateTag
    ensures Proper(TagAt(text, p).value)
  {
    var t := TagAt(text, p).value;
    FirstAlternative(text, p, t.kind, t.body);
    var begin := p + |Opening(t.kind)|;
    forall q | 1 <= q < |t.body|
      ensures !At(t.body + "%>", q, "%>")
    {
      BodyAt(text, p, t, q);
    }
  }

  lemma NextMatchIs(text: string, p: nat, q: nat)
    requires p <= q <= |text| && (q == |text| || TagAt(text, q).Some?)
    requires forall r :: p <= r < q ==> TagAt(text, r).None?
    ensures NextMatch(text, p) == q
  {
    hide TagAt;
  }

  // What such a template renders to is parsed to the same template.
  lemma {:induction false} ParsesBack(u: Template, text: string, index: nat)
    requires Clear(u) && index <= |text| && text[index..] == Render(u)
    ensures Parse(text, index) == u
    decreases u
  {
    hide TagAt, Source, NextMatch, Proper, Stands;
    var offset := index + |u.text|;
    assert text[index..offset] == Render(u)[..|u.text|] == u.text;
    forall r | index <= r < offset
      ensures TagAt(text, r).None?
    {
      assert text[r] == u.text[r - index];
      NoTagInText(text, r);
    }
    match u
    case Last(_) =>
      NoTagInText(text, offset);
    case Then(_, tag, rest) =>
      var next := offset + |Source(tag)|;
      assert text[index..][|u.text|..] == text[offset..] == Source(tag) + Render(rest);
      assert text[offset..next] == text[offset..][..|Source(tag)|] == Source(tag);
      assert text[next..] == text[offset..][|Source(tag)|..] == Render(rest);
      StandsWhere(tag, text, offset);
      ProperTagFound(text, offset, tag);
      ParsesBack(rest, text, next);
    NextMatchIs(text, index, offset);
  }

  lemma StandsWhere(t: Tag, text: string, p: nat)
    requires Proper(t) && p + |Source(t)| <= |text| && text[p..p + |Source(t)|] == Source(t)
    ensures Stands(t.kind, text, p, t.body)
  {
    assert Tag(t.kind, t.body) == t;
  }
}
