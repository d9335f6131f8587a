/**
  The KDL identifier value type: a decoded name, the optional verbatim
  spelling it was read from, and the source span it came from.

  Equality and hashing look at the name and the spelling only; the span is
  provenance, not identity. Rendering prefers the verbatim spelling and
  otherwise re-derives one from the name with the string-literal quoting
  rule, which this model takes as a parameter `quote`.
 */
module Identifier {
  import opened Results
  import Utf8

  /** `miette::SourceSpan`: a byte offset and a byte length. */
  datatype Span = Span(offset: nat, length: nat)

  /** The span of a programmatically built identifier, `SourceSpan::from(0..0)`. */
  const EmptySpan: Span := Span(0, 0)

  /** `KdlIdentifier`: decoded `value`, optional verbatim `repr`, and `span`. */
  datatype KdlIdentifier = KdlIdentifier(value: string, repr: Option<string>, span: Span)

  // ---------------------------------------------------------------------
  // PartialEq and Hash
  // ---------------------------------------------------------------------

  /** `PartialEq`: same decoded value and same verbatim spelling; the span
      is deliberately not compared. */
  function Equal(a: KdlIdentifier, b: KdlIdentifier): (eq: bool)
    ensures eq <==> a.(span := b.span) == b
  {
    a.value == b.value && a.repr == b.repr
  }

  /** Equality is plain structural equality once the span is forgotten:
      two identifiers are equal exactly when giving them the same span makes
      them identical records. */
  lemma EqualIffSameUpToSpan(a: KdlIdentifier, b: KdlIdentifier)
    ensures Equal(a, b) <==> a.(span := b.span) == b
  {
  }

  /** `Equal` is an equivalence relation (which is what `Eq` promises). */
  lemma EqualIsEquivalence()
    ensures forall a: KdlIdentifier :: Equal(a, a)
    ensures forall a: KdlIdentifier, b: KdlIdentifier :: Equal(a, b) ==> Equal(b, a)
    ensures forall a: KdlIdentifier, b: KdlIdentifier, c: KdlIdentifier ::
              Equal(a, b) && Equal(b, c) ==> Equal(a, c)
  {
  }

  /** The spelling is part of identity: identifiers with the same decoded
      value but different spellings are not equal. For instance a bare `foo`
      and a quoted `"foo"` both decode to `foo`, yet differ. */
  lemma SpellingIsPartOfIdentity(a: KdlIdentifier, b: KdlIdentifier)
    requires a.value == b.value && a.repr != b.repr
    ensures !Equal(a, b)
  {
  }

  /** One item written into a `Hasher`: a whole string, or an enum
      discriminant (`None` is 0, `Some` is 1). */
  datatype HashWord = Str(s: string) | Discriminant(d: nat)

  /** What `Hash::hash` writes into the hasher: the value, then the
      optional spelling; never the span. */
  function HashFeed(id: KdlIdentifier): (feed: seq<HashWord>)
    ensures |feed| == if id.repr.None? then 2 else 3
    ensures feed[0] == Str(id.value)
    ensures feed[1] == Discriminant(if id.repr.None? then 0 else 1)
    ensures id.repr.Some? ==> feed[2] == Str(id.repr.value)
  {
    [Str(id.value)] +
    match id.repr
    case None => [Discriminant(0)]
    case Some(r) => [Discriminant(1), Str(r)]
  }

  /** The hash a given `Hasher` finishes with after being fed `id`. */
  function Hash<H>(id: KdlIdentifier, hasher: seq<HashWord> -> H): (h: H)
    ensures h == hasher(HashFeed(KdlIdentifier(id.value, id.repr, EmptySpan)))
  {
    hasher(HashFeed(id))
  }

  /** The hasher sees exactly the pair (value, repr): two identifiers feed
      the same words if and only if they are equal. */
  lemma HashFeedIffEqual(a: KdlIdentifier, b: KdlIdentifier)
    ensures HashFeed(a) == HashFeed(b) <==> Equal(a, b)
  {
  }

  /** Hash is consistent with equality, whatever the hasher and whatever
      the spans. */
  lemma EqualImpliesEqualHash<H>(a: KdlIdentifier, b: KdlIdentifier, hasher: seq<HashWord> -> H)
    requires Equal(a, b)
    ensures Hash(a, hasher) == Hash(b, hasher)
  {
    HashFeedIffEqual(a, b);
  }

  // ---------------------------------------------------------------------
  // Setters and the format reset
  // ---------------------------------------------------------------------

  /** `set_value`: replaces the decoded value only. */
  function SetValue(id: KdlIdentifier, value: string): (r: KdlIdentifier)
    ensures r.value == value
    ensures r.repr == id.repr && r.span == id.span
  {
    id.(value := value)
  }

  /** `set_repr`: installs a custom spelling only. */
  function SetRepr(id: KdlIdentifier, repr: string): (r: KdlIdentifier)
    ensures r.repr == Some(repr)
    ensures r.value == id.value && r.span == id.span
  {
    id.(repr := Some(repr))
  }

  /** `set_span`: replaces the span only. */
  function SetSpan(id: KdlIdentifier, span: Span): (r: KdlIdentifier)
    ensures r.span == span
    ensures r.value == id.value && r.repr == id.repr
  {
    id.(span := span)
  }

  /** `clear_format`: drops the custom spelling so rendering re-derives one. */
  function ClearFormat(id: KdlIdentifier): (r: KdlIdentifier)
    ensures r.repr == None
    ensures r.value == id.value && r.span == id.span
  {
    id.(repr := None)
  }

  /** `autoformat`: has the same effect as `clear_format`. */
  function Autoformat(id: KdlIdentifier): (r: KdlIdentifier)
    ensures r.repr == None
    ensures r.value == id.value && r.span == id.span
  {
    id.(repr := None)
  }

  /** Getter/setter laws: a setter's field reads back, the last write to a
      field wins, writing a field's current content changes nothing, and
      setters of different fields commute. */
  lemma SetterLaws(id: KdlIdentifier, v: string, w: string, r: string, q: string, s: Span, t: Span)
    ensures SetValue(SetValue(id, v), w) == SetValue(id, w)
    ensures SetRepr(SetRepr(id, r), q) == SetRepr(id, q)
    ensures SetSpan(SetSpan(id, s), t) == SetSpan(id, t)
    ensures SetValue(id, id.value) == id
    ensures SetSpan(id, id.span) == id
    ensures id.repr == Some(r) ==> SetRepr(id, r) == id
    ensures SetValue(SetRepr(id, r), v) == SetRepr(SetValue(id, v), r)
    ensures SetValue(SetSpan(id, s), v) == SetSpan(SetValue(id, v), s)
    ensures SetRepr(SetSpan(id, s), r) == SetSpan(SetRepr(id, r), s)
  {
  }

  /** How each setter affects equality: moving the span never does; a new
      value or spelling keeps the identifier equal to itself exactly when it
      is the one already there. */
  lemma SettersAndEquality(id: KdlIdentifier, v: string, r: string, s: Span)
    ensures Equal(SetSpan(id, s), id)
    ensures Equal(SetValue(id, v), id) <==> v == id.value
    ensures Equal(SetRepr(id, r), id) <==> id.repr == Some(r)
    ensures Equal(ClearFormat(id), id) <==> id.repr == None
  {
  }

  /** The format reset: idempotent, the same as `autoformat`, and it erases
      any spelling set before it. */
  lemma ClearFormatLaws(id: KdlIdentifier, r: string)
    ensures ClearFormat(ClearFormat(id)) == ClearFormat(id)
    ensures Autoformat(Autoformat(id)) == Autoformat(id)
    ensures Autoformat(id) == ClearFormat(id)
    ensures ClearFormat(SetRepr(id, r)) == ClearFormat(id)
    ensures SetRepr(ClearFormat(id), r) == SetRepr(id, r)
  {
  }

  // ---------------------------------------------------------------------
  // Display, len and is_empty
  // ---------------------------------------------------------------------

  /** `Display`: the verbatim spelling when there is one, otherwise the
      decoded value rendered as a KDL string literal by `quote`. */
  function Render(id: KdlIdentifier, quote: string -> string): (text: string)
    ensures id.repr.Some? ==> text == id.repr.value
    ensures id.repr.None? ==> text == quote(id.value)
  {
    match id.repr
    case Some(r) => r
    case None => quote(id.value)
  }

  /** Rendering respects equality: equal identifiers print the same text,
      so in particular the span never shows. */
  lemma RenderRespectsEqual(a: KdlIdentifier, b: KdlIdentifier, quote: string -> string)
    requires Equal(a, b)
    ensures Render(a, quote) == Render(b, quote)
  {
  }

  /** With a custom spelling in place, changing the decoded value does not
      change what is printed; clearing the format makes the output a
      function of the value alone. */
  lemma RenderAndSetters(id: KdlIdentifier, v: string, r: string, quote: string -> string)
    ensures id.repr.Some? ==> Render(SetValue(id, v), quote) == Render(id, quote)
    ensures Render(SetRepr(id, r), quote) == r
    ensures Render(ClearFormat(id), quote) == quote(id.value)
    ensures Render(ClearFormat(SetValue(id, v)), quote) == quote(v)
  {
  }

  /** `len`: the byte length of the rendered text, not of the value. */
  function Len(id: KdlIdentifier, quote: string -> string): (n: nat)
    ensures n == Utf8.ByteLength(Render(id, quote))
    ensures |Render(id, quote)| <= n <= 4 * |Render(id, quote)|
  {
    Utf8.ByteLength(Render(id, quote))
  }

  /** `is_empty`: holds exactly when nothing would be rendered. */
  function IsEmpty(id: KdlIdentifier, quote: string -> string): (b: bool)
    ensures b <==> Len(id, quote) == 0
    ensures b <==> Render(id, quote) == []
    ensures b <==> (if id.repr.Some? then id.repr.value == [] else quote(id.value) == [])
  {
    Len(id, quote) == 0
  }

  /** `len` and `is_empty` depend on the rendering only: equal identifiers
      have equal lengths, and a custom spelling fixes the length whatever
      the value. */
  lemma LenFollowsRendering(a: KdlIdentifier, b: KdlIdentifier, v: string, quote: string -> string)
    requires Equal(a, b)
    ensures Len(a, quote) == Len(b, quote)
    ensures IsEmpty(a, quote) == IsEmpty(b, quote)
    ensures a.repr.Some? ==> Len(SetValue(a, v), quote) == Len(a, quote)
  {
  }

  // ---------------------------------------------------------------------
  // Conversions to and from plain strings
  // ---------------------------------------------------------------------

  /** `From<&str>` and `From<String>`: the text becomes the value verbatim,
      with no custom spelling and an empty span. */
  function FromString(s: string): (id: KdlIdentifier)
    ensures id.value == s
    ensures id.repr == None
    ensures id.span == EmptySpan
  {
    KdlIdentifier(s, None, EmptySpan)
  }

  /** `From<KdlIdentifier> for String`: the decoded value; spelling and span
      are dropped. */
  function IntoString(id: KdlIdentifier): (s: string)
    ensures s == id.value
  {
    id.value
  }

  /** string -> identifier -> string is the identity, and identifier ->
      string -> identifier gives back an equal identifier exactly when the
      identifier carried no custom spelling. */
  lemma StringRoundTrip(s: string, id: KdlIdentifier)
    ensures IntoString(FromString(s)) == s
    ensures Equal(FromString(IntoString(id)), id) <==> id.repr == None
    ensures FromString(IntoString(id)) == ClearFormat(SetSpan(id, EmptySpan))
  {
  }

  /** Identifiers built from plain text render through `quote`, and setting
      a custom spelling on one prints that spelling verbatim, whatever the
      quoting rule: `"foo"` with spelling `"foo/bar"` (quotes included)
      prints as that nine-byte text. */
  lemma CustomSpellingExample(quote: string -> string)
    ensures Render(FromString("foo"), quote) == quote("foo")
    ensures Render(SetRepr(FromString("foo"), "\"foo/bar\""), quote) == "\"foo/bar\""
    ensures Len(SetRepr(FromString("foo"), "\"foo/bar\""), quote) == 9
  {
    var text := "\"foo/bar\"";
    assert Utf8.IsAscii(text);
    Utf8.ByteLengthAsciiIff(text);
  }
}
