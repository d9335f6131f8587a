/**
  Parsing an identifier, with the KDL v2 grammar first and, when the
  `v1-fallback` feature is on, the KDL v1 grammar second.

  Neither grammar is part of this model. The v2 identifier rule, the v1
  parser's `FromStr`, and the conversion of a v1 error into a `KdlError` are
  parameters bundled in `Grammars`; what is modelled and proved is the logic
  that combines them: which result wins, which error surfaces, and how a v1
  identifier becomes a v2 one.
 */
module Parsing {
  import opened Results
  import opened Identifier

  /** `KdlError`, kept opaque: a message and where it points. */
  datatype KdlError = KdlError(message: string, span: Span)

  /** The v1 parser's error type, kept opaque. */
  datatype V1Error = V1Error(message: string)

  /** The v1 crate's span: an offset and a length. */
  datatype V1Span = V1Span(offset: nat, length: nat)

  /** The v1 crate's identifier: value, optional spelling, span. */
  datatype V1Identifier = V1Identifier(value: string, repr: Option<string>, span: V1Span)

  /** The collaborators the parse entry points call without seeing inside. */
  datatype Grammars = Grammars(
    v2: string -> Result<KdlIdentifier, KdlError>,  // v2 identifier rule run over the whole input
    v1: string -> Result<V1Identifier, V1Error>,     // the v1 crate's identifier `FromStr`
    v1ErrorInto: V1Error -> KdlError                 // `From<v1 KdlError> for KdlError`
  )

  /** The compile-time features that change parsing. */
  datatype Features = Features(v1Fallback: bool)

  /** `From<v1 KdlIdentifier>`: copies the value and the spelling, and
      rebuilds the span from the v1 span's offset and length. */
  function FromV1(v: V1Identifier): (id: KdlIdentifier)
    ensures id.value == v.value && id.repr == v.repr
    ensures id.span.offset == v.span.offset && id.span.length == v.span.length
  {
    KdlIdentifier(v.value, v.repr, Span(v.span.offset, v.span.length))
  }

  /** The conversion loses nothing: distinct v1 identifiers stay distinct,
      and equality of the results is equality of value and spelling. */
  lemma FromV1Lossless(v: V1Identifier, w: V1Identifier)
    ensures FromV1(v) == FromV1(w) <==> v == w
    ensures Equal(FromV1(v), FromV1(w)) <==> v.value == w.value && v.repr == w.repr
  {
  }

  /** `parse_v1`: the v1 parser's answer, its identifier converted with
      `FromV1` and its error with `v1ErrorInto`. */
  function ParseV1(s: string, g: Grammars): (r: Result<KdlIdentifier, KdlError>)
    ensures r.Ok? <==> g.v1(s).Ok?
    ensures r.Ok? ==> r.value == FromV1(g.v1(s).value)
    ensures r.Err? ==> r.error == g.v1ErrorInto(g.v1(s).error)
  {
    g.v1(s).Map(FromV1).MapErr(g.v1ErrorInto)
  }

  /** `parse`: the v2 result when v2 succeeds or when the fallback is off;
      otherwise the converted v1 identifier if v1 succeeds, and the v2 error
      if it does not. */
  function Parse(s: string, g: Grammars, features: Features): (r: Result<KdlIdentifier, KdlError>)
    ensures g.v2(s).Ok? ==> r == g.v2(s)
    ensures !features.v1Fallback ==> r == g.v2(s)
    ensures r.Ok? <==> g.v2(s).Ok? || (features.v1Fallback && g.v1(s).Ok?)
    ensures features.v1Fallback && g.v2(s).Err? && g.v1(s).Ok? ==> r == Ok(FromV1(g.v1(s).value))
    ensures r.Err? ==> r == g.v2(s)
  {
    if !features.v1Fallback then
      g.v2(s)
    else
      g.v2(s).OrElse(e => ParseV1(s, g).MapErr(_ => e))
  }

  /** `FromStr::from_str` is `parse`. */
  function FromStr(s: string, g: Grammars, features: Features): (r: Result<KdlIdentifier, KdlError>)
    ensures r == Parse(s, g, features)
  {
    Parse(s, g, features)
  }

  /** Turning the fallback on only turns some v2 failures into successes:
      every v2 success is kept as it was, and every failure that remains is
      the very error the fallback-free parse reports. */
  lemma FallbackOnlyAddsSuccesses(s: string, g: Grammars)
    ensures Parse(s, g, Features(false)).Ok? ==> Parse(s, g, Features(true)) == Parse(s, g, Features(false))
    ensures Parse(s, g, Features(true)).Err? ==> Parse(s, g, Features(true)) == Parse(s, g, Features(false))
    ensures Parse(s, g, Features(true)).Ok? && Parse(s, g, Features(false)).Err? <==>
              g.v2(s).Err? && g.v1(s).Ok?
  {
  }

  /** `parse_v1` is exactly the fallback branch of `parse`: once v2 has
      rejected the input, the fallback parse succeeds if and only if
      `parse_v1` does, and then with the same identifier; when `parse_v1`
      fails, its error is replaced by the v2 error. */
  lemma ParseV1IsTheFallback(s: string, g: Grammars)
    requires g.v2(s).Err?
    ensures Parse(s, g, Features(true)).Ok? <==> ParseV1(s, g).Ok?
    ensures ParseV1(s, g).Ok? ==> Parse(s, g, Features(true)) == ParseV1(s, g)
    ensures ParseV1(s, g).Err? ==> Parse(s, g, Features(true)) == Err(g.v2(s).error)
  {
  }

  /** When both grammars accept the input, the v2 reading wins, even if the
      v1 reading decodes a different value. */
  lemma V2TakesPrecedence(s: string, g: Grammars, features: Features)
    requires g.v2(s).Ok? && g.v1(s).Ok?
    ensures Parse(s, g, features) == g.v2(s)
  {
  }

  /** When both grammars reject the input, the v2 error is returned and the
      v1 error is discarded, with or without the fallback. */
  lemma V2ErrorShadowsV1Error(s: string, g: Grammars, features: Features)
    requires g.v2(s).Err? && g.v1(s).Err?
    ensures Parse(s, g, features) == Err(g.v2(s).error)
  {
  }

  /** A grammar keeps spellings when every identifier it accepts carries
      the accepted text as its `repr`. */
  ghost predicate KeepsSpelling(g: Grammars) {
    && (forall t :: g.v2(t).Ok? ==> g.v2(t).value.repr == Some(t))
    && (forall t :: g.v1(t).Ok? ==> g.v1(t).value.repr == Some(t))
  }

  /** Lossless round trip: if both grammars keep spellings, rendering a
      parsed identifier reproduces the parsed text, also after its span or
      its value has been changed, because neither touches the spelling. */
  lemma ParseThenRender(s: string, g: Grammars, features: Features, v: string, sp: Span, quote: string -> string)
    requires KeepsSpelling(g)
    requires Parse(s, g, features).Ok?
    ensures Render(Parse(s, g, features).value, quote) == s
    ensures Render(SetSpan(Parse(s, g, features).value, sp), quote) == s
    ensures Render(SetValue(Parse(s, g, features).value, v), quote) == s
  {
  }

  /** Auto-formatting yields re-readable text: if every string-literal
      rendering `quote(v)` is a v2 identifier decoding back to `v`, then
      after the format reset the rendered identifier parses back to an
      identifier with the same value, and it does so through v2. */
  lemma AutoformatReparses(id: KdlIdentifier, g: Grammars, features: Features, quote: string -> string)
    requires forall v :: g.v2(quote(v)).Ok? && g.v2(quote(v)).value.value == v
    ensures Parse(Render(Autoformat(id), quote), g, features).Ok?
    ensures Parse(Render(Autoformat(id), quote), g, features).value.value == id.value
    ensures Parse(Render(Autoformat(id), quote), g, features) == g.v2(quote(id.value))
  {
  }
}
