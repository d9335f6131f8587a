# KDL identifier: a Dafny model

This project models `KdlIdentifier` from kdl-rs. It is the name token of the KDL document language, used for node names and property keys. An identifier holds three things:

- its decoded `value`;
- an optional verbatim `repr`, the exact text it was read from;
- a `span`, the byte range of that text.

The model covers structural equality and hashing, which ignore the span. It covers the setters and the format reset, rendering (`Display`), and `len`/`is_empty`. It covers conversion to and from plain strings and from a KDL v1 identifier. It also covers the parse entry point: it tries the KDL v2 grammar first and, when the `v1-fallback` feature is on, the KDL v1 grammar second.

Files and modules:

- `results.dfy` (`Results`): Rust's `Option` and `Result`, with `or_else`, `map` and `map_err`.
- `utf8.dfy` (`Utf8`): `str::len`, the UTF-8 byte count of a string.
- `identifier.dfy` (`Identifier`): the record, `PartialEq`/`Hash`, the setters, `clear_format`/`autoformat`, `Display`, `len`/`is_empty`, and the string conversions.
- `parsing.dfy` (`Parsing`): the v1 identifier, `From<v1 identifier>`, `parse_v1`, `parse` and `FromStr`.

The identifier code calls three collaborators defined elsewhere in kdl-rs or in the v1 crate. None of them is part of this model; each becomes a parameter:

- the v2 identifier grammar (`Grammars.v2`);
- the v1 crate's identifier parser (`Grammars.v1`);
- the conversion of a v1 error into a `KdlError` (`Grammars.v1ErrorInto`).

Two further pieces are parameters too:

- The string-literal quoting used by `Display` is a parameter `quote: string -> string`.
- Rust's `Hasher` is a parameter `hasher` that is applied to the words `Hash::hash` writes.

The three compile-time features are handled as follows:

- `v1-fallback` becomes the boolean `Features.v1Fallback`.
- `v1` is treated as always on, so `parse_v1` and the conversion from a v1 identifier are always present.
- `span` is always present in the record. `FromString`, `FromV1` and `SetSpan` write it. No result other than the span field itself depends on it: equality, hashing, rendering, `len` and the conversion into a string never read it.

## Model

| member | source | states |
|---|---|---|
| `Identifier.Equal` | src/identifier.rs:17-22 | `PartialEq::eq` holds exactly when the two records become identical once given the same span. |
| `Identifier.EqualIffSameUpToSpan` | src/identifier.rs:17-22 | Two identifiers are equal exactly when they become the same record once given the same span. The span is the only field equality ignores. |
| `Identifier.EqualIsEquivalence` | src/identifier.rs:9-22 | Equality is reflexive, symmetric and transitive, as `derive(Eq)` on top of the hand-written `PartialEq` promises. |
| `Identifier.SpellingIsPartOfIdentity` | src/identifier.rs:17-22 | Any two identifiers with the same decoded value but different spellings are not equal, because the spelling is compared too. A bare `foo` and a quoted `"foo"` are one such pair. |
| `Identifier.HashFeed` | src/identifier.rs:24-30 | The hasher is fed the value first, then the `Option` discriminant of the spelling, then the spelling itself when there is one. The span is never fed. |
| `Identifier.Hash` | src/identifier.rs:24-30 | The hash is the hasher's output on the words fed for the value and the spelling. It is the same as for the same value and spelling with the empty span, so the span never affects it. |
| `Identifier.HashFeedIffEqual` | src/identifier.rs:17-30 | Two identifiers feed the hasher the same words if and only if they are equal. Hashing therefore sees exactly (value, repr). |
| `Identifier.EqualImpliesEqualHash` | src/identifier.rs:17-30 | Equal identifiers hash equal under every hasher, whatever their spans. |
| `Identifier.SetValue` | src/identifier.rs:38-41 | `set_value` installs the new value and leaves the spelling and the span as they were. |
| `Identifier.SetSpan` | src/identifier.rs:53-57 | `set_span` installs the new span and leaves the value and the spelling as they were. |
| `Identifier.SetRepr` | src/identifier.rs:64-67 | `set_repr(r)` makes the spelling `Some(r)` and leaves the value and the span as they were. |
| `Identifier.SetterLaws` | src/identifier.rs:38-67 | Each setter's field reads back what was written, and the last write to a field wins. Writing a field's current content changes nothing. Setters of different fields commute. |
| `Identifier.SettersAndEquality` | src/identifier.rs:17-22 | Moving the span keeps an identifier equal to itself. A new value, a new spelling or a format reset keeps it equal exactly when the field already had that content. |
| `Identifier.ClearFormat` | src/identifier.rs:79-84 | `clear_format` removes the custom spelling and keeps the value and the span. |
| `Identifier.Autoformat` | src/identifier.rs:86-89 | `autoformat` removes the custom spelling and keeps the value and the span. |
| `Identifier.ClearFormatLaws` | src/identifier.rs:79-89 | Both resets are idempotent and have the same effect. A reset erases any spelling set before it. Setting a spelling after a reset is the same as setting it without the reset. |
| `Identifier.Render` | src/identifier.rs:129-137 | When there is a custom spelling, it is printed verbatim. Otherwise the value is printed through the string-literal quoting rule. |
| `Identifier.RenderRespectsEqual` | src/identifier.rs:129-137 | Equal identifiers print the same text. In particular, the span never affects the output. |
| `Identifier.RenderAndSetters` | src/identifier.rs:129-137 | While a custom spelling is present, changing the value does not change the output. After `set_repr(r)` the output is `r`. After a format reset the output depends on the value alone. |
| `Identifier.Len` | src/identifier.rs:69-72 | `len` is the UTF-8 byte length of the rendered text, not of the value. It lies between one and four times the rendered character count. |
| `Identifier.IsEmpty` | src/identifier.rs:74-77 | `is_empty` holds exactly when `len` is 0. That is exactly when nothing is rendered: the custom spelling is empty, or, with no spelling, the quoted value is empty. |
| `Identifier.LenFollowsRendering` | src/identifier.rs:69-77 | Equal identifiers have equal `len` and `is_empty`. While a custom spelling is present, changing the value does not change `len`. |
| `Identifier.FromString` | src/identifier.rs:139-159 | Converting from `&str` or `String` keeps the text as the value, with no spelling and the empty span `0..0`. |
| `Identifier.IntoString` | src/identifier.rs:161-165 | Converting into `String` yields the decoded value. The spelling and the span are dropped. |
| `Identifier.StringRoundTrip` | src/identifier.rs:139-165 | Going string → identifier → string is the identity. Going identifier → string → identifier gives an equal identifier exactly when there was no custom spelling. Otherwise it gives the identifier with its spelling cleared and its span emptied. |
| `Identifier.CustomSpellingExample` | src/identifier.rs:216-225 | An identifier built from `"foo"` renders through the quoting rule. After `set_repr("\"foo/bar\"")` it renders that text verbatim, 9 bytes long, whatever the quoting rule. |
| `Utf8.Width` | src/identifier.rs:71 | A character takes 1 byte below U+0080, 2 bytes below U+0800, 3 bytes below U+10000 and 4 bytes above, as UTF-8 (section 3 of RFC 3629) encodes it. |
| `Utf8.ByteLength` | src/identifier.rs:70-72 | The byte count of a string is at least its character count and at most four times it. It is 0 exactly for the empty string. |
| `Utf8.ByteLengthAsciiIff` | src/identifier.rs:70-72 | The byte count equals the character count if and only if every character is ASCII. |
| `Parsing.FromV1` | src/identifier.rs:117-127 | A v1 identifier converts by copying its value and its spelling, and by rebuilding the span from its offset and length. |
| `Parsing.FromV1Lossless` | src/identifier.rs:117-127 | Distinct v1 identifiers convert to distinct identifiers. Two converted identifiers are equal exactly when the v1 values and spellings are equal. |
| `Parsing.ParseV1` | src/identifier.rs:109-114 | `parse_v1` succeeds exactly when the v1 parser does. A success is the converted v1 identifier, and a failure is the converted v1 error. |
| `Parsing.Parse` | src/identifier.rs:91-107 | A v2 success is returned unchanged, and without the fallback the v2 result is returned as is. With the fallback, v2 failure plus v1 success gives the converted v1 identifier. Parsing succeeds exactly when v2 succeeds or the fallback is on and v1 succeeds. Any error returned is the v2 error. |
| `Results.Result.OrElse` | src/identifier.rs:105 | `or_else` passes a success through unchanged and replaces an error by what the handler returns for it. |
| `Results.Result.Map` | src/identifier.rs:113 | `map` succeeds exactly when its input does, applies the function to a success and keeps an error unchanged. |
| `Results.Result.MapErr` | src/identifier.rs:105 | `map_err` succeeds exactly when its input does, keeps a success unchanged and applies the function to an error. |
| `Parsing.ParseV1IsTheFallback` | src/identifier.rs:104-114 | Once v2 has rejected the input, the fallback parse succeeds exactly when `parse_v1` does, and then gives the same identifier. When `parse_v1` fails, its error is replaced by the v2 error. |
| `Parsing.FromStr` | src/identifier.rs:167-173 | `from_str` returns exactly what `parse` returns. |
| `Parsing.FallbackOnlyAddsSuccesses` | src/identifier.rs:97-107 | Turning the fallback on keeps every v2 success as it was. Every failure that remains is the same error the fallback-free parse reports. The results differ exactly when v2 fails and v1 succeeds. |
| `Parsing.V2TakesPrecedence` | src/identifier.rs:104-105 | When both grammars accept the input, the v2 reading is returned, even if the v1 reading decodes differently. |
| `Parsing.V2ErrorShadowsV1Error` | src/identifier.rs:91-107 | When both grammars reject the input, the v2 error is returned and the v1 error is discarded, with or without the fallback. |
| `Parsing.ParseThenRender` | src/identifier.rs:97-107 | Suppose both grammars store the accepted text as the spelling. Then rendering a parsed identifier reproduces the input. This still holds after `set_span` or `set_value`. |
| `Parsing.AutoformatReparses` | src/identifier.rs:79-89 | Suppose every quoted rendering `quote(v)` is read back by v2 as the value `v`. Then an auto-formatted identifier renders to text that parses, through v2, to the same value. |

## Left out

- The v2 identifier grammar and the v1 crate's parser are not part of this model. They are parameters of type `string -> Result<…>`. So the parsing tests (src/identifier.rs:179-213) cannot be proved. Examples are the rejection of `123`, `   space   ` and `"x`, and the decoding of `"foo\"bar"`. `ParseThenRender` and `AutoformatReparses` state their assumptions about the grammars as preconditions instead.
- The string-literal quoting algorithm behind `KdlValue::String`'s `Display` is not part of this model. It is the parameter `quote`. So the formatting tests that depend on it (src/identifier.rs:217-221: `foo` printing bare, `foo"bar` printing quoted and escaped) are not proved. The quoting-independent test (src/identifier.rs:223-225) is `CustomSpellingExample`.
- Identifier.HashFeed: each string is one hash word. Rust writes a string's bytes followed by a `0xff` terminator. The abstraction keeps the property that matters: the words determine (value, repr) and nothing else.
- `KdlError` and the v1 error are opaque records. Their diagnostics and the details of the v1-to-v2 error conversion are not modelled, because only which error is returned matters here.
- `miette::SourceSpan` is an (offset, length) pair of naturals, with no bounds against the source text.
- Identifier.Len: the `usize` width of `len` is not modelled. The byte count is an unbounded natural, and overflow would need a string longer than memory.
- The getters `value()`, `repr()` and `span()` are the record's field selectors and have no separate members.
- `From<&str>` and `From<String>` are one member, `FromString`, because both make the same record from the same text.
- When the `span` feature is off, the field is absent in Rust. The model keeps it. `FromString`, `FromV1` and `SetSpan` write it, and no other result depends on it.
- The `v1` feature is treated as always on. The build without it, where `parse_v1` and the conversion from a v1 identifier do not exist, is not modelled separately, because it only removes members.
