# qsdump entity serialiser, modelled in Dafny

`qsdump` turns a Wikidata entity dump into QuickStatements-style text: one
tab-separated line per label, description, alias, statement and site link of each
entity. This project models the part that turns one decoded entity into that text
(`writeEntity` and the writers it calls) and proves what the text says about the entity.

The model follows the program's structure, one module per layer:

- `Wikibase` (wikibase.dfy): the entity records as immutable datatypes. Go maps that
  the serialiser iterates (labels, descriptions, aliases, claims, site links) are
  sequences in iteration order. Go maps it only looks keys up in (qualifiers, reference
  snaks) are Dafny maps read through their `…Order` lists. A nil field is `None`.
- `Quoting` (quoting.dfy): `writeQuotedString`, plus a decoder that is its exact inverse.
- `Text` (text.dfy): decimal numerals (`strconv.FormatUint`/`ParseUint`), byte-wise
  string order, and tab/newline joining and splitting.
- `Sorting` (sorting.dfy): one insertion sort that stands for every `sort.Slice` and
  `sort.Strings` call. Its contract is "sorted and a permutation", which is all Go's
  unstable sort promises.
- `Values` (values.dfy): `writeSnak`, `writeValue` and `writeQuantity`, plus a decoder
  that recovers from each literal exactly the information it carries.
- `Lines` (lines.dfy): output as a list of lines of fields, the renderer that joins
  them with tabs and newlines, and a parser that inverts it.
- `Statements` (statements.dfy): `writeStatement` and `writeReference`, covering rank
  markers, qualifier pairs and reference pairs with their `!` marker.
- `Claims` (claims.dfy): `writeClaims`, which collects the `P` keys, parses their
  numbers, sorts by number and by rank, and writes the statements under a canonical
  `P<n>`.
- `Entities` (entities.dfy): `writeLangValues`, `writeAliases`, `writeSiteLinks` and
  `writeEntity`, covering section order, per-section sorting and decodability of the
  whole output.
- `Scenarios` (scenarios.dfy): worked examples on concrete entities.

Wherever the source would panic, the model has a precondition. This covers:

- a claim key that is empty;
- a value snak without a datatype, or without a data value where one is read;
- a reached reference snak whose property id is empty.

The rank sort compares the library's rank constants, whose values are not part of this
model. The sort key is therefore a parameter, `rankKey: Rank -> int`.

Three behaviours of the code are easy to misread, and the model keeps them as written:

- **The `!` marker.** `writeReference` (entities.go:177-195) writes `!` only before the
  snak at position 0 of the first key in `SnaksOrder` (`i == 0 && j == 0`), and only when
  the reference is not the statement's first. A reference whose first key has no snaks
  is written without any `!`. Positions count references, not written references, so
  when the first reference is dropped the second still gets its `!`.
- **Rank order.** `writeClaims` (entities.go:111-113) sorts each claim's statements by
  comparing the raw values of the rank constants, so the order is whatever those
  values give.
- **Quoting never fails.** `writeQuotedString` (entities.go:308-325) returns an error
  only when a write to its `bytes.Buffer` fails, which never happens, so the model's
  encoder is a total function.

## Model

| member | source | states |
|---|---|---|
| Quoting.Quote | cmd/qsdump/entities.go:308-325 | a quoted literal starts and ends with `"`, and no character between them is a quote or a control character |
| Quoting.UnquoteQuote | cmd/qsdump/entities.go:308-325 | decoding a quoted literal gives back the original text, whatever it contains |
| Quoting.QuoteUnquote | cmd/qsdump/entities.go:308-325 | every string the decoder accepts is the quoted literal of what it decodes to; the decoder accepts exactly the encoder's outputs |
| Quoting.QuoteInjective | cmd/qsdump/entities.go:308-325 | two texts with the same quoted literal are equal |
| Quoting.Hex4RoundTrip | cmd/qsdump/entities.go:313-314 | the four lower-case hex digits written for an escaped code point read back as that code point |
| Quoting.Hex4Canonical | cmd/qsdump/entities.go:313-314 | any four lower-case hex digits are the `%04x` rendering of their value |
| Quoting.EscapeBodyPlain | cmd/qsdump/entities.go:312-320 | text with no control character, quote or backslash is copied unchanged |
| Quoting.EscapeBodyConcat | cmd/qsdump/entities.go:312-320 | each code point is escaped independently of its neighbours |
| Text.ParseUint64 | cmd/qsdump/entities.go:100 | a base-10 parse succeeds exactly on non-empty all-digit text below 2^64, and yields its value |
| Text.FormatDigitsValue | cmd/qsdump/entities.go:116 | a canonical numeral (no leading zero) is what FormatUint writes for its value |
| Text.ParseFormat | cmd/qsdump/entities.go:100-116 | parsing the formatted number gives the number back |
| Text.SplitJoin | cmd/qsdump/entities.go:128-175 | fields without the separator are recovered by splitting their join |
| Sorting.SortBy | cmd/qsdump/entities.go:107-109 | the result is sorted by the key and is a permutation of the input |
| Sorting.SortedUnique | cmd/qsdump/entities.go:332-334 | two sorted permutations of entries with pairwise distinct keys are equal |
| Sorting.SortIndependentOfOrder | cmd/qsdump/entities.go:328-334 | with distinct keys, the sorted result does not depend on the order the map is iterated in |
| Values.RenderSnak | cmd/qsdump/entities.go:197-212 | a snak is written exactly when it is `somevalue`, `novalue`, or a value snak whose value is rendered |
| Values.RenderValue | cmd/qsdump/entities.go:214-289 | a value is rendered exactly when its datatype is one of the nine handled ones and its value has the variant that datatype expects |
| Values.TimeTextMarks | cmd/qsdump/entities.go:248-261 | a time literal starts with `+` iff the year is positive, and ends in `/J` iff the calendar is Julian |
| Values.QuantityText | cmd/qsdump/entities.go:291-306 | the literal starts with the amount; when the unit is an entity IRI it ends with `U` and the item number after the IRI prefix; with no pair of bounds and no such unit it is the amount alone |
| Values.DecodeQuantityText | cmd/qsdump/entities.go:291-306 | the quantity literal decodes to the amount, the bounds only when both exist, and the unit's item number only when the unit is an entity IRI |
| Values.DecodeTimeText | cmd/qsdump/entities.go:248-261 | the time literal decodes to the year's sign, the instant's text, the precision as an unsigned 64-bit number, and the Julian flag |
| Values.DecodeCoordinateText | cmd/qsdump/entities.go:263-271 | the coordinate literal decodes to its latitude and longitude texts |
| Values.DecodeMonolingualText | cmd/qsdump/entities.go:273-282 | the monolingual literal decodes to the language and the original text |
| Values.DecodeRenderValue | cmd/qsdump/entities.go:214-289 | every rendered value decodes, under its datatype, to the information it carries |
| Values.ValueLiteralNotReserved | cmd/qsdump/entities.go:197-212 | a rendered value is never the word `somevalue` or `novalue`, so the snak kinds are distinguishable; an item's literal is its id, which starts with `Q` |
| Values.DecodeRenderSnak | cmd/qsdump/entities.go:197-212 | every written snak decodes to its kind and, for value snaks, its value's information |
| Values.RenderValuePlain | cmd/qsdump/entities.go:214-289 | a rendered value holds no tab or newline |
| Lines.ParseRenderLines | cmd/qsdump/entities.go:128-175 | lines whose fields hold no tab or newline parse back from their rendering |
| Statements.DecodeRankMarker | cmd/qsdump/entities.go:134-139 | the rank is recovered from the marker in front of the main value, and so is the value |
| Statements.QualifiersAreShownEntries | cmd/qsdump/entities.go:145-163 | the qualifier fields are a key and a value for each qualifier snak, in order, that has a datatype and a value and is rendered; each other snak is skipped on its own |
| Statements.EntryFieldsLayout | cmd/qsdump/entities.go:179-191 | in a written reference, snak k contributes its `[!]S` marker, with `!` only at position 0, and then its value |
| Statements.ReferenceFields | cmd/qsdump/entities.go:177-195 | a reference is written in full iff every snak is rendered, else it contributes nothing; written, it is a marker and a value per snak in order, and the first marker has `!` iff the reference is not the first and its first key has a snak |
| Statements.ReferencesFields | cmd/qsdump/entities.go:165-167 | appended to what the references before position `index` wrote, the rest of the loop completes the fields of all references: each written reference's fields in order, a dropped reference contributing nothing |
| Statements.NothingBefore | cmd/qsdump/entities.go:165-184 | when none of the first n references is written, the references before position n contribute no fields |
| Statements.DroppedFirstReference | cmd/qsdump/entities.go:165-184 | for any k > 0: when references 0..k-1 are all dropped, reference k is written and its first key has a snak, the references' fields start with a `!` marker, because the first-reference test counts positions rather than written references |
| Statements.StatementLine | cmd/qsdump/entities.go:128-175 | a statement has a line iff its main snak is written; the line is about the entity and property, and starts with the rank marker glued to the main value |
| Statements.StatementLineDecodes | cmd/qsdump/entities.go:128-175 | the line's first value decodes to the rank and the main snak; the rest is the shown qualifier pairs, then the reference pairs |
| Statements.StatementLinePlain | cmd/qsdump/entities.go:128-175 | a statement line's fields hold no tab or newline when the entity and property ids and values do not |
| Claims.ParseClaims | cmd/qsdump/entities.go:98-106 | keys not starting with `P` are dropped; the result fails iff some `P` key's number does not parse, reporting the first such key; otherwise it keeps the `P` claims in order with their parsed numbers |
| Claims.PropertyId | cmd/qsdump/entities.go:114-117 | the property id is `P` followed by the canonical numeral of the number |
| Claims.PropertyIdCanonical | cmd/qsdump/entities.go:100-117 | a key is written back unchanged iff its digits are canonical (`P007` becomes `P7`) |
| Claims.SortClaims | cmd/qsdump/entities.go:107-113 | claims are sorted by property number, each claim's statements by rank key, and the claims with their statement multisets are a permutation of the input |
| Claims.StatementLines | cmd/qsdump/entities.go:118-122 | one line per statement whose main snak is written, in order, each about the entity and the property |
| Claims.ClaimLines | cmd/qsdump/entities.go:110-123 | claim by claim, in order, the lines of the claim's statements whose main snak is written, under its canonical id, and nothing else: claim k's lines sit right after those of the claims before it; every line is about the entity and names one of the claims' numbers |
| Claims.ClaimLinesConcat | cmd/qsdump/entities.go:110-123 | the lines of two runs of claims are the lines of the first run followed by those of the second |
| Claims.ClaimLinesBlocks | cmd/qsdump/entities.go:110-123 | claim by claim: a claim's statement lines, under its canonical id, sit between the lines of the claims before it and those after it |
| Claims.ClaimLinesOfProperty | cmd/qsdump/entities.go:110-123 | with distinct numbers, the lines under claim k's canonical id are exactly that claim's statement lines, in order |
| Claims.ClaimLinesSorted | cmd/qsdump/entities.go:107-123 | claim lines come in ascending property number |
| Claims.WriteClaims | cmd/qsdump/entities.go:92-126 | fails iff a property key's number does not parse, reporting the first such key; otherwise the lines ascend by property, each is the line of a statement of a claim with that number, and they are the lines of an ordering of the parsed claims by number, each claim's statements by rank, that loses and adds no claim and no statement |
| Claims.WriteClaimsPlain | cmd/qsdump/entities.go:92-126 | with a plain entity id and shaped statements, writing claims succeeds with parseable lines |
| Entities.TextLineDecodes | cmd/qsdump/entities.go:336-345 | a label, description, alias or site-link line decodes to its code and text |
| Entities.SortedTextLines | cmd/qsdump/entities.go:327-351 | one line per entry under the section marker, keys ascending, and the lines decode to exactly the entries as a multiset |
| Entities.LangValueLines | cmd/qsdump/entities.go:327-351 | one line per language value under the section marker, codes ascending, and the lines read back as exactly the language values as a multiset |
| Entities.SiteLinkLines | cmd/qsdump/entities.go:378-405 | one `S` line per site link, sites ascending, and the lines read back as exactly the site links as a multiset |
| Entities.SortedTextLinesIndependentOfOrder | cmd/qsdump/entities.go:327-334 | with distinct codes, the lines do not depend on the map's iteration order |
| Entities.AliasLines | cmd/qsdump/entities.go:353-376 | alias lines ascend by language; every line decodes to an alias of the entity, every alias has a line, and the lines read back as exactly the aliases, counted with multiplicity |
| Entities.GroupsEntriesPermutation | cmd/qsdump/entities.go:354-358 | sorting the languages keeps the multiset of (language, alias) entries |
| Entities.AliasLinesOfLanguage | cmd/qsdump/entities.go:353-376 | with distinct languages, the lines under one language's `A` key are that language's aliases in source order |
| Entities.AliasLinesIndependentOfOrder | cmd/qsdump/entities.go:354-358 | with distinct languages, the alias lines do not depend on the map's iteration order |
| Entities.SectionsOrdered | cmd/qsdump/entities.go:72-90 | labels, descriptions, aliases, claims and site links, each sorted, concatenate into section order L, D, A, P, S |
| Entities.SectionsOf | cmd/qsdump/entities.go:72-90 | the five sections concatenate into ordered lines about the entity, and splitting them by section gives back exactly each writer's lines, in order (labels, descriptions, aliases, claims, site links); the L, D, A and S sections also read back as the entity's fields |
| Entities.EntityLines | cmd/qsdump/entities.go:72-90 | fails iff writeClaims does, with the same error; otherwise the lines are about the entity, in section order L, D, A, P, S, each sorted; sections L, D, A and S are exactly the lines writeLabels, writeDescriptions, writeAliases and writeSitelinks write, in their order, and read back as exactly the labels, descriptions, aliases and site links; section P is what writeClaims writes |
| Entities.WriteEntity | cmd/qsdump/entities.go:72-90 | fails exactly on a property key whose number does not parse, reporting the first one; for a well-shaped entity the text parses back into exactly the entity's lines |
| Entities.EntityLinesParse | cmd/qsdump/entities.go:72-90 | for a well-shaped entity, the rendering of its lines parses back into those lines |
| Scenarios.QuoteEmbeddedQuote | cmd/qsdump/entities.go:313-314 | the text `a"b` is written `"a\u0022b"`: the embedded quote is escaped as code point 0x22 |
| Scenarios.RankMarkers | cmd/qsdump/entities.go:134-139 | `novalue` statements of the three ranks are written `↑novalue`, `novalue` and `↓novalue` |
| Scenarios.ReferenceMarkers | cmd/qsdump/entities.go:165-184 | two references citing Q1 and Q2 are written `S248 Q1 !S248 Q2` |
| Scenarios.DroppedFirstReferenceMarker | cmd/qsdump/entities.go:165-193 | when the first reference is not written, the second is written `!S248 Q2` |
| Scenarios.HumanEntity | cmd/qsdump/entities.go:72-126 | entity Q5 with label "human" and statement P31 Q5 is written as two lines |

## Left out

- `findEntitiesDump`, `extractQuickStatements`, the dump reader, the worker pool and its
  mutex are outside the serialiser, so concurrency and I/O are not modelled.
- Writes to the output `io.Writer` are taken to succeed. Every writer here appends to a
  `bytes.Buffer`, which never fails, so the `errors.WithStack` branches for write
  errors are not modelled. The error path of `writeQuotedString` and the `continue` in
  `writeAliases` are unreachable for the same reason.
- `big.Float.String()`, `time.Time.Year()` / `Format(time.RFC3339)` and
  `strconv.FormatFloat(x, 'f', 7, 32)` are library formatters. They are represented by
  their output texts (`Decimal`, `Instant`, `Degrees`). The shapes those texts are
  assumed to have for decoding (for example, an RFC 3339 text has no `/`) are
  preconditions of the decoding lemmas.
- Text is a sequence of code points, not UTF-8 bytes. Go's byte-wise string order
  agrees with code-point order, so the sorted orders are the same.
- Statements.ReferenceMarker: `snak.Property[1:]` slices bytes; the model drops the
  first code point. They differ only when a property id starts with a multi-byte
  character.
- The values of `mediawiki.Preferred`, `Normal` and `Deprecated` are not part of this
  model. The rank sort uses the parameter `rankKey` instead.
- `uint64(val.Precision)` is modelled as the precision modulo 2^64, which is what the
  conversion does for a signed integer of at most 64 bits.
- Sorting.SortBy: states sorted plus permutation only. Go's `sort.Slice` is unstable, so
  the order of entries with equal keys is not specified and not claimed.
- Claims.WriteClaims: no order-independence lemma over the claim map. Two keys such as
  `P7` and `P007` both become property 7. Their statements are then written under
  the same id in an order the unstable sort does not fix.
- Statements.EntryFields: its own contract says only that a failure has an unrendered
  snak. Statements.EntryFieldsComplete and Statements.ReferenceFields state the full iff.
- Entities.EntityLines: output written before a failure is not modelled. When
  `writeClaims` fails, `writeEntity` has already written the label, description and
  alias lines (entities.go:73-81). The model returns only the error, because the only
  caller, `extractQuickStatements`, drops the buffer on error (entities.go:52-56).
- Entities.AliasLinesOfLanguage: stated only for distinct languages. A map has distinct
  keys, so this is the case the code meets.
- Claims.ClaimLinesOfProperty: stated only for distinct property numbers. Keys such as
  `P7` and `P07` both parse to 7, and their lines then share one key.
- Values.ValueShaped: an item id is taken to be non-empty, to start with `Q` and to hold
  no tab or newline. The decoding lemmas and `ValueLiteralNotReserved` rest on this
  shape of the ids the dump holds; the serialiser itself does not check it.
- Panics are not modelled as outcomes. They are preconditions: `EntityWritable`,
  `KeysNonEmpty`, `StatementReadable` and `EntriesReadable` say what the code
  dereferences or slices.
