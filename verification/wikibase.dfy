/**
  The entity records the serialiser consumes, as immutable datatypes. They mirror the
  mediawiki library's Entity, Statement, Snak, Reference and value types; Go maps that
  the serialiser iterates are sequences in iteration order, Go maps it only looks
  keys up in are Dafny maps, and a nil field is `None`.
 */
module Wikibase {
  import opened Wrappers

  /** An arbitrary-precision decimal, known by its canonical String() rendering. */
  datatype Decimal = Decimal(text: string)

  /** A point in time, known by its calendar year and its RFC 3339 rendering. */
  datatype Instant = Instant(year: int, rfc3339: string)

  /** A float64 coordinate, known by strconv.FormatFloat(x, 'f', 7, 32). */
  datatype Degrees = Degrees(fixed7: string)

  datatype Calendar = Gregorian | Julian

  datatype SnakType = ValueSnak | SomeValueSnak | NoValueSnak | OtherSnakType(code: int)

  /** Property datatypes; every datatype the serialiser does not handle is OtherDataType. */
  datatype DataType =
    | WikiBaseItem
    | ExternalID
    | CommonsMedia
    | URL
    | String
    | Quantity
    | Time
    | GlobeCoordinate
    | MonolingualText
    | OtherDataType(name: string)

  /** The dynamic value held by a snak's data value. */
  datatype Value =
    | EntityIdValue(id: string)
    | StringValue(text: string)
    | QuantityValue(amount: Decimal, lowerBound: Option<Decimal>, upperBound: Option<Decimal>, unit: string)
    | TimeValue(time: Instant, precision: int, calendar: Calendar)
    | GlobeCoordinateValue(latitude: Degrees, longitude: Degrees)
    | MonolingualTextValue(language: string, text: string)
    | OtherValue(typeName: string)

  datatype Snak = Snak(snakType: SnakType, property: string, dataType: Option<DataType>, dataValue: Option<Value>)

  datatype Rank = Preferred | Normal | Deprecated

  /** Snak groups keyed by property id, with the order of the keys as in the source. */
  datatype Reference = Reference(snaks: map<string, seq<Snak>>, snaksOrder: seq<string>)

  datatype Statement = Statement(
    mainSnak: Snak,
    rank: Rank,
    qualifiers: map<string, seq<Snak>>,
    qualifiersOrder: seq<string>,
    references: seq<Reference>)

  datatype LanguageValue = LanguageValue(language: string, value: string)

  /** One entry of the alias map: a language code and its aliases in source order. */
  datatype AliasGroup = AliasGroup(language: string, aliases: seq<LanguageValue>)

  /** One entry of the claim map: a property id as written in the dump and its statements. */
  datatype Claim = Claim(key: string, statements: seq<Statement>)

  datatype SiteLink = SiteLink(site: string, title: string)

  datatype Entity = Entity(
    id: string,
    labels: seq<LanguageValue>,
    descriptions: seq<LanguageValue>,
    aliases: seq<AliasGroup>,
    claims: seq<Claim>,
    siteLinks: seq<SiteLink>)

  /** The snaks of a group, or none when the key is absent (a nil slice in Go). */
  function Group(m: map<string, seq<Snak>>, key: string): seq<Snak> {
    if key in m then m[key] else []
  }
}
