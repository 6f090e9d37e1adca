/**
 * The wire records the locality list consumes (types/api.ts): a country, the country reference
 * a locality carries, a locality, and one page of the paginated list response.
 * Numbers are modelled as integers; optional strings as `Option<string>`.
 */
module ApiTypes {
  import opened Wrappers

  /** `Country`: `name` and `name_en` are optional. */
  datatype Country = Country(id: int, name: Option<string>, nameEn: Option<string>)

  /** `Locality['country']`: absent (`null` or `undefined`), a bare id, or an expanded object. */
  datatype CountryRef = NoCountry | CountryId(id: int) | Expanded(country: Country)

  datatype Locality = Locality(id: int, name: Option<string>, nameEn: Option<string>, country: CountryRef)

  /** `ApiPage<Locality>`: `count` is the total across all pages. */
  datatype ApiPage = ApiPage(count: int, next: Option<string>, previous: Option<string>, results: seq<Locality>)
}
