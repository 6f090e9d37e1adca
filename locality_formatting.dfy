/**
 * The display helpers of the locality list (composables/useLocalityFormatting.ts): every helper
 * is total and falls back to a fixed placeholder instead of failing on a missing field.
 */
module LocalityFormatting {
  import opened Wrappers
  import opened ApiTypes
  import opened Decimal
  import opened JsString

  /** The em dash shown for a missing value. */
  const PLACEHOLDER: string := "\U{2014}"

  const UNNAMED_LOCALITY: string := "(Unnamed locality)"

  /** `formatLocalityName`: `name_en || name || '(Unnamed locality)'`. */
  function FormatLocalityName(name: Option<string>, nameEn: Option<string>): (r: string)
    ensures r != ""
    ensures Truthy(nameEn) ==> r == nameEn.value
    ensures !Truthy(nameEn) && Truthy(name) ==> r == name.value
    ensures !Truthy(nameEn) && !Truthy(name) ==> r == UNNAMED_LOCALITY
  {
    Or(nameEn, Or(name, UNNAMED_LOCALITY))
  }

  /** A country id as a label: `#` and the decimal rendering of the id. */
  function IdLabel(id: int): (r: string)
    ensures r == "#" + IntToString(id)
    ensures |r| > 1 && r[0] == '#' && ParseInt(r[1..]) == Some(id)
  {
    IntRoundTrip(id);
    assert ("#" + IntToString(id))[1..] == IntToString(id);
    "#" + IntToString(id)
  }

  /** `formatCountryLabel`. */
  function FormatCountryLabel(country: CountryRef): (r: string)
    ensures r != ""
    ensures country.NoCountry? ==> r == PLACEHOLDER
    ensures country.CountryId? ==> r == IdLabel(country.id) && r != PLACEHOLDER
    ensures country.Expanded? ==> r == FormatExpandedCountry(country.country)
  {
    match country
    case NoCountry => PLACEHOLDER
    case CountryId(id) => IdLabel(id)
    case Expanded(c) => FormatExpandedCountry(c)
  }

  /** The object branch of `formatCountryLabel`: `name_en || name || '#' + id`. */
  function FormatExpandedCountry(c: Country): (r: string)
    ensures r != ""
    ensures Truthy(c.nameEn) ==> r == c.nameEn.value
    ensures !Truthy(c.nameEn) && Truthy(c.name) ==> r == c.name.value
    ensures !Truthy(c.nameEn) && !Truthy(c.name) ==> r == IdLabel(c.id)
  {
    Or(c.nameEn, Or(c.name, IdLabel(c.id)))
  }

  /** The argument of `formatDisplayValue`, restricted to integer numbers. */
  datatype DisplayInput = Missing | Text(s: string) | Integer(n: int)

  /** `formatDisplayValue`. */
  function FormatDisplayValue(v: DisplayInput): (r: string)
    ensures r != ""
    ensures v.Missing? ==> r == PLACEHOLDER
    ensures v.Text? ==> r == if AllWhiteSpace(v.s) then PLACEHOLDER else v.s
    ensures v.Integer? ==> r == IntToString(v.n) && ParseInt(r) == Some(v.n)
  {
    match v
    case Missing => PLACEHOLDER
    case Text(s) =>
      TrimEmptyIffAllWhiteSpace(s);
      if |Trim(s)| == 0 then PLACEHOLDER else s
    case Integer(n) =>
      IntRoundTrip(n);
      IntToString(n)
  }

  /** A name made only of white space is still truthy, so `formatLocalityName` returns it as it is. */
  lemma BlankNameIsKept(name: Option<string>, s: string)
    requires s != "" && AllWhiteSpace(s)
    ensures FormatLocalityName(name, Some(s)) == s
  {
  }

  /** The placeholder is shown for a text value exactly when it is blank, or is itself an em dash. */
  lemma DisplayPlaceholderIff(s: string)
    ensures FormatDisplayValue(Text(s)) == PLACEHOLDER <==> AllWhiteSpace(s) || s == PLACEHOLDER
  {
  }

  /** Distinct ids give distinct labels. */
  lemma IdLabelInjective(m: int, n: int)
    ensures IdLabel(m) == IdLabel(n) <==> m == n
  {
    IntToStringInjective(m, n);
    if IdLabel(m) == IdLabel(n) {
      assert IdLabel(m)[1..] == IntToString(m);
      assert IdLabel(n)[1..] == IntToString(n);
    }
  }
}
