/**
  The License record as the expiry engine reads it, and the normalisation
  of its free-text type used as a grouping key.
*/
module Licenses {
  import opened Wrappers
  import opened Text
  import opened Dates

  /**
    One licence row. `company` is the owning company's name (None when the
    company row is missing), `number` is optional, `status` may be NULL, and
    `expiry` is None only for a row whose expiry column is NULL.
  */
  datatype License = License(
    id: int,
    company: Option<string>,
    authority: string,
    licenseType: string,
    number: Option<string>,
    expiry: Option<CalendarDate>,
    status: Option<string>)

  /** Licence ids are the table's primary key. */
  predicate UniqueIds(licenses: seq<License>) {
    forall i, j :: 0 <= i < j < |licenses| ==> licenses[i].id != licenses[j].id
  }

  const OtherType := "OUTROS"

  /** `(license_type or '').upper().strip() or 'OUTROS'`. */
  function TypeKey(licenseType: string): (key: string)
    ensures key != [] && IsStripped(key)
  {
    var k := Strip(Upper(licenseType));
    StripIsStripped(Upper(licenseType));
    if k == [] then OtherType else k
  }

  /** A blank type is grouped under 'OUTROS'. */
  lemma TypeKeyOfBlank(licenseType: string)
    requires AllSpace(licenseType)
    ensures TypeKey(licenseType) == OtherType
  {
    UpperKeepsSpace(licenseType);
    StripSpec(Upper(licenseType));
  }

  /** A type with any visible character keeps its own (upper-cased, trimmed) key. */
  lemma TypeKeyOfNonBlank(licenseType: string)
    requires !AllSpace(licenseType)
    ensures TypeKey(licenseType) == Strip(Upper(licenseType))
  {
    UpperKeepsSpace(licenseType);
    StripSpec(Upper(licenseType));
  }

  lemma InfixOfFixed(s: string, i: int, j: int)
    requires UpperFixed(s) && 0 <= i <= j <= |s|
    ensures UpperFixed(s[i..j])
  {
    assert forall k :: 0 <= k < j - i ==> s[i..j][k] == s[i + k];
  }

  /** Normalising an already normalised key changes nothing. */
  lemma TypeKeyIdempotent(licenseType: string)
    ensures TypeKey(TypeKey(licenseType)) == TypeKey(licenseType)
  {
    var u := Upper(licenseType);
    var k := Strip(u);
    StripSpec(u);
    if k == [] {
      assert UpperFixed(OtherType);
      UpperOfFixed(OtherType);
      StripStripped(OtherType);
    } else {
      var i, j :| 0 <= i <= j <= |u| && k == u[i..j] && AllSpace(u[..i]) && AllSpace(u[j..]);
      UpperIsFixed(licenseType);
      InfixOfFixed(u, i, j);
      UpperOfFixed(k);
      StripStripped(k);
    }
  }
}
