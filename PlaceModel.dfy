/** The Google Place model (GooglePlaceModel): the flat record handed to
    the persistence service, and the validation its rules() declare. */
module PlaceModel {
  import opened Php

  /** A PHP float, carried opaquely. The only thing the model asks of it is
      whether it is a finite number. */
  datatype Float = Finite(value: real) | Infinite(negative: bool) | NaN

  /** Every attribute is nullable; `None` stands for null. */
  datatype GooglePlaceModel = GooglePlaceModel(
    id: Option<int>,
    placeId: Option<string>,
    displayName: Option<string>,
    nationalPhoneNumber: Option<string>,
    formattedAddress: Option<string>,
    locationLatitude: Option<Float>,
    locationLongitude: Option<Float>,
    googleMapsLinksReviewsUri: Option<string>,
    websiteUri: Option<string>,
    regularOpeningHours: Option<Json>,
    updated: Option<string>)

  /** `new GooglePlaceModel()`: every attribute, id included, is null. */
  const NewModel := GooglePlaceModel(None, None, None, None, None, None, None, None, None, None, None)

  /** The characters PHP's trim() removes by default. */
  predicate TrimmedChar(c: char) {
    c == ' ' || c == '\t' || c == '\n' || c == '\r' || c == '\0' || c as int == 0x0B
  }

  /** A string that trim() reduces to "". */
  predicate Blank(s: string) {
    forall i | 0 <= i < |s| :: TrimmedChar(s[i])
  }

  /** The 'required' rule: the value is set and not empty once trimmed. */
  predicate RequiredHolds(v: Option<string>) {
    v.Some? && !Blank(v.value)
  }

  /** The 'number' rule, skipped for null: a float attribute must hold a
      number, which rules out only the infinities and NaN. */
  predicate NumberHolds(v: Option<Float>) {
    v.None? || v.value.Finite?
  }

  /** The attributes that fail their rule, in the order rules() lists them:
      what getErrors() is keyed by after validate(). */
  function Errors(m: GooglePlaceModel): (errs: seq<string>)
    ensures forall a :: a in errs <==>
              (a == "placeId" && !RequiredHolds(m.placeId))
              || (a == "displayName" && !RequiredHolds(m.displayName))
              || (a == "locationLatitude" && !NumberHolds(m.locationLatitude))
              || (a == "locationLongitude" && !NumberHolds(m.locationLongitude))
    ensures "regularOpeningHours" !in errs && "id" !in errs && "updated" !in errs
    ensures |errs| <= 4
  {
    (if RequiredHolds(m.placeId) then [] else ["placeId"])
    + (if RequiredHolds(m.displayName) then [] else ["displayName"])
    + (if NumberHolds(m.locationLatitude) then [] else ["locationLatitude"])
    + (if NumberHolds(m.locationLongitude) then [] else ["locationLongitude"])
  }

  /** `$model->validate()` */
  function Validate(m: GooglePlaceModel): (ok: bool)
    ensures ok ==> m.placeId.Some? && m.placeId.value != "" && m.displayName.Some? && m.displayName.value != ""
    ensures ok && m.locationLatitude.Some? ==> m.locationLatitude.value.Finite?
    ensures ok && m.locationLongitude.Some? ==> m.locationLongitude.value.Finite?
    ensures ok <==> Errors(m) == []
  {
    RequiredHolds(m.placeId) && RequiredHolds(m.displayName)
    && NumberHolds(m.locationLatitude) && NumberHolds(m.locationLongitude)
  }

  /** A whitespace-only place id or display name counts as missing. */
  lemma BlankIsMissing(m: GooglePlaceModel)
    requires (m.placeId.Some? && Blank(m.placeId.value)) || (m.displayName.Some? && Blank(m.displayName.value))
    ensures !Validate(m)
    ensures m.placeId.Some? && Blank(m.placeId.value) ==> "placeId" in Errors(m)
    ensures m.displayName.Some? && Blank(m.displayName.value) ==> "displayName" in Errors(m)
  {
  }

  /** Validation looks at neither the opening hours nor id nor updated:
      changing them never changes the verdict. */
  lemma UncheckedAttributes(m: GooglePlaceModel, hours: Option<Json>, id: Option<int>, updated: Option<string>)
    ensures Validate(m.(regularOpeningHours := hours, id := id, updated := updated)) == Validate(m)
  {
  }

  /** A fresh model does not validate: place id and display name are missing,
      and the null coordinates are not checked. */
  lemma NewModelFails()
    ensures !Validate(NewModel)
    ensures Errors(NewModel) == ["placeId", "displayName"]
  {
  }
}
