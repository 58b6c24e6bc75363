/** The sync service (CraftGooglePlacesSync): reads a Google Places Sync
    field's value from an element, finds a place id by searching for the
    lookup text when there is no id yet, fetches the place's details, and
    writes the legacy address, phone and website entries back into the
    value. Every path returns true so that the element's save goes on.
    The two API calls are oracles: `Api.search` and `Api.details` give the
    outcome array placeSearch and placeDetails return for an argument. */
module PlacesSync {
  import opened Php
  import opened PlacesApi

  /** The calls sync makes to the API service, with their arguments. */
  datatype ApiCall = SearchCall(input: Json) | DetailsCall(placeId: Json)

  datatype Api = Api(search: Json -> ApiOutcome, details: Json -> ApiOutcome)

  /** What one sync does: the API calls it makes, in order, and the values
      it passes to setFieldValue, in order. */
  datatype Run = Run(calls: seq<ApiCall>, writes: seq<map<string, Json>>)

  /** The keys of the field value that getPlaceDetails fills from a details
      result (from formatted_address, formatted_phone_number and website). */
  const AddressKey := "address"
  const PhoneKey := "phone"
  const WebsiteKey := "website"

  /** Keys of the field value that sync may change. */
  predicate SyncedKey(k: string) {
    k == "id" || k == AddressKey || k == PhoneKey || k == WebsiteKey
  }

  /** The value with the three legacy entries of a details result copied in;
      an entry the result lacks becomes null. */
  function WithDetails(value: map<string, Json>, place: Json): (v: map<string, Json>)
    ensures v.Keys == value.Keys + {AddressKey, PhoneKey, WebsiteKey}
    ensures v[AddressKey] == Get(place, "formatted_address")
    ensures v[PhoneKey] == Get(place, "formatted_phone_number")
    ensures v[WebsiteKey] == Get(place, "website")
    ensures forall k | k in value && k != AddressKey && k != PhoneKey && k != WebsiteKey :: v[k] == value[k]
  {
    value[AddressKey := Get(place, "formatted_address")]
         [PhoneKey := Get(place, "formatted_phone_number")]
         [WebsiteKey := Get(place, "website")]
  }

  /** The guard of getPlaceDetails: a successful outcome whose data holds a
      truthy 'result'. Returns that result. */
  function DetailsResult(outcome: ApiOutcome): (place: Option<Json>)
    ensures place.Some? ==> outcome.Succeeded? && Truthy(place.value)
    ensures place.Some? <==> outcome.Succeeded? && Truthy(outcome.data) && Truthy(Get(outcome.data, "result"))
    ensures place.Some? ==> place.value == Get(outcome.data, "result")
  {
    var result := ResultArray(outcome);
    if Truthy(Get(result, "success")) && Truthy(Get(result, "data")) && Truthy(Get(Get(result, "data"), "result"))
    then Some(Get(Get(result, "data"), "result"))
    else None
  }

  /** The guard of getPlaceId: a successful outcome whose first candidate
      has a truthy 'place_id'. Returns that id. */
  function CandidateId(outcome: ApiOutcome): (id: Option<Json>)
    ensures id.Some? <==> outcome.Succeeded? && Truthy(Get(First(Get(outcome.data, "candidates")), "place_id"))
    ensures id.Some? ==> Truthy(id.value) && NonEmpty(id.value)
    ensures id.Some? ==> id.value == Get(First(Get(outcome.data, "candidates")), "place_id")
  {
    var result := ResultArray(outcome);
    var candidates := Get(Get(result, "data"), "candidates");
    if Truthy(Get(result, "success")) && Truthy(candidates) && Truthy(First(candidates))
       && Truthy(Get(First(candidates), "place_id"))
    then Some(Get(First(candidates), "place_id"))
    else None
  }

  /** What getPlaceDetails does with a field value. */
  function DetailsRun(value: map<string, Json>, api: Api): (run: Run)
    ensures |run.calls| <= 1 && |run.writes| <= |run.calls|
    ensures run.calls != [] <==> NonEmpty(Get(JMap(value), "id"))
    ensures run.calls != [] ==> run.calls == [DetailsCall(value["id"])]
    ensures run.writes != [] <==>
              NonEmpty(Get(JMap(value), "id")) && DetailsResult(api.details(value["id"])).Some?
    ensures run.writes != [] ==>
              run.writes == [WithDetails(value, DetailsResult(api.details(value["id"])).value)]
  {
    var id := Get(JMap(value), "id");
    if NonEmpty(id) then
      match DetailsResult(api.details(id))
      case Some(place) => Run([DetailsCall(id)], [WithDetails(value, place)])
      case None => Run([DetailsCall(id)], [])
    else Run([], [])
  }

  /** What getPlaceId does with a field value: search, write the found id,
      then go on as getPlaceDetails with the updated value. */
  function SearchRun(value: map<string, Json>, api: Api): (run: Run)
    ensures run.calls != [] <==> NonEmpty(Get(JMap(value), "lookup"))
    ensures run.calls != [] ==> run.calls[0] == SearchCall(value["lookup"])
    ensures run.writes != [] ==> run.calls != [] && CandidateId(api.search(value["lookup"])).Some?
    ensures |run.calls| <= 2 && |run.writes| <= |run.calls|
  {
    var lookup := Get(JMap(value), "lookup");
    if NonEmpty(lookup) then
      match CandidateId(api.search(lookup))
      case Some(id) =>
        var withId := value["id" := id];
        var details := DetailsRun(withId, api);
        Run([SearchCall(lookup)] + details.calls, [withId] + details.writes)
      case None => Run([SearchCall(lookup)], [])
    else Run([], [])
  }

  /** What sync does with the value of its field: a non-empty id goes
      straight to the details fetch, otherwise a non-empty lookup goes to
      the search, otherwise nothing happens. */
  function SyncRun(value: Json, api: Api): (run: Run)
    ensures |run.calls| <= 2 && |run.writes| <= |run.calls|
    ensures run.calls == [] <==> !NonEmpty(Get(value, "id")) && !NonEmpty(Get(value, "lookup"))
  {
    if NonEmpty(Get(value, "id")) then DetailsRun(value.members, api)
    else if NonEmpty(Get(value, "lookup")) then SearchRun(value.members, api)
    else Run([], [])
  }

  /** The field value after the run: the last value written, or the old one. */
  function FinalValue(value: Json, run: Run): Json {
    if run.writes == [] then value else JMap(run.writes[|run.writes| - 1])
  }

  /** A content element, reduced to what the plugin touches: its custom
      field values by handle, whether it is a revision, which fields are
      dirty, and the log of setFieldValue calls made on it. */
  class Element {
    var fields: map<string, Json>
    var isRevision: bool
    var dirty: set<string>
    var writes: seq<(string, Json)>

    constructor (fields: map<string, Json>, isRevision: bool, dirty: set<string>)
      ensures this.fields == fields && this.isRevision == isRevision && this.dirty == dirty
      ensures writes == []
    {
      this.fields := fields;
      this.isRevision := isRevision;
      this.dirty := dirty;
      writes := [];
    }

    function GetFieldValue(handle: string): Json
      reads this
      requires handle in fields
    {
      fields[handle]
    }

    /** Stores the value under the handle and marks the field dirty. */
    method SetFieldValue(handle: string, value: Json)
      modifies this
      ensures fields == old(fields)[handle := value]
      ensures dirty == old(dirty) + {handle}
      ensures writes == old(writes) + [(handle, value)]
      ensures isRevision == old(isRevision)
    {
      fields := fields[handle := value];
      dirty := dirty + {handle};
      writes := writes + [(handle, value)];
    }
  }

  /** The setFieldValue calls a run makes on a handle. */
  function Tagged(handle: string, values: seq<map<string, Json>>): (w: seq<(string, Json)>)
    ensures |w| == |values|
  {
    if values == [] then [] else [(handle, JMap(values[0]))] + Tagged(handle, values[1..])
  }

  /** The element's state after a run that started from the field's old value. */
  ghost predicate Applied(e: Element, handle: string, value: Json, run: Run,
                          oldFields: map<string, Json>, oldDirty: set<string>,
                          oldWrites: seq<(string, Json)>, oldRevision: bool)
    reads e
  {
    && e.fields == oldFields[handle := FinalValue(value, run)]
    && e.dirty == oldDirty + (if run.writes == [] then {} else {handle})
    && e.writes == oldWrites + Tagged(handle, run.writes)
    && e.isRevision == oldRevision
  }

  /** `getPlaceDetails($value, $field, $element)` */
  method GetPlaceDetails(value: map<string, Json>, handle: string, element: Element, api: Api)
    returns (ok: bool, calls: seq<ApiCall>)
    requires handle in element.fields
    modifies element
    ensures ok
    ensures calls == DetailsRun(value, api).calls
    ensures Applied(element, handle, old(element.fields[handle]), DetailsRun(value, api),
                    old(element.fields), old(element.dirty), old(element.writes), old(element.isRevision))
  {
    calls := [];
    var id := Get(JMap(value), "id");
    if NonEmpty(id) {
      var result := api.details(id);
      calls := calls + [DetailsCall(id)];
      var place := DetailsResult(result);
      if place.Some? {
        var updated := WithDetails(value, place.value);
        element.SetFieldValue(handle, JMap(updated));
      }
    }
    ok := true;
  }

  /** `getPlaceId($value, $field, $element)` */
  method GetPlaceId(value: map<string, Json>, handle: string, element: Element, api: Api)
    returns (ok: bool, calls: seq<ApiCall>)
    requires handle in element.fields
    modifies element
    ensures ok
    ensures calls == SearchRun(value, api).calls
    ensures Applied(element, handle, old(element.fields[handle]), SearchRun(value, api),
                    old(element.fields), old(element.dirty), old(element.writes), old(element.isRevision))
  {
    var lookup := Get(JMap(value), "lookup");
    if NonEmpty(lookup) {
      var result := api.search(lookup);
      var id := CandidateId(result);
      if id.Some? {
        var withId := value["id" := id.value];
        element.SetFieldValue(handle, JMap(withId));
        ghost var midFields, midDirty, midWrites := element.fields, element.dirty, element.writes;
        var detailsCalls;
        ok, detailsCalls := GetPlaceDetails(withId, handle, element, api);
        calls := [SearchCall(lookup)] + detailsCalls;
        SearchThenDetails(value, api);
        AppliedAfterWrite(element, handle, old(element.fields[handle]), withId, DetailsRun(withId, api),
                          SearchRun(value, api), old(element.fields), old(element.dirty), old(element.writes),
                          old(element.isRevision), midFields, midDirty, midWrites);
        return;
      }
      calls := [SearchCall(lookup)];
    } else {
      calls := [];
    }
    ok := true;
  }

  /** A search that finds an id is its write followed by a details run on
      the value holding that id. */
  lemma SearchThenDetails(value: map<string, Json>, api: Api)
    requires NonEmpty(Get(JMap(value), "lookup"))
    requires CandidateId(api.search(Get(JMap(value), "lookup"))).Some?
    ensures var withId := value["id" := CandidateId(api.search(Get(JMap(value), "lookup"))).value];
            var run, details := SearchRun(value, api), DetailsRun(withId, api);
            && run.calls == [SearchCall(Get(JMap(value), "lookup"))] + details.calls
            && run.writes == [withId] + details.writes
  {
  }

  /** A write of `first` followed by a run `rest` leaves the element as
      the run that writes `first` and then what `rest` writes. */
  lemma AppliedAfterWrite(e: Element, handle: string, start: Json, first: map<string, Json>, rest: Run, run: Run,
                          oldFields: map<string, Json>, oldDirty: set<string>,
                          oldWrites: seq<(string, Json)>, oldRevision: bool,
                          midFields: map<string, Json>, midDirty: set<string>, midWrites: seq<(string, Json)>)
    requires run.writes == [first] + rest.writes
    requires midFields == oldFields[handle := JMap(first)]
    requires midDirty == oldDirty + {handle}
    requires midWrites == oldWrites + [(handle, JMap(first))]
    requires Applied(e, handle, JMap(first), rest, midFields, midDirty, midWrites, oldRevision)
    ensures Applied(e, handle, start, run, oldFields, oldDirty, oldWrites, oldRevision)
  {
    assert e.fields == oldFields[handle := FinalValue(start, run)] by {
      assert FinalValue(start, run) == FinalValue(JMap(first), rest);
    }
    assert e.writes == oldWrites + Tagged(handle, run.writes) by {
      assert run.writes[1..] == rest.writes;
      assert Tagged(handle, run.writes) == [(handle, JMap(first))] + Tagged(handle, rest.writes);
    }
  }

  /** `sync($element, $field)`: dispatch on the field's value. */
  method Sync(element: Element, handle: string, api: Api) returns (ok: bool, calls: seq<ApiCall>)
    requires handle in element.fields
    modifies element
    ensures ok
    ensures calls == SyncRun(old(element.fields[handle]), api).calls
    ensures Applied(element, handle, old(element.fields[handle]), SyncRun(old(element.fields[handle]), api),
                    old(element.fields), old(element.dirty), old(element.writes), old(element.isRevision))
  {
    var value := element.GetFieldValue(handle);
    if NonEmpty(Get(value, "id")) {
      ok, calls := GetPlaceDetails(value.members, handle, element, api);
    } else if NonEmpty(Get(value, "lookup")) {
      ok, calls := GetPlaceId(value.members, handle, element, api);
    } else {
      ok, calls := true, [];
    }
  }

  // ---------------------------------------------------------------------
  // Properties of a sync run.
  // ---------------------------------------------------------------------

  /** A non-empty id sends sync straight to the details fetch: exactly one
      call, never a search, even when a lookup is present too. */
  lemma IdTakesPrecedence(value: Json, api: Api)
    requires NonEmpty(Get(value, "id"))
    ensures SyncRun(value, api).calls == [DetailsCall(Get(value, "id"))]
    ensures forall c | c in SyncRun(value, api).calls :: !c.SearchCall?
  {
  }

  /** sync searches exactly when the id is missing or empty and the lookup
      is not; the search is its first call and receives the lookup. */
  lemma SearchIffLookupOnly(value: Json, api: Api)
    ensures (exists c | c in SyncRun(value, api).calls :: c.SearchCall?) <==>
              !NonEmpty(Get(value, "id")) && NonEmpty(Get(value, "lookup"))
    ensures !NonEmpty(Get(value, "id")) && NonEmpty(Get(value, "lookup")) ==>
              SyncRun(value, api).calls[0] == SearchCall(Get(value, "lookup"))
  {
    var run := SyncRun(value, api);
    if !NonEmpty(Get(value, "id")) && NonEmpty(Get(value, "lookup")) {
      assert run.calls[0] in run.calls;
    } else if NonEmpty(Get(value, "id")) {
      assert run.calls == [DetailsCall(Get(value, "id"))];
    }
  }

  /** With neither an id nor a lookup, sync calls nothing and writes nothing. */
  lemma NothingToSync(value: Json, api: Api)
    requires !NonEmpty(Get(value, "id")) && !NonEmpty(Get(value, "lookup"))
    ensures SyncRun(value, api) == Run([], [])
    ensures FinalValue(value, SyncRun(value, api)) == value
  {
  }

  /** Every value sync writes keeps all entries of the old value other than
      id, address, phone and website. */
  lemma OtherKeysUnchanged(value: Json, api: Api)
    ensures forall w, k | w in SyncRun(value, api).writes && k in value.members && !SyncedKey(k) ::
              k in w && w[k] == value.members[k]
  {
    if NonEmpty(Get(value, "id")) {
      DetailsKeepsOtherKeys(value.members, api);
    } else if NonEmpty(Get(value, "lookup")) {
      var lookup := Get(value, "lookup");
      match CandidateId(api.search(lookup))
      case Some(id) =>
        var withId := value.members["id" := id];
        DetailsKeepsOtherKeys(withId, api);
        assert SyncRun(value, api).writes == [withId] + DetailsRun(withId, api).writes;
      case None =>
    }
  }

  /** The details fetch keeps every entry other than the three it fills. */
  lemma DetailsKeepsOtherKeys(value: map<string, Json>, api: Api)
    ensures forall w, k | w in DetailsRun(value, api).writes && k in value && !SyncedKey(k) ::
              k in w && w[k] == value[k]
  {
  }

  /** A details fetch that fails, or whose data has no truthy 'result',
      writes nothing: the field keeps its value. */
  lemma FailedDetailsWriteNothing(value: Json, api: Api)
    requires NonEmpty(Get(value, "id"))
    requires DetailsResult(api.details(Get(value, "id"))).None?
    ensures SyncRun(value, api).writes == []
    ensures FinalValue(value, SyncRun(value, api)) == value
  {
  }

  /** A successful details fetch writes the value once, with address, phone
      and website taken from formatted_address, formatted_phone_number and
      website of the result. */
  lemma DetailsFill(value: Json, api: Api)
    requires NonEmpty(Get(value, "id"))
    requires DetailsResult(api.details(Get(value, "id"))).Some?
    ensures var place := DetailsResult(api.details(Get(value, "id"))).value;
            var run := SyncRun(value, api);
            && |run.writes| == 1
            && run.writes[0][AddressKey] == Get(place, "formatted_address")
            && run.writes[0][PhoneKey] == Get(place, "formatted_phone_number")
            && run.writes[0][WebsiteKey] == Get(place, "website")
            && run.writes[0]["id"] == value.members["id"]
  {
  }

  /** A search whose first candidate has a truthy place_id stores that id
      before fetching details, so the id stays in the field even when the
      details fetch then fails; every later write carries it as well. */
  lemma FoundIdSurvives(value: Json, api: Api)
    requires !NonEmpty(Get(value, "id")) && NonEmpty(Get(value, "lookup"))
    requires CandidateId(api.search(Get(value, "lookup"))).Some?
    ensures var id := CandidateId(api.search(Get(value, "lookup"))).value;
            var run := SyncRun(value, api);
            && run.writes != []
            && run.writes[0] == value.members["id" := id]
            && run.calls == [SearchCall(Get(value, "lookup")), DetailsCall(id)]
            && (forall w | w in run.writes :: "id" in w && w["id"] == id)
            && Get(FinalValue(value, run), "id") == id
  {
  }

  /** The plugin's main flow: with only a lookup, a search that finds an
      id followed by a details fetch that passes writes twice, and the
      final value holds the found id together with address, phone and
      website from the details result. */
  lemma LookupThenDetailsFill(value: Json, api: Api)
    requires !NonEmpty(Get(value, "id")) && NonEmpty(Get(value, "lookup"))
    requires CandidateId(api.search(Get(value, "lookup"))).Some?
    requires DetailsResult(api.details(CandidateId(api.search(Get(value, "lookup"))).value)).Some?
    ensures var id := CandidateId(api.search(Get(value, "lookup"))).value;
            var place := DetailsResult(api.details(id)).value;
            var run := SyncRun(value, api);
            && |run.writes| == 2
            && run.writes[1]["id"] == id
            && run.writes[1][AddressKey] == Get(place, "formatted_address")
            && run.writes[1][PhoneKey] == Get(place, "formatted_phone_number")
            && run.writes[1][WebsiteKey] == Get(place, "website")
            && FinalValue(value, run) == JMap(run.writes[1])
  {
  }

  /** A search that fails, or finds no candidate with a truthy place_id,
      leaves the field value as it was. */
  lemma FailedSearchWritesNothing(value: Json, api: Api)
    requires !NonEmpty(Get(value, "id")) && NonEmpty(Get(value, "lookup"))
    requires CandidateId(api.search(Get(value, "lookup"))).None?
    ensures SyncRun(value, api) == Run([SearchCall(Get(value, "lookup"))], [])
    ensures FinalValue(value, SyncRun(value, api)) == value
  {
  }

  /** The failure outcomes, including the server error array that has a
      'status' key instead of 'success', never pass either guard. */
  lemma FailuresPassNoGuard(o: ApiOutcome)
    requires !o.Succeeded?
    ensures DetailsResult(o).None? && CandidateId(o).None?
  {
  }
}
