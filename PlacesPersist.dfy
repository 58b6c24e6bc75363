/** The persistence service (CraftGooglePlacesPersist): the validated
    upsert of a Google Place model into the craftgoogleplaces_googleplaces
    table, keyed by the unique place id, and the day-granularity freshness
    check that decides between a stored row and a re-sync.
    The table is a map from place id to row (the unique index on placeId
    makes it one); the clock and the database's acceptance of a write are
    parameters. */
module PlacesPersist {
  import opened Php
  import opened PlaceModel
  import opened DateFormat

  /** A stored row. `id` is the auto-increment primary key. */
  datatype PlaceRow = PlaceRow(
    id: nat,
    placeId: string,
    displayName: string,
    nationalPhoneNumber: Option<string>,
    formattedAddress: Option<string>,
    locationLatitude: Option<Float>,
    locationLongitude: Option<Float>,
    googleMapsLinksReviewsUri: Option<string>,
    websiteUri: Option<string>,
    regularOpeningHours: Option<Json>,
    updated: string)

  /** The rows are keyed by their own place id, and primary keys are
      distinct and below the next one to be handed out. */
  ghost predicate TableInvariant(rows: map<string, PlaceRow>, nextId: nat) {
    && (forall k | k in rows :: rows[k].placeId == k && rows[k].id < nextId)
    && (forall k1, k2 | k1 in rows && k2 in rows && k1 != k2 :: rows[k1].id != rows[k2].id)
  }

  /** The row saveGooglePlaceData writes for a model: the nine data
      attributes verbatim, and `updated` from the model unless it is null,
      in which case the current time. */
  function RowFor(m: GooglePlaceModel, now: string, id: nat): (row: PlaceRow)
    requires m.placeId.Some? && m.displayName.Some?
    ensures row.id == id && m.placeId == Some(row.placeId) && m.displayName == Some(row.displayName)
    ensures row.updated == (if m.updated.Some? then m.updated.value else now)
    ensures && row.nationalPhoneNumber == m.nationalPhoneNumber && row.formattedAddress == m.formattedAddress
            && row.locationLatitude == m.locationLatitude && row.locationLongitude == m.locationLongitude
            && row.googleMapsLinksReviewsUri == m.googleMapsLinksReviewsUri && row.websiteUri == m.websiteUri
            && row.regularOpeningHours == m.regularOpeningHours
  {
    PlaceRow(id, m.placeId.value, m.displayName.value, m.nationalPhoneNumber, m.formattedAddress,
             m.locationLatitude, m.locationLongitude, m.googleMapsLinksReviewsUri, m.websiteUri,
             m.regularOpeningHours, m.updated.GetOr(now))
  }

  /** The table after a successful save of a valid model: the row with the
      model's place id is overwritten in place (keeping its primary key), or
      a new row is added under the next primary key. */
  function Upsert(rows: map<string, PlaceRow>, nextId: nat, m: GooglePlaceModel, now: string)
    : (r: (map<string, PlaceRow>, nat))
    requires Validate(m)
    ensures r.0.Keys == rows.Keys + {m.placeId.value}
    ensures |r.0| == |rows| + (if m.placeId.value in rows then 0 else 1)
    ensures forall k | k in rows && k != m.placeId.value :: r.0[k] == rows[k]
    ensures r.0[m.placeId.value].id == (if m.placeId.value in rows then rows[m.placeId.value].id else nextId)
    ensures r.0[m.placeId.value] == RowFor(m, now, r.0[m.placeId.value].id)
  {
    var pid := m.placeId.value;
    if pid in rows then (rows[pid := RowFor(m, now, rows[pid].id)], nextId)
    else (rows[pid := RowFor(m, now, nextId)], nextId + 1)
  }

  /** An upsert keeps the table invariant: never two rows for one place id,
      never two rows with one primary key. */
  lemma UpsertKeepsInvariant(rows: map<string, PlaceRow>, nextId: nat, m: GooglePlaceModel, now: string)
    requires TableInvariant(rows, nextId) && Validate(m)
    ensures TableInvariant(Upsert(rows, nextId, m, now).0, Upsert(rows, nextId, m, now).1)
  {
    var pid := m.placeId.value;
    var key := if pid in rows then rows[pid].id else nextId;
    var n := if pid in rows then nextId else nextId + 1;
    var r := rows[pid := RowFor(m, now, key)];
    assert Upsert(rows, nextId, m, now) == (r, n);
    forall k | k in r
      ensures r[k].placeId == k && r[k].id < n
    {
      if k != pid {
        assert r[k] == rows[k];
      }
    }
    forall k1, k2 | k1 in r && k2 in r && k1 != k2
      ensures r[k1].id != r[k2].id
    {
      if k1 != pid && k2 != pid {
        assert r[k1] == rows[k1] && r[k2] == rows[k2];
      } else if k1 == pid {
        assert r[k2] == rows[k2];
      } else {
        assert r[k1] == rows[k1];
      }
    }
  }

  /** Saving a place, then saving it again with another display name,
      leaves exactly one row for it, under the same primary key, holding the
      new name. */
  lemma ResaveOverwrites(rows: map<string, PlaceRow>, nextId: nat, m: GooglePlaceModel,
                         name: string, now1: string, now2: string)
    requires Validate(m) && Validate(m.(displayName := Some(name)))
    ensures var (r1, n1) := Upsert(rows, nextId, m, now1);
            var (r2, n2) := Upsert(r1, n1, m.(displayName := Some(name)), now2);
            && r2.Keys == r1.Keys && |r2| == |r1| && n2 == n1
            && r2[m.placeId.value].displayName == name
            && r2[m.placeId.value].id == r1[m.placeId.value].id
  {
  }

  /** An ActiveRecord object for the table: its attributes are null until
      assigned, and `id` stays null until the row is inserted. */
  class GooglePlaceRecord {
    var id: Option<nat>
    var placeId: Option<string>
    var displayName: Option<string>
    var nationalPhoneNumber: Option<string>
    var formattedAddress: Option<string>
    var locationLatitude: Option<Float>
    var locationLongitude: Option<Float>
    var googleMapsLinksReviewsUri: Option<string>
    var websiteUri: Option<string>
    var regularOpeningHours: Option<Json>
    var updated: Option<string>

    /** `new GooglePlaceRecord()` */
    constructor ()
      ensures id.None? && placeId.None? && displayName.None? && nationalPhoneNumber.None?
      ensures formattedAddress.None? && locationLatitude.None? && locationLongitude.None?
      ensures googleMapsLinksReviewsUri.None? && websiteUri.None? && regularOpeningHours.None?
      ensures updated.None?
    {
      id, placeId, displayName, nationalPhoneNumber, formattedAddress := None, None, None, None, None;
      locationLatitude, locationLongitude, googleMapsLinksReviewsUri := None, None, None;
      websiteUri, regularOpeningHours, updated := None, None, None;
    }

    /** A record populated from a stored row, as findOne returns it. */
    constructor Load(row: PlaceRow)
      ensures Holds(row)
    {
      id, placeId, displayName := Some(row.id), Some(row.placeId), Some(row.displayName);
      nationalPhoneNumber, formattedAddress := row.nationalPhoneNumber, row.formattedAddress;
      locationLatitude, locationLongitude := row.locationLatitude, row.locationLongitude;
      googleMapsLinksReviewsUri, websiteUri := row.googleMapsLinksReviewsUri, row.websiteUri;
      regularOpeningHours, updated := row.regularOpeningHours, Some(row.updated);
    }

    /** The record's attributes are exactly those of the row. */
    ghost predicate Holds(row: PlaceRow)
      reads this
    {
      && id == Some(row.id) && placeId == Some(row.placeId) && displayName == Some(row.displayName)
      && nationalPhoneNumber == row.nationalPhoneNumber && formattedAddress == row.formattedAddress
      && locationLatitude == row.locationLatitude && locationLongitude == row.locationLongitude
      && googleMapsLinksReviewsUri == row.googleMapsLinksReviewsUri && websiteUri == row.websiteUri
      && regularOpeningHours == row.regularOpeningHours && updated == Some(row.updated)
    }

    /** The attribute copies of saveGooglePlaceData: the nine data
        attributes from the model, and `updated` from the model or else `now`. */
    method Assign(m: GooglePlaceModel, now: string)
      requires m.placeId.Some? && m.displayName.Some?
      modifies this
      ensures id == old(id) && placeId == m.placeId && Complete()
      ensures forall key: nat :: AsRow(key) == RowFor(m, now, key)
    {
      placeId, displayName := m.placeId, m.displayName;
      nationalPhoneNumber, formattedAddress := m.nationalPhoneNumber, m.formattedAddress;
      locationLatitude, locationLongitude := m.locationLatitude, m.locationLongitude;
      googleMapsLinksReviewsUri, websiteUri := m.googleMapsLinksReviewsUri, m.websiteUri;
      regularOpeningHours, updated := m.regularOpeningHours, Some(m.updated.GetOr(now));
    }

    /** The NOT NULL columns besides the primary key are set. */
    predicate Complete()
      reads this
    {
      placeId.Some? && displayName.Some? && updated.Some?
    }

    /** The row this record writes under the given primary key. */
    function AsRow(key: nat): PlaceRow
      reads this
      requires Complete()
    {
      PlaceRow(key, placeId.value, displayName.value, nationalPhoneNumber, formattedAddress,
               locationLatitude, locationLongitude, googleMapsLinksReviewsUri, websiteUri,
               regularOpeningHours, updated.value)
    }
  }

  /** The craftgoogleplaces_googleplaces table. */
  class PlaceTable {
    var rows: map<string, PlaceRow>
    var nextId: nat

    ghost predicate Valid()
      reads this
    {
      TableInvariant(rows, nextId)
    }

    constructor ()
      ensures Valid() && rows == map[]
    {
      rows := map[];
      nextId := 1;
    }

    /** `GooglePlaceRecord::findOne(['placeId' => $placeId])` */
    method FindOne(placeId: string) returns (r: GooglePlaceRecord?)
      ensures r == null <==> placeId !in rows
      ensures r != null ==> fresh(r) && r.Holds(rows[placeId])
    {
      if placeId in rows {
        r := new GooglePlaceRecord.Load(rows[placeId]);
      } else {
        r := null;
      }
    }

    /** `$record->save()` for a new record or one loaded from this table.
        The write goes through when the database accepts it
        (`accepted`), the NOT NULL columns are set, and an insert does not
        clash with the unique place id. An insert takes the next primary key. */
    method Save(record: GooglePlaceRecord, accepted: bool) returns (ok: bool)
      requires Valid()
      requires record.id.Some? ==>
                 record.placeId.Some? && record.placeId.value in rows
                 && rows[record.placeId.value].id == record.id.value
      modifies this, record
      ensures Valid()
      ensures ok <==> accepted && old(record.Complete())
                      && (old(record.id).None? ==> old(record.placeId).value !in old(rows))
      ensures !ok ==> rows == old(rows) && nextId == old(nextId) && unchanged(record)
      ensures ok ==> var key := old(record.id).GetOr(old(nextId));
                     && rows == old(rows)[old(record.placeId).value := old(record.AsRow(key))]
                     && nextId == (if old(record.id).None? then old(nextId) + 1 else old(nextId))
                     && record.Holds(rows[old(record.placeId).value])
    {
      if !accepted || !record.Complete() || (record.id.None? && record.placeId.value in rows) {
        return false;
      }
      var key: nat;
      if record.id.None? {
        key := nextId;
        nextId := nextId + 1;
        record.id := Some(key);
      } else {
        key := record.id.value;
      }
      var row := record.AsRow(key);
      rows := rows[record.placeId.value := row];
      ok := true;
      forall k1, k2 | k1 in rows && k2 in rows && k1 != k2
        ensures rows[k1].id != rows[k2].id
      {
        if k1 != row.placeId && k2 != row.placeId {
          assert rows[k1] == old(rows)[k1] && rows[k2] == old(rows)[k2];
        }
      }
    }
  }

  /** `saveGooglePlaceData($model)`: a model that does not validate is
      refused; otherwise the row with its place id is found or created, the
      attributes are copied, `updated` defaults to `now`, and the record is
      returned exactly when the save goes through. */
  method SaveGooglePlaceData(table: PlaceTable, model: GooglePlaceModel, now: string, accepted: bool)
    returns (r: GooglePlaceRecord?)
    requires table.Valid()
    modifies table
    ensures table.Valid()
    ensures r != null <==> Validate(model) && accepted
    ensures r == null ==> table.rows == old(table.rows) && table.nextId == old(table.nextId)
    ensures r != null ==> (table.rows, table.nextId) == Upsert(old(table.rows), old(table.nextId), model, now)
                          && r.Holds(table.rows[model.placeId.value])
  {
    if !Validate(model) {
      return null;
    }
    var pid := model.placeId.value;
    ghost var key := if pid in table.rows then table.rows[pid].id else table.nextId;
    var record := table.FindOne(pid);
    if record == null {
      record := new GooglePlaceRecord();
    }
    assert record.id.None? <==> pid !in table.rows;
    assert record.id.Some? ==> record.id.value == key;
    record.Assign(model, now);
    assert record.AsRow(key) == RowFor(model, now, key);
    var success := table.Save(record, accepted);
    if success {
      assert table.rows == old(table.rows)[pid := RowFor(model, now, key)];
      r := record;
    } else {
      r := null;
    }
  }

  /** What findGooglePlaceData returns: the stored row, or the result of a
      re-sync for the same place id and lookup (the sync itself is not part
      of this model). */
  datatype Found = Cached(row: PlaceRow) | Resync(placeId: Option<string>, lookup: Option<string>)

  /** `findGooglePlaceData($placeId, $lookup)`, with `today` the string
      date('Y-m-d') gives. A falsy place id is not looked up. A stored row is
      reused unless its `updated` is empty (which PHP's == finds equal to
      null) or today's date is above it as a string. */
  function FindGooglePlaceData(rows: map<string, PlaceRow>, placeId: Option<string>,
                               lookup: Option<string>, today: string): (r: Found)
    ensures r.Cached? ==> placeId.Some? && StringTruthy(placeId.value) && placeId.value in rows
                          && r.row == rows[placeId.value]
    ensures r.Resync? ==> r.placeId == placeId && r.lookup == lookup
    ensures placeId.None? || !StringTruthy(placeId.value) ==> r.Resync?
  {
    var record := if placeId.Some? && StringTruthy(placeId.value) && placeId.value in rows
                  then Some(rows[placeId.value]) else None;
    if record.None? || record.value.updated == "" || LexLess(record.value.updated, today) then
      Resync(placeId, lookup)
    else
      Cached(record.value)
  }

  /** For a row stamped with a `Y-m-d H:i:s` time, the check is a calendar
      one: the row is reused on its own day and on any day before it, and a
      re-sync happens from the next calendar day on. */
  lemma FreshnessByCalendarDay(rows: map<string, PlaceRow>, placeId: string, lookup: Option<string>,
                               t: DateTime, today: Date)
    requires StringTruthy(placeId) && placeId in rows
    requires ValidDateTime(t) && ValidDate(today) && rows[placeId].updated == YmdHis(t)
    ensures FindGooglePlaceData(rows, Some(placeId), lookup, Ymd(today))
            == (if Before(t.date, today) then Resync(Some(placeId), lookup) else Cached(rows[placeId]))
  {
    TimestampBeforeDay(t, today);
  }

  /** A valid model saved without an `updated` value at time `t` is served
      from the table for the rest of that day. */
  lemma SavedTodayIsFresh(rows: map<string, PlaceRow>, nextId: nat, m: GooglePlaceModel,
                          t: DateTime, lookup: Option<string>)
    requires Validate(m) && m.updated.None? && StringTruthy(m.placeId.value) && ValidDateTime(t)
    ensures var stored := Upsert(rows, nextId, m, YmdHis(t)).0;
            FindGooglePlaceData(stored, m.placeId, lookup, Ymd(t.date)) == Cached(stored[m.placeId.value])
  {
    var stored := Upsert(rows, nextId, m, YmdHis(t)).0;
    assert stored[m.placeId.value].updated == YmdHis(t);
    FreshnessByCalendarDay(stored, m.placeId.value, lookup, t, t.date);
  }
}
