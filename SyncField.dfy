/** The Google Places Sync field type: the save gate that runs the sync
    service on a changed, non-revision element, and the conversions of the
    field's value to and from its TEXT content column. JSON encoding and
    decoding are parameters. */
module SyncField {
  import opened Php
  import opened PlacesSync

  /** The column type the field's content is stored in. */
  function ContentColumnType(): (t: string)
    ensures t == "text"
  {
    "text"
  }

  /** `beforeElementSave($element, $isNew)` for the field with handle
      `handle`: a revision, or an element whose field value has not
      changed, saves on with nothing synced; otherwise the answer is sync's.
      `isNew` plays no part. */
  method BeforeElementSave(element: Element, handle: string, isNew: bool, api: Api)
    returns (ok: bool, calls: seq<ApiCall>)
    requires handle in element.fields
    modifies element
    ensures ok
    ensures old(element.isRevision) || handle !in old(element.dirty) ==>
              calls == [] && unchanged(element)
    ensures !old(element.isRevision) && handle in old(element.dirty) ==>
              && calls == SyncRun(old(element.fields[handle]), api).calls
              && Applied(element, handle, old(element.fields[handle]), SyncRun(old(element.fields[handle]), api),
                         old(element.fields), old(element.dirty), old(element.writes), old(element.isRevision))
  {
    if !element.isRevision && handle in element.dirty {
      ok, calls := Sync(element, handle, api);
    } else {
      ok, calls := true, [];
    }
  }

  /** `normalizeValue($value)`: null becomes the empty array, a string that
      holds JSON becomes what it decodes to, and anything else is kept. */
  function NormalizeValue(value: Json, decode: string -> Option<Json>): (v: Json)
    ensures value.JNull? ==> v == JList([])
    ensures value.JStr? && decode(value.s).Some? ==> v == decode(value.s).value
    ensures !value.JNull? && !(value.JStr? && decode(value.s).Some?) ==> v == value
  {
    var raw := if value.JNull? then JList([]) else value;
    if raw.JStr? && decode(raw.s).Some? then decode(raw.s).value else raw
  }

  /** `serializeValue($value)`: the value JSON-encoded. The parent class
      passes a string through unchanged. */
  function SerializeValue(value: Json, encode: Json -> string): (stored: Json)
    ensures stored.JStr? && stored.s == encode(value)
  {
    JStr(encode(value))
  }

  /** What serializeValue stores, normalizeValue reads back, whenever the
      JSON codec round-trips the value. */
  lemma StoredValueReadsBack(value: Json, encode: Json -> string, decode: string -> Option<Json>)
    requires decode(encode(value)) == Some(value)
    ensures NormalizeValue(SerializeValue(value, encode), decode) == value
  {
  }

  /** A stored field with no content reads as the empty array, which holds
      neither an id nor a lookup, so a sync of it changes nothing. */
  lemma EmptyColumnSyncsNothing(decode: string -> Option<Json>, api: Api)
    ensures NormalizeValue(JNull, decode) == JList([])
    ensures SyncRun(NormalizeValue(JNull, decode), api) == Run([], [])
  {
  }
}
