/** The registry payload (`parsePayload`, `getPayload` and `getBundledDefaults` in
    scripts/apps.js): a list of raw application records plus version metadata, accepted as
    a bare array, as `{apps}` or `{items}`, with the metadata nested under `meta` or flat. */
module Payload {
  import opened Maybe
  import opened JsonValue
  import opened Entries

  datatype Meta = Meta(version: string, updated: string, updatedBy: string)

  const EmptyMeta := Meta("", "", "")

  /** What `parsePayload` extracts: the raw records and the metadata. */
  datatype Parsed = Parsed(apps: seq<Json>, meta: Meta)

  /** The three metadata fields read from one object, each "" when missing. */
  function MetaOf(j: Json): Meta {
    Meta(Str(j, "version"), Str(j, "updated"), Str(j, "updatedBy"))
  }

  function MetaToJson(m: Meta): (j: Json)
    ensures MetaOf(j) == m
  {
    JObj(map["version" := JStr(m.version), "updated" := JStr(m.updated),
             "updatedBy" := JStr(m.updatedBy)])
  }

  /** The record list of an object payload: `apps` when it is an array, else `items` when
      that is an array, else nothing. */
  function ListOf(payload: Json): seq<Json> {
    if Get(payload, "apps").JArr? then Get(payload, "apps").items
    else if Get(payload, "items").JArr? then Get(payload, "items").items
    else []
  }

  /** `parsePayload(payload)`. Total: a bare array is the record list with empty metadata,
      an object yields its list and the metadata of its `meta` object (arrays count as
      objects here) or, when that is absent, of its own top level; anything else is empty. */
  function ParsePayload(payload: Json): (p: Parsed)
    ensures payload.JArr? ==> p == Parsed(payload.items, EmptyMeta)
    ensures payload.JObj? && Get(payload, "apps").JArr? ==> p.apps == Get(payload, "apps").items
    ensures payload.JObj? && !Get(payload, "apps").JArr? && Get(payload, "items").JArr? ==>
              p.apps == Get(payload, "items").items
    ensures payload.JObj? && !Get(payload, "apps").JArr? && !Get(payload, "items").JArr? ==>
              p.apps == []
    ensures payload.JObj? && IsObject(Get(payload, "meta")) ==> p.meta == MetaOf(Get(payload, "meta"))
    ensures payload.JObj? && !IsObject(Get(payload, "meta")) ==> p.meta == MetaOf(payload)
    ensures !IsObject(payload) ==> p == Parsed([], EmptyMeta)
  {
    match payload
    case JArr(items) => Parsed(items, EmptyMeta)
    case JObj(_) =>
      var info := Get(payload, "meta");
      Parsed(ListOf(payload), if IsObject(info) then MetaOf(info) else MetaOf(payload))
    case _ => Parsed([], EmptyMeta)
  }

  /** The `{apps, meta}` object a parsed payload is handed on as. */
  function ParsedToJson(p: Parsed): Json {
    JObj(map["apps" := JArr(p.apps), "meta" := MetaToJson(p.meta)])
  }

  /** Parsing the `{apps, meta}` form of a parsed payload gives that payload back. */
  lemma ParsedRoundTrip(p: Parsed)
    ensures ParsePayload(ParsedToJson(p)) == p
  {
    var j := ParsedToJson(p);
    assert Get(j, "apps") == JArr(p.apps);
    assert Get(j, "meta") == MetaToJson(p.meta);
  }

  /** `getPayload(list)`: the flat object the registry is saved and exported as. It has
      exactly the three metadata fields and `apps`, each read back as written, and no
      nested `meta` block. */
  function GetPayload(m: Meta, list: seq<Entry>): (j: Json)
    ensures j.JObj? && j.fields.Keys == {"version", "updated", "updatedBy", "apps"}
    ensures Str(j, "version") == m.version && Str(j, "updated") == m.updated
    ensures Str(j, "updatedBy") == m.updatedBy
    ensures Get(j, "apps") == EntriesToJson(list) && Get(j, "meta") == JNull
  {
    JObj(map["version" := JStr(m.version), "updated" := JStr(m.updated),
             "updatedBy" := JStr(m.updatedBy), "apps" := EntriesToJson(list)])
  }

  /** Reading a saved payload back yields the saved metadata and the serialised records. */
  lemma GetPayloadRoundTrip(m: Meta, list: seq<Entry>)
    ensures ParsePayload(GetPayload(m, list)) == Parsed(EntriesToJson(list).items, m)
  {
    var j := GetPayload(m, list);
    assert Get(j, "apps") == EntriesToJson(list);
    assert Get(j, "meta") == JNull;
    assert Str(j, "version") == m.version;
    assert Str(j, "updated") == m.updated;
    assert Str(j, "updatedBy") == m.updatedBy;
  }

  /** A saved canonical registry reloads exactly: the same entries and the same metadata. */
  lemma SavedRegistryReloads(m: Meta, list: seq<Entry>)
    requires forall i :: 0 <= i < |list| ==> Canonical(list[i])
    ensures Normalize(JArr(ParsePayload(GetPayload(m, list)).apps)) == list
    ensures ParsePayload(GetPayload(m, list)).meta == m
  {
    GetPayloadRoundTrip(m, list);
    NormalizeRoundTrip(list);
  }

  /** `getBundledDefaults()` over the values of `DEFAULT_APPS` and `DEFAULT_APPS_META`
      (`JNull` when undefined). An array is paired with the metadata global; an object is
      parsed as a payload; anything else offers nothing. Whatever is offered parses back to
      exactly that content. */
  function GetBundledDefaults(defaultApps: Json, defaultAppsMeta: Json): (r: Option<Json>)
    ensures r.Some? <==> IsObject(defaultApps)
    ensures defaultApps.JArr? ==>
              r.Some? && ParsePayload(r.value) == Parsed(defaultApps.items, MetaOf(defaultAppsMeta))
    ensures defaultApps.JObj? ==> r.Some? && ParsePayload(r.value) == ParsePayload(defaultApps)
  {
    if defaultApps.JArr? then
      ParsedRoundTrip(Parsed(defaultApps.items, MetaOf(defaultAppsMeta)));
      Some(ParsedToJson(Parsed(defaultApps.items, MetaOf(defaultAppsMeta))))
    else if defaultApps.JObj? then
      ParsedRoundTrip(ParsePayload(defaultApps));
      Some(ParsedToJson(ParsePayload(defaultApps)))
    else None
  }
}
