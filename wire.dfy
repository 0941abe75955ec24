/** How a history item crosses from the backend to the frontend: serde turns the
    Rust struct into a JSON object, and the page reads that object's properties
    through the frontend's `HistoryItem` interface. */
module Wire {
  import opened Wrappers
  import opened Models
  import AppStore

  datatype Json = JString(text: string) | JNumber(number: int)

  type JsonObject = map<string, Json>

  /** The derived `Serialize` of `HistoryItem` in src-tauri/src/models.rs, which
      has no rename attribute: the keys are the Rust field names, snake_case. */
  function SerializeHistoryItem(item: HistoryItem): (o: JsonObject)
    ensures o.Keys == {"id", "provider", "original_name", "url", "created_at", "thumbnail_base64"}
  {
    map["id" := JString(item.id), "provider" := JString(item.provider),
        "original_name" := JString(item.originalName), "url" := JString(item.url),
        "created_at" := JNumber(item.createdAt), "thumbnail_base64" := JString(item.thumbnailBase64)]
  }

  /** The same struct serialized with `#[serde(rename_all = "camelCase")]`: the
      property names the frontend declares. */
  function SerializeHistoryItemCamel(item: HistoryItem): (o: JsonObject)
    ensures o.Keys == {"id", "provider", "originalName", "url", "createdAt", "thumbnailBase64"}
  {
    map["id" := JString(item.id), "provider" := JString(item.provider),
        "originalName" := JString(item.originalName), "url" := JString(item.url),
        "createdAt" := JNumber(item.createdAt), "thumbnailBase64" := JString(item.thumbnailBase64)]
  }

  /** A string property, or `None` for `undefined` (absent or of another type). */
  function StringProp(o: JsonObject, key: string): (r: Option<string>)
    ensures r.Some? <==> key in o && o[key].JString?
  {
    if key in o && o[key].JString? then Some(o[key].text) else None
  }

  /** A number property, or `None` for `undefined`. */
  function NumberProp(o: JsonObject, key: string): (r: Option<int>)
    ensures r.Some? <==> key in o && o[key].JNumber?
  {
    if key in o && o[key].JNumber? then Some(o[key].number) else None
  }

  /** The object read as the frontend's `HistoryItem`: defined only when every
      declared property is there with its declared type. */
  function ReadHistoryItem(o: JsonObject): (r: Option<AppStore.HistoryItem>)
    ensures r.Some? <==>
      && StringProp(o, "id").Some? && StringProp(o, "provider").Some?
      && StringProp(o, "originalName").Some? && StringProp(o, "url").Some?
      && NumberProp(o, "createdAt").Some? && StringProp(o, "thumbnailBase64").Some?
    ensures r.Some? ==> r.value.id == StringProp(o, "id").value && r.value.url == StringProp(o, "url").value
  {
    match (StringProp(o, "id"), StringProp(o, "provider"), StringProp(o, "originalName"),
           StringProp(o, "url"), NumberProp(o, "createdAt"), StringProp(o, "thumbnailBase64"))
    case (Some(id), Some(provider), Some(name), Some(url), Some(created), Some(thumb)) =>
      Some(AppStore.HistoryItem(id, provider, name, url, created, thumb))
    case _ => None
  }

  /** As written, the reply the history page receives has no `originalName`,
      `createdAt` or `thumbnailBase64` property: the card shows an empty name,
      an invalid date and no thumbnail. `id`, `url` and `provider` do arrive. */
  lemma AsWrittenPropertiesUndefined(item: HistoryItem)
    ensures var o := SerializeHistoryItem(item);
      && StringProp(o, "originalName").None?
      && NumberProp(o, "createdAt").None?
      && StringProp(o, "thumbnailBase64").None?
      && ReadHistoryItem(o).None?
      && StringProp(o, "id") == Some(item.id)
      && StringProp(o, "url") == Some(item.url)
  {
    var o := SerializeHistoryItem(item);
    assert "originalName" !in o.Keys;
  }

  /** The frontend entry for a backend row: the same six values. */
  function ToStoreItem(item: HistoryItem): AppStore.HistoryItem {
    AppStore.HistoryItem(item.id, item.provider, item.originalName, item.url, item.createdAt, item.thumbnailBase64)
  }

  /** With camelCase serialization the frontend reads back every field. */
  lemma CamelRoundTrip(item: HistoryItem)
    ensures ReadHistoryItem(SerializeHistoryItemCamel(item)) == Some(ToStoreItem(item))
  {
  }

  /** The list the history page stores for a reply, with the camelCase fix
      applied: each row serialized with camelCase names and read back through
      the frontend interface. As written the page instead receives the objects
      of `SerializeHistoryItem`. */
  function Receive(items: seq<HistoryItem>): (r: seq<AppStore.HistoryItem>)
    ensures |r| == |items|
    ensures forall i :: 0 <= i < |items| ==> r[i] == ToStoreItem(items[i])
    decreases |items|
  {
    if items == [] then []
    else
      CamelRoundTrip(items[0]);
      [ReadHistoryItem(SerializeHistoryItemCamel(items[0])).value] + Receive(items[1..])
  }

  /** Receiving keeps ids unique. */
  lemma ReceiveKeepsIdsUnique(items: seq<HistoryItem>)
    requires forall i, j :: 0 <= i < j < |items| ==> items[i].id != items[j].id
    ensures AppStore.UniqueIds(Receive(items))
  {
  }
}
