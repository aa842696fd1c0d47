/** The persisted document: the whole store written as one JSON object that
    maps each id to a record object with the fields payload, name,
    description and id, and read back at start-up. JSON text and the file
    system are not modelled; a document is a JSON value. */
module Persistence {
  import opened Wrappers
  import opened Notifications

  datatype Json = JNull | JString(s: string) | JObject(fields: map<string, Json>)

  /** Why a present file could not be loaded into a store. */
  datatype LoadError =
    | NotAnObject      // the document is not a JSON object, so it has no items
    | MalformedRecord  // some entry cannot be turned into a Notification

  const PayloadField: string := "payload"
  const NameField: string := "name"
  const DescriptionField: string := "description"
  const IdField: string := "id"

  function EncodeOptional(o: Option<string>): Json
  {
    match o
    case None => JNull
    case Some(s) => JString(s)
  }

  function DecodeOptional(j: Json): (r: Option<Option<string>>)
    ensures forall o :: j == EncodeOptional(o) ==> r == Some(o)
  {
    match j
    case JNull => Some(None)
    case JString(s) => Some(Some(s))
    case JObject(_) => None
  }

  /** One record as its dataclass fields. */
  function EncodeRecord(n: Notification): (j: Json)
    ensures j.JObject? && j.fields.Keys == {PayloadField, NameField, DescriptionField, IdField}
    ensures j.fields[IdField] == JString(n.id)
  {
    JObject(map[PayloadField := JString(n.payload),
                NameField := EncodeOptional(n.name),
                DescriptionField := EncodeOptional(n.description),
                IdField := JString(n.id)])
  }

  /** One entry of a loaded document: the record is rebuilt from its fields
      (payload, name and description must be present, id may be, nothing
      else may) and its id is then overwritten by the entry's key. */
  function DecodeRecord(key: string, j: Json): (r: Option<Notification>)
    ensures r.Some? ==> r.value.id == key
  {
    if !j.JObject? then None
    else
      var f := j.fields;
      if !(f.Keys <= {PayloadField, NameField, DescriptionField, IdField}) then None
      else if PayloadField !in f || NameField !in f || DescriptionField !in f then None
      else if !f[PayloadField].JString? then None
      else
        match (DecodeOptional(f[NameField]), DecodeOptional(f[DescriptionField]))
        case (Some(name), Some(description)) =>
          Some(Notification(f[PayloadField].s, name, description, key))
        case _ => None
  }

  /** Writes each value of `m` with `enc` under its key. */
  function EncodeEntries<V>(m: map<string, V>, enc: V -> Json): (fields: map<string, Json>)
    ensures fields.Keys == m.Keys
    ensures forall k :: k in m ==> fields[k] == enc(m[k])
  {
    map k | k in m :: enc(m[k])
  }

  /** Reads each entry of an object with `dec`; one entry that `dec`
      refuses makes the whole read fail. */
  ghost function DecodeEntries<V>(fields: map<string, Json>, dec: (string, Json) -> Option<V>): (r: Option<map<string, V>>)
    ensures r.Some? <==> forall k :: k in fields ==> dec(k, fields[k]).Some?
    ensures r.Some? ==> r.value.Keys == fields.Keys
    ensures r.Some? ==> forall k :: k in fields ==> dec(k, fields[k]) == Some(r.value[k])
  {
    if forall k :: k in fields ==> dec(k, fields[k]).Some?
    then Some(map k | k in fields :: dec(k, fields[k]).value)
    else None
  }

  /** Reading back entries written with an encoder that `dec` inverts
      gives the original map. */
  lemma DecodeEncodedEntries<V>(m: map<string, V>, enc: V -> Json, dec: (string, Json) -> Option<V>)
    requires forall k :: k in m ==> dec(k, enc(m[k])) == Some(m[k])
    ensures DecodeEntries(EncodeEntries(m, enc), dec) == Some(m)
  {
    var r := DecodeEntries(EncodeEntries(m, enc), dec);
    assert r.value == m;
  }

  /** The whole store as one document. */
  function EncodeStore(m: map<string, Notification>): (doc: Json)
    ensures doc.JObject? && doc.fields.Keys == m.Keys
  {
    JObject(EncodeEntries(m, EncodeRecord))
  }

  /** What loading a present document yields: every entry decoded, or the
      error that aborts the load. */
  ghost function DecodeDocument(doc: Json): (r: Result<map<string, Notification>, LoadError>)
    ensures r.Ok? ==> doc.JObject? && r.value.Keys == doc.fields.Keys && IdsMatchKeys(r.value)
    ensures r.Err? <==> !doc.JObject? || DecodeEntries(doc.fields, DecodeRecord).None?
  {
    if !doc.JObject? then Err(NotAnObject)
    else match DecodeEntries(doc.fields, DecodeRecord)
      case None => Err(MalformedRecord)
      case Some(m) => Ok(m)
  }

  /** Loading the file: an absent file gives an empty store. */
  ghost function LoadFile(file: Option<Json>): (r: Result<map<string, Notification>, LoadError>)
    ensures file.None? ==> r == Ok(map[])
    ensures r.Ok? ==> IdsMatchKeys(r.value)
  {
    match file
    case None => Ok(map[])
    case Some(doc) => DecodeDocument(doc)
  }

  /** Reading back a record that was written under its own id gives the
      record unchanged. */
  lemma RecordRoundTrip(n: Notification)
    ensures DecodeRecord(n.id, EncodeRecord(n)) == Some(n)
  {
    var f := EncodeRecord(n).fields;
    assert f[NameField] == EncodeOptional(n.name);
    assert f[DescriptionField] == EncodeOptional(n.description);
  }

  /** Saving a store that keeps its invariant and loading the document
      reproduces the same map: same keys and, per key, the same payload,
      name, description and id. */
  lemma StoreRoundTrip(m: map<string, Notification>)
    requires IdsMatchKeys(m)
    ensures DecodeDocument(EncodeStore(m)) == Ok(m)
  {
    forall k | k in m
      ensures DecodeRecord(k, EncodeRecord(m[k])) == Some(m[k])
    {
      RecordRoundTrip(m[k]);
    }
    DecodeEncodedEntries(m, EncodeRecord, DecodeRecord);
  }

  /** Loading a file that holds a saved store yields that store. */
  lemma LoadAfterSave(m: map<string, Notification>)
    requires IdsMatchKeys(m)
    ensures LoadFile(Some(EncodeStore(m))) == Ok(m)
  {
    StoreRoundTrip(m);
  }
}
