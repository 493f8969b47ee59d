/** JSON documents as the services exchange them: the raw message bodies of
    channel details and intel content, and Go's decoding of a flat struct
    from such a document. */
module Json {
  import opened Common

  datatype JVal =
    | JNull
    | JBool(b: bool)
    | JNumber(n: int)
    | JString(s: string)
    | JArray(items: seq<JVal>)
    | JObject(fields: map<string, JVal>)

  /** A `json.RawMessage`: either text that is not JSON at all or a document. */
  datatype Raw = Malformed | Doc(v: JVal)

  /** The fields a struct is decoded from: a document that is `null` decodes
      to the zero struct, an object to its fields, anything else fails. */
  function StructFields(raw: Raw): (r: Option<map<string, JVal>>)
    ensures raw.Malformed? ==> r.None?
    ensures raw == Doc(JNull) ==> r == Some(map[])
    ensures raw.Doc? && raw.v.JObject? ==> r == Some(raw.v.fields)
    ensures r.Some? ==> raw.Doc? && (raw.v.JNull? || raw.v.JObject?)
  {
    match raw
    case Malformed => None
    case Doc(JNull) => Some(map[])
    case Doc(JObject(fields)) => Some(fields)
    case Doc(_) => None
  }

  /** A `string` struct field: absent or `null` keeps the empty string, a
      JSON string is taken, any other value is a type error. */
  function StringField(fields: map<string, JVal>, key: string): (r: Option<string>)
    ensures key !in fields || fields[key].JNull? ==> r == Some("")
    ensures key in fields && fields[key].JString? ==> r == Some(fields[key].s)
    ensures r.None? <==> key in fields && !fields[key].JNull? && !fields[key].JString?
  {
    if key !in fields then Some("")
    else match fields[key]
      case JNull => Some("")
      case JString(s) => Some(s)
      case _ => None
  }

  /** The elements of a `[]uuid.UUID`: every element must be a string holding
      a UUID. */
  function IdsOf(items: seq<JVal>): (r: Option<seq<Id>>)
    ensures r.Some? <==> forall i :: 0 <= i < |items| ==> items[i].JString? && ParseUuid(items[i].s).Some?
    ensures r.Some? ==> |r.value| == |items|
    ensures r.Some? ==> forall i :: 0 <= i < |items| ==> Some(r.value[i]) == ParseUuid(items[i].s)
  {
    if |items| == 0 then Some([])
    else if !items[0].JString? then None
    else match ParseUuid(items[0].s)
      case None => None
      case Some(id) =>
        match IdsOf(items[1..])
        case None => None
        case Some(rest) => Some([id] + rest)
  }

  /** A `[]uuid.UUID` struct field: absent or `null` is the empty list. */
  function IdListField(fields: map<string, JVal>, key: string): (r: Option<seq<Id>>)
    ensures key !in fields || fields[key].JNull? ==> r == Some([])
    ensures key in fields && fields[key].JArray? ==> r == IdsOf(fields[key].items)
    ensures key in fields && !fields[key].JNull? && !fields[key].JArray? ==> r.None?
  {
    if key !in fields then Some([])
    else match fields[key]
      case JNull => Some([])
      case JArray(items) => IdsOf(items)
      case _ => None
  }

  /** `json.Unmarshal` into a `[]uuid.UUID` that is left alone by `null`. */
  function IdList(raw: Raw): (r: Option<seq<Id>>)
    ensures raw == Doc(JNull) ==> r == Some([])
    ensures raw.Doc? && raw.v.JArray? ==> r == IdsOf(raw.v.items)
    ensures r.Some? ==> raw.Doc? && (raw.v.JNull? || raw.v.JArray?)
  {
    match raw
    case Doc(JNull) => Some([])
    case Doc(JArray(items)) => IdsOf(items)
    case _ => None
  }

  /** `json.Marshal` of a `[]uuid.UUID`. */
  function IdArray(ids: seq<Id>): (v: JVal)
    ensures v.JArray? && |v.items| == |ids|
    ensures forall i :: 0 <= i < |ids| ==> v.items[i] == JString(ids[i])
  {
    JArray(Map((id: Id) => JString(id), ids))
  }

  /** Decoding a marshalled id list gives the list back. */
  lemma {:induction false} IdsOfIdArray(ids: seq<Id>)
    ensures IdsOf(IdArray(ids).items) == Some(ids)
  {
    var items := IdArray(ids).items;
    forall i | 0 <= i < |items|
      ensures items[i].JString? && ParseUuid(items[i].s) == Some(ids[i])
    {
      ParseUuidOfId(ids[i]);
    }
    assert IdsOf(items).Some?;
    var r := IdsOf(items).value;
    assert forall i :: 0 <= i < |ids| ==> Some(r[i]) == Some(ids[i]);
    assert r == ids;
  }
}
