/** The intel types of the logistics service and the content record each
    type carries. Store, public and event representations use the same type
    names and the same JSON field names, so one content mapper serves the
    HTTP handlers (logistics-svc/endpoints/intel_handlers.go) and the event
    notifier (logistics-svc/eventport/notifiers.go): it decodes the raw
    content as the record of the type, copies every field and encodes the
    record again. */
module IntelContent {
  import opened Common
  import opened Json

  const TypeAnalogRadioMessage: string := "analog-radio-message"
  const TypePlaintextMessage: string := "plaintext-message"

  /** The types that have a content mapper. */
  const KnownTypes: set<string> := {TypeAnalogRadioMessage, TypePlaintextMessage}

  /** JSON field names of the two content records. */
  const KeyChannel: string := "channel"
  const KeyCallsign: string := "callsign"
  const KeyHead: string := "head"
  const KeyContent: string := "content"
  const KeyText: string := "text"

  /** The content record of an intel, by type. */
  datatype Content =
    | AnalogRadio(channel: string, callsign: string, head: string, content: string)
    | Plaintext(text: string)

  function TypeOf(c: Content): (t: string)
    ensures t in KnownTypes
  {
    match c
    case AnalogRadio(_, _, _, _) => TypeAnalogRadioMessage
    case Plaintext(_) => TypePlaintextMessage
  }

  /** `json.Unmarshal` of raw content into the record of the given type: a
      type without mapper, undecodable text and a non-string field are
      internal errors; absent fields stay empty. */
  function DecodeContent(intelType: string, raw: Raw): (r: Result<Content>)
    ensures intelType !in KnownTypes ==> r == Err(Internal)
    ensures StructFields(raw).None? ==> r == Err(Internal)
    ensures r.Err? ==> r.code == Internal
    ensures r.Ok? ==> TypeOf(r.value) == intelType
    ensures intelType == TypePlaintextMessage && StructFields(raw).Some? ==>
      (r.Ok? <==> StringField(StructFields(raw).value, KeyText).Some?)
    ensures r.Ok? && r.value.Plaintext? ==> Some(r.value.text) == StringField(StructFields(raw).value, KeyText)
    ensures r.Ok? && r.value.AnalogRadio? ==>
      var fs := StructFields(raw).value;
      && Some(r.value.channel) == StringField(fs, KeyChannel)
      && Some(r.value.callsign) == StringField(fs, KeyCallsign)
      && Some(r.value.head) == StringField(fs, KeyHead)
      && Some(r.value.content) == StringField(fs, KeyContent)
  {
    if intelType !in KnownTypes then Err(Internal)
    else match StructFields(raw)
      case None => Err(Internal)
      case Some(fs) =>
        if intelType == TypePlaintextMessage then
          match StringField(fs, KeyText)
          case None => Err(Internal)
          case Some(text) => Ok(Plaintext(text))
        else
          match (StringField(fs, KeyChannel), StringField(fs, KeyCallsign), StringField(fs, KeyHead), StringField(fs, KeyContent))
          case (Some(channel), Some(callsign), Some(head), Some(content)) => Ok(AnalogRadio(channel, callsign, head, content))
          case _ => Err(Internal)
  }

  /** `json.Marshal` of a content record: an object with exactly the fields of
      the record. */
  function EncodeContent(c: Content): (v: JVal)
    ensures v.JObject?
    ensures c.Plaintext? ==> v.fields.Keys == {KeyText} && v.fields[KeyText] == JString(c.text)
    ensures c.AnalogRadio? ==>
      && v.fields.Keys == {KeyChannel, KeyCallsign, KeyHead, KeyContent}
      && v.fields[KeyChannel] == JString(c.channel)
      && v.fields[KeyCallsign] == JString(c.callsign)
      && v.fields[KeyHead] == JString(c.head)
      && v.fields[KeyContent] == JString(c.content)
  {
    match c
    case Plaintext(text) => JObject(map[KeyText := JString(text)])
    case AnalogRadio(channel, callsign, head, content) =>
      JObject(map[KeyChannel := JString(channel), KeyCallsign := JString(callsign), KeyHead := JString(head), KeyContent := JString(content)])
  }

  /** Encoding a record and decoding it as its own type gives it back. */
  lemma DecodeEncodedContent(c: Content)
    ensures DecodeContent(TypeOf(c), Doc(EncodeContent(c))) == Ok(c)
  {
  }

  /** `intelContentMapper` with a field-copying mapping, selected by type
      (`publicIntelContentFromStore`, `storeIntelContentFromPublic`,
      `mapIntelContentFromStore`). */
  function MapContent(intelType: string, raw: Raw): (r: Result<JVal>)
    ensures r.Ok? <==> DecodeContent(intelType, raw).Ok?
    ensures r.Err? ==> r.code == Internal
    ensures r.Ok? ==> DecodeContent(intelType, Doc(r.value)) == DecodeContent(intelType, raw)
  {
    match DecodeContent(intelType, raw)
    case Err(code) => Err(code)
    case Ok(c) =>
      DecodeEncodedContent(c);
      Ok(EncodeContent(c))
  }

  /** Mapping content that was already mapped changes nothing: the store and
      the public form carry the same fields, so a round trip through both
      directions is the identity on mapped content. */
  lemma MapContentIdempotent(intelType: string, raw: Raw)
    requires MapContent(intelType, raw).Ok?
    ensures MapContent(intelType, Doc(MapContent(intelType, raw).value)) == MapContent(intelType, raw)
  {
    var c := DecodeContent(intelType, raw).value;
    DecodeEncodedContent(c);
  }

  /** A plaintext document with a text field maps to exactly that text. */
  lemma PlaintextIsCopied(text: string, extra: map<string, JVal>)
    ensures MapContent(TypePlaintextMessage, Doc(JObject(extra[KeyText := JString(text)]))) == Ok(JObject(map[KeyText := JString(text)]))
  {
    var fs := extra[KeyText := JString(text)];
    assert StringField(fs, KeyText) == Some(text);
  }
}
