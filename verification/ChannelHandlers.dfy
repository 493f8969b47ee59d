/** The HTTP representation of channels in the logistics service
    (logistics-svc/endpoints/channel_handlers.go): conversion between the
    public and the store channel, the details codecs and the user limit of
    the channel handlers. */
module ChannelHandlers {
  import opened Common
  import opened Json
  import opened Auth
  import opened Channels

  /** `publicChannel`: the details travel as a raw JSON message and there is
      no active flag. */
  datatype PublicChannel = PublicChannel(
    id: Id,
    entry: Id,
    labelText: string,
    channelType: string,
    priority: int,
    minImportance: int,
    details: Raw,
    timeout: Time)

  // ---------------------------------------------------------------------------
  // Details

  /** The JSON document of the public details struct of each variant. */
  function PublicDetailsFromStore(d: ChannelDetails): (r: Option<JVal>)
    ensures r.Some? <==> !d.NoDetails?
    ensures r.Some? ==> r.value.JObject?
  {
    match d
    case DirectDetails(info) => Some(JObject(map["info" := JString(info)]))
    case EmailDetails(email) => Some(JObject(map["email" := JString(email)]))
    case ForwardToGroupDetails(groups) => Some(JObject(map["forward_to_group" := IdArray(groups)]))
    case ForwardToUserDetails(users) => Some(JObject(map["forward_to_user" := IdArray(users)]))
    case InAppNotificationDetails => Some(JObject(map[]))
    case PhoneCallDetails(phone) => Some(JObject(map["phone" := JString(phone)]))
    case RadioDetails(info) => Some(JObject(map["info" := JString(info)]))
    case NoDetails => None
  }

  /** Decodes the public details of a supported channel type into the
      store variant of that type. */
  function StoreDetailsFromPublic(channelType: string, raw: Raw): (r: Option<ChannelDetails>)
    requires channelType in SupportedTypes
    ensures StructFields(raw).None? ==> r.None?
    ensures r.Some? ==> TypeOfDetails(r.value) == Some(channelType)
  {
    match StructFields(raw)
    case None => None
    case Some(f) =>
      if channelType == TypeDirect then
        match StringField(f, "info") case None => None case Some(v) => Some(DirectDetails(v))
      else if channelType == TypeEmail then
        match StringField(f, "email") case None => None case Some(v) => Some(EmailDetails(v))
      else if channelType == TypeForwardToGroup then
        match IdListField(f, "forward_to_group") case None => None case Some(v) => Some(ForwardToGroupDetails(v))
      else if channelType == TypeForwardToUser then
        match IdListField(f, "forward_to_user") case None => None case Some(v) => Some(ForwardToUserDetails(v))
      else if channelType == TypeInAppNotification then
        Some(InAppNotificationDetails)
      else if channelType == TypePhoneCall then
        match StringField(f, "phone") case None => None case Some(v) => Some(PhoneCallDetails(v))
      else
        match StringField(f, "info") case None => None case Some(v) => Some(RadioDetails(v))
  }

  // ---------------------------------------------------------------------------
  // Channels

  /** `publicChannelFromStore`: the metadata is copied; details without a
      public form are an internal error. The conversion looks only at the
      details variant, not at the channel type. */
  function PublicChannelFromStore(s: Channel): (r: Result<PublicChannel>)
    ensures r.Err? <==> s.details.NoDetails?
    ensures r.Err? ==> r.code == Internal
    ensures r.Ok? ==>
      var p := r.value;
      && p.id == s.id && p.entry == s.entry && p.labelText == s.labelText
      && p.channelType == s.channelType && p.priority == s.priority
      && p.minImportance == s.minImportance && p.timeout == s.timeout
      && p.details.Doc?
  {
    match PublicDetailsFromStore(s.details)
    case None => Err(Internal)
    case Some(doc) =>
      Ok(PublicChannel(s.id, s.entry, s.labelText, s.channelType, s.priority, s.minImportance, Doc(doc), s.timeout))
  }

  /** `storeChannelFromPublic`: an unknown type and details that do not
      decode are bad-input. The store channel starts inactive. */
  function StoreChannelFromPublic(p: PublicChannel): (r: Result<Channel>)
    ensures p.channelType !in SupportedTypes ==> r == Err(BadInput)
    ensures p.channelType in SupportedTypes && StructFields(p.details).None? ==> r == Err(BadInput)
    ensures r.Err? ==> r.code == BadInput
    ensures r.Ok? ==>
      var s := r.value;
      && s.id == p.id && s.entry == p.entry && s.labelText == p.labelText
      && s.channelType == p.channelType && s.priority == p.priority
      && s.minImportance == p.minImportance && s.timeout == p.timeout
      && !s.isActive
      && DetailsMatchType(s)
  {
    if p.channelType !in SupportedTypes then Err(BadInput)
    else match StoreDetailsFromPublic(p.channelType, p.details)
      case None => Err(BadInput)
      case Some(d) =>
        Ok(Channel(p.id, p.entry, p.labelText, p.channelType, p.priority, p.minImportance, d, p.timeout, false))
  }

  /** store → public → store gives the channel back, except for the active
      flag that the public form does not carry. */
  lemma StoreChannelRoundTrip(s: Channel)
    requires DetailsMatchType(s)
    ensures PublicChannelFromStore(s).Ok?
    ensures StoreChannelFromPublic(PublicChannelFromStore(s).value) == Ok(s.(isActive := false))
  {
    match s.details
    case ForwardToGroupDetails(groups) => IdsOfIdArray(groups);
    case ForwardToUserDetails(users) => IdsOfIdArray(users);
    case _ =>
  }

  /** A channel whose details do not fit its type does not survive the round
      trip: an e-mail channel carrying direct details comes back with an empty
      address. */
  lemma MismatchedDetailsAreLost(s: Channel)
    requires s.channelType == TypeEmail && s.details == DirectDetails("x")
    ensures StoreChannelFromPublic(PublicChannelFromStore(s).value) == Ok(s.(details := EmailDetails(""), isActive := false))
  {
  }

  /** Converts every public channel, failing with the first failure. */
  function StoreChannelsFromPublic(ps: seq<PublicChannel>): (r: Result<seq<Channel>>)
    ensures r.Ok? <==> forall i :: 0 <= i < |ps| ==> StoreChannelFromPublic(ps[i]).Ok?
    ensures r.Err? ==> r.code == BadInput
    ensures r.Ok? ==> |r.value| == |ps| && forall i :: 0 <= i < |ps| ==> Ok(r.value[i]) == StoreChannelFromPublic(ps[i])
  {
    if |ps| == 0 then Ok([])
    else
      var c :- StoreChannelFromPublic(ps[0]);
      var rest :- StoreChannelsFromPublic(ps[1..]);
      Ok([c] + rest)
  }

  function PublicChannelsFromStore(cs: seq<Channel>): (r: Result<seq<PublicChannel>>)
    ensures r.Ok? <==> forall i :: 0 <= i < |cs| ==> !cs[i].details.NoDetails?
    ensures r.Err? ==> r.code == Internal
    ensures r.Ok? ==> |r.value| == |cs| && forall i :: 0 <= i < |cs| ==> Ok(r.value[i]) == PublicChannelFromStore(cs[i])
  {
    if |cs| == 0 then Ok([])
    else
      var p :- PublicChannelFromStore(cs[0]);
      var rest :- PublicChannelsFromStore(cs[1..]);
      Ok([p] + rest)
  }

  // ---------------------------------------------------------------------------
  // Handlers

  /** What `handleUpdateChannelsByAddressBookEntry` passes on. */
  datatype ChannelsUpdate = ChannelsUpdate(entry: Id, channels: seq<Channel>, limitToUser: Option<Id>)

  /** `handleUpdateChannelsByAddressBookEntry`: unauthorized for anonymous
      callers, bad-input for a malformed entry id or any channel that does
      not convert; the update is limited to the caller's own entries unless
      update-any is held. */
  function UpdateChannelsRequest(t: Token, entryText: string, body: seq<PublicChannel>): (r: Result<ChannelsUpdate>)
    ensures !t.isAuthenticated ==> r == Err(Unauthorized)
    ensures t.isAuthenticated && ParseUuid(entryText).None? ==> r == Err(BadInput)
    ensures r.Ok? <==> t.isAuthenticated && ParseUuid(entryText).Some? && StoreChannelsFromPublic(body).Ok?
    ensures r.Ok? ==>
      && Some(r.value.entry) == ParseUuid(entryText)
      && Ok(r.value.channels) == StoreChannelsFromPublic(body)
      && (r.value.limitToUser.None? <==> HasPermission(t, {UpdateAnyAddressBookEntry}))
      && (r.value.limitToUser.Some? ==> r.value.limitToUser.value == t.userId)
  {
    if !t.isAuthenticated then Err(Unauthorized)
    else match ParseUuid(entryText)
      case None => Err(BadInput)
      case Some(entry) =>
        var channels :- StoreChannelsFromPublic(body);
        Ok(ChannelsUpdate(entry, channels, LimitToUserUnless(t, UpdateAnyAddressBookEntry)))
  }

  /** `handleGetChannelsByAddressBookEntry`: the entry to read and the user
      limit, which is cleared by view-any. */
  function GetChannelsRequest(t: Token, entryText: string): (r: Result<(Id, Option<Id>)>)
    ensures !t.isAuthenticated ==> r == Err(Unauthorized)
    ensures r.Ok? <==> t.isAuthenticated && ParseUuid(entryText).Some?
    ensures r.Err? && t.isAuthenticated ==> r.code == BadInput
    ensures r.Ok? ==>
      && Some(r.value.0) == ParseUuid(entryText)
      && (r.value.1.None? <==> HasPermission(t, {ViewAnyAddressBookEntry}))
  {
    if !t.isAuthenticated then Err(Unauthorized)
    else match ParseUuid(entryText)
      case None => Err(BadInput)
      case Some(entry) => Ok((entry, LimitToUserUnless(t, ViewAnyAddressBookEntry)))
  }
}
