/** The events the logistics service publishes
    (logistics-svc/eventport/notifiers.go): every notification is one
    outbound message; mapping failures are internal errors and produce no
    message. */
module LogisticsNotifiers {
  import opened Common
  import opened Json
  import opened Kafkautil
  import Events
  import Channels
  import ChannelHandlers
  import IntelContent
  import IntelDeliveries
  import AddressBook
  import LogisticsIntel

  type Outbound = Events.Outbound

  /** An outbound message without extra headers. */
  function Message(topic: string, key: string, eventType: string, value: Events.Payload): (m: Outbound)
    ensures m.topic == topic && m.key == key && m.eventType == eventType
    ensures m.value == Some(value) && m.headers == []
  {
    OutboundMessage(topic, key, eventType, Some(value), [])
  }

  // ---------------------------------------------------------------------------
  // Address-book entries

  function EntryInfoOf(e: AddressBook.Entry): (info: Events.EntryInfo)
    ensures info.id == e.id && info.labelText == e.labelText && info.description == e.description
    ensures info.operation == e.operation && info.user == e.user
  {
    Events.EntryInfo(e.id, e.labelText, e.description, e.operation, e.user)
  }

  /** `NotifyAddressBookEntryCreated`: keyed by the entry id. */
  function AddressBookEntryCreated(e: AddressBook.Entry): (m: Outbound)
    ensures m.topic == Events.AddressBookTopic && m.key == e.id
    ensures m.eventType == Events.TypeAddressBookEntryCreated
    ensures m.value == Some(Events.AddressBookEntryCreated(EntryInfoOf(e)))
  {
    Message(Events.AddressBookTopic, e.id, Events.TypeAddressBookEntryCreated, Events.AddressBookEntryCreated(EntryInfoOf(e)))
  }

  /** `NotifyAddressBookEntryUpdated`: keyed by the entry id. */
  function AddressBookEntryUpdated(e: AddressBook.Entry): (m: Outbound)
    ensures m.topic == Events.AddressBookTopic && m.key == e.id
    ensures m.eventType == Events.TypeAddressBookEntryUpdated
    ensures m.value == Some(Events.AddressBookEntryUpdated(EntryInfoOf(e)))
  {
    Message(Events.AddressBookTopic, e.id, Events.TypeAddressBookEntryUpdated, Events.AddressBookEntryUpdated(EntryInfoOf(e)))
  }

  /** `NotifyAddressBookEntryDeleted`: keyed by the entry id. */
  function AddressBookEntryDeleted(id: Id): (m: Outbound)
    ensures m.topic == Events.AddressBookTopic && m.key == id
    ensures m.eventType == Events.TypeAddressBookEntryDeleted
    ensures m.value == Some(Events.AddressBookEntryDeleted(id))
  {
    Message(Events.AddressBookTopic, id, Events.TypeAddressBookEntryDeleted, Events.AddressBookEntryDeleted(id))
  }

  /** The auto-delivery notification of an entry. Its notifier is not part of
      this model; topic and key follow the other entry events. */
  function AddressBookEntryAutoDeliveryUpdated(id: Id, enabled: bool): (m: Outbound)
    ensures m.topic == Events.AddressBookTopic && m.key == id
    ensures m.eventType == Events.TypeAddressBookEntryAutoDeliveryUpdated
    ensures m.value == Some(Events.AddressBookEntryAutoDeliveryUpdated(id, enabled))
  {
    Message(Events.AddressBookTopic, id, Events.TypeAddressBookEntryAutoDeliveryUpdated,
            Events.AddressBookEntryAutoDeliveryUpdated(id, enabled))
  }

  // ---------------------------------------------------------------------------
  // Channels

  /** `mapChannelType`: the event spelling of each of the seven store types;
      any other type is an internal error. */
  function MapChannelType(t: string): (r: Result<string>)
    ensures r.Ok? <==> t in Channels.SupportedTypes
    ensures r.Err? ==> r.code == Internal
  {
    if t == Channels.TypeDirect then Ok(Events.ChannelTypeDirect)
    else if t == Channels.TypeEmail then Ok(Events.ChannelTypeEmail)
    else if t == Channels.TypeForwardToGroup then Ok(Events.ChannelTypeForwardToGroup)
    else if t == Channels.TypeForwardToUser then Ok(Events.ChannelTypeForwardToUser)
    else if t == Channels.TypeInAppNotification then Ok(Events.ChannelTypeInAppNotification)
    else if t == Channels.TypePhoneCall then Ok(Events.ChannelTypePhoneCall)
    else if t == Channels.TypeRadio then Ok(Events.ChannelTypeRadio)
    else Err(Internal)
  }

  /** Distinct store types map to distinct event types. */
  lemma MapChannelTypeInjective(t1: string, t2: string)
    requires MapChannelType(t1).Ok? && MapChannelType(t1) == MapChannelType(t2)
    ensures t1 == t2
  {
  }

  /** The event JSON of each details variant. */
  function EventDetails(d: Channels.ChannelDetails): (v: Option<JVal>)
    ensures v.Some? <==> !d.NoDetails?
  {
    match d
    case DirectDetails(info) => Some(JObject(map["info" := JString(info)]))
    case EmailDetails(email) => Some(JObject(map["email" := JString(email)]))
    case ForwardToGroupDetails(groups) => Some(JObject(map["forward_to_group" := IdArray(groups)]))
    case ForwardToUserDetails(users) => Some(JObject(map["forward_to_user" := IdArray(users)]))
    case InAppNotificationDetails => Some(JObject(map[]))
    case PhoneCallDetails(phone) => Some(JObject(map["phone" := JString(phone)]))
    case RadioDetails(info) => Some(JObject(map["info" := JString(info)]))
    case NoDetails => None
  }

  /** `mapChannelDetails` followed by the mapper it returns: a type without
      mapper and details of another variant than the type's are internal
      errors. */
  function MapChannelDetails(t: string, d: Channels.ChannelDetails): (r: Result<JVal>)
    ensures r.Ok? <==> t in Channels.SupportedTypes && Channels.TypeOfDetails(d) == Some(t)
    ensures r.Err? ==> r.code == Internal
    ensures r.Ok? ==> Some(r.value) == EventDetails(d)
  {
    if t !in Channels.SupportedTypes || Channels.TypeOfDetails(d) != Some(t) then Err(Internal)
    else Ok(EventDetails(d).value)
  }

  /** A details record of one variant is rejected by the mapper of any other
      type. */
  lemma DetailsMapperRejectsOtherVariants(t: string, d: Channels.ChannelDetails)
    requires t in Channels.SupportedTypes && Channels.TypeOfDetails(d) != Some(t)
    ensures MapChannelDetails(t, d) == Err(Internal)
  {
  }

  /** The event details are the public details: consumers decode them with the
      same field names, and decoding gives back the store details. */
  lemma EventDetailsArePublicDetails(d: Channels.ChannelDetails)
    ensures EventDetails(d) == ChannelHandlers.PublicDetailsFromStore(d)
  {
  }

  /** `assureChannelTypesSupported`: both mappers are defined for every
      type of the given set. */
  predicate ChannelTypesSupported(types: set<string>) {
    forall t :: t in types ==> MapChannelType(t).Ok? && t in Channels.SupportedTypes
  }

  /** The store's channel types pass the start-up check, so it never
      panics; a type outside them would. */
  lemma StoreChannelTypesAreSupported(extra: string)
    requires extra !in Channels.SupportedTypes
    ensures ChannelTypesSupported(Channels.SupportedTypes)
    ensures !ChannelTypesSupported(Channels.SupportedTypes + {extra})
  {
    assert extra in Channels.SupportedTypes + {extra};
  }

  /** One channel of the channels-updated event. */
  function ChannelInfoOf(c: Channels.Channel): (r: Result<Events.ChannelInfo>)
    ensures r.Ok? <==> c.channelType in Channels.SupportedTypes && Channels.DetailsMatchType(c)
    ensures r.Err? ==> r.code == Internal
    ensures r.Ok? ==>
      && r.value.id == c.id && r.value.entry == c.entry && r.value.isActive == c.isActive
      && r.value.labelText == c.labelText && r.value.priority == c.priority
      && r.value.minImportance == c.minImportance && r.value.timeout == c.timeout
      && Ok(r.value.channelType) == MapChannelType(c.channelType)
      && Some(r.value.details) == EventDetails(c.details)
  {
    var t :- MapChannelType(c.channelType);
    var details :- MapChannelDetails(c.channelType, c.details);
    Ok(Events.ChannelInfo(c.id, c.entry, c.isActive, c.labelText, t, c.priority, c.minImportance, details, c.timeout))
  }

  function ChannelInfos(cs: seq<Channels.Channel>): (r: Result<seq<Events.ChannelInfo>>)
    ensures r.Ok? <==> forall k :: 0 <= k < |cs| ==> ChannelInfoOf(cs[k]).Ok?
    ensures r.Err? ==> r.code == Internal
    ensures r.Ok? ==> |r.value| == |cs| && forall k :: 0 <= k < |cs| ==> Ok(r.value[k]) == ChannelInfoOf(cs[k])
  {
    if |cs| == 0 then Ok([])
    else
      var head :- ChannelInfoOf(cs[0]);
      var rest :- ChannelInfos(cs[1..]);
      Ok([head] + rest)
  }

  /** `NotifyAddressBookEntryChannelsUpdated`: one channel per stored
      channel, in order; a channel that does not map aborts without
      message. */
  function AddressBookEntryChannelsUpdated(entry: Id, cs: seq<Channels.Channel>): (r: Result<Outbound>)
    ensures r.Ok? <==> forall k :: 0 <= k < |cs| ==> ChannelInfoOf(cs[k]).Ok?
    ensures r.Err? ==> r.code == Internal
    ensures r.Ok? ==>
      && r.value.topic == Events.AddressBookTopic && r.value.key == entry
      && r.value.eventType == Events.TypeAddressBookEntryChannelsUpdated
      && r.value.value.Some? && r.value.value.value.AddressBookEntryChannelsUpdated?
      && r.value.value.value.entryId == entry
      && |r.value.value.value.channels| == |cs|
      && forall k :: 0 <= k < |cs| ==> Ok(r.value.value.value.channels[k]) == ChannelInfoOf(cs[k])
  {
    var infos :- ChannelInfos(cs);
    Ok(Message(Events.AddressBookTopic, entry, Events.TypeAddressBookEntryChannelsUpdated,
               Events.AddressBookEntryChannelsUpdated(entry, infos)))
  }

  /** Channels whose details match their type always make it into the event. */
  lemma WellFormedChannelsAreNotified(entry: Id, cs: seq<Channels.Channel>)
    requires forall k :: 0 <= k < |cs| ==> Channels.DetailsMatchType(cs[k])
    ensures AddressBookEntryChannelsUpdated(entry, cs).Ok?
  {
    forall k | 0 <= k < |cs| ensures ChannelInfoOf(cs[k]).Ok? {
      assert Channels.TypeOfDetails(cs[k].details) == Some(cs[k].channelType);
    }
  }

  // ---------------------------------------------------------------------------
  // Intel

  /** `mapIntelTypeFromStore`: the two intel types keep their spelling;
      any other type is an internal error. */
  function MapIntelType(t: string): (r: Result<string>)
    ensures r.Ok? <==> t in IntelContent.KnownTypes
    ensures r.Err? ==> r.code == Internal
    ensures r.Ok? ==> r.value in {Events.IntelTypeAnalogRadioMessage, Events.IntelTypePlaintextMessage}
  {
    if t == IntelContent.TypeAnalogRadioMessage then Ok(Events.IntelTypeAnalogRadioMessage)
    else if t == IntelContent.TypePlaintextMessage then Ok(Events.IntelTypePlaintextMessage)
    else Err(Internal)
  }

  /** `NotifyIntelCreated`: the type is mapped before the content; either
      failing is an internal error. The event content carries the fields of
      the stored content. */
  function IntelCreated(i: LogisticsIntel.Intel): (r: Result<Outbound>)
    ensures r.Ok? <==> i.intelType in IntelContent.KnownTypes && IntelContent.DecodeContent(i.intelType, i.content).Ok?
    ensures r.Err? ==> r.code == Internal
    ensures r.Ok? ==>
      && r.value.topic == Events.IntelTopic && r.value.key == i.id && r.value.eventType == Events.TypeIntelCreated
      && r.value.value.Some? && r.value.value.value.IntelCreated?
      && var info := r.value.value.value.intel;
      && info.id == i.id && info.createdAt == i.createdAt && info.createdBy == i.createdBy
      && info.operation == i.operation && info.intelType == i.intelType && info.searchText == i.searchText
      && info.importance == i.importance && info.isValid == i.isValid
      && IntelContent.DecodeContent(info.intelType, info.content) == IntelContent.DecodeContent(i.intelType, i.content)
  {
    var t :- MapIntelType(i.intelType);
    var content :- IntelContent.MapContent(i.intelType, i.content);
    Ok(Message(Events.IntelTopic, i.id, Events.TypeIntelCreated,
               Events.IntelCreated(Events.IntelInfo(i.id, i.createdAt, i.createdBy, i.operation, t, Doc(content),
                                                    i.searchText, i.importance, i.isValid))))
  }

  /** Intel of a type without content mapper is never announced. */
  lemma UnknownIntelTypeIsNotAnnounced(i: LogisticsIntel.Intel)
    requires i.intelType !in IntelContent.KnownTypes
    ensures IntelCreated(i) == Err(Internal)
  {
  }

  /** `NotifyIntelInvalidated`: keyed by the intel id. */
  function IntelInvalidated(id: Id, invalidatedBy: Id): (m: Outbound)
    ensures m.topic == Events.IntelTopic && m.key == id && m.eventType == Events.TypeIntelInvalidated
    ensures m.value == Some(Events.IntelInvalidated(id, invalidatedBy))
  {
    Message(Events.IntelTopic, id, Events.TypeIntelInvalidated, Events.IntelInvalidated(id, invalidatedBy))
  }

  // ---------------------------------------------------------------------------
  // Deliveries and attempts

  function DeliveryInfoOf(d: IntelDeliveries.Delivery): (info: Events.DeliveryInfo)
    ensures info.id == d.id && info.intel == d.intel && info.to == d.to
    ensures info.isActive == d.isActive && info.success == d.success && info.note == d.note
  {
    Events.DeliveryInfo(d.id, d.intel, d.to, d.isActive, d.success, d.note)
  }

  /** `NotifyIntelDeliveryCreated`: keyed by the delivery id. */
  function IntelDeliveryCreated(d: IntelDeliveries.Delivery): (m: Outbound)
    ensures m.topic == Events.IntelDeliveriesTopic && m.key == d.id && m.eventType == Events.TypeIntelDeliveryCreated
    ensures m.value == Some(Events.IntelDeliveryCreated(DeliveryInfoOf(d)))
  {
    Message(Events.IntelDeliveriesTopic, d.id, Events.TypeIntelDeliveryCreated, Events.IntelDeliveryCreated(DeliveryInfoOf(d)))
  }

  /** `NotifyIntelDeliveryStatusUpdated`: keyed by the delivery id. */
  function IntelDeliveryStatusUpdated(id: Id, isActive: bool, success: bool, note: Option<string>): (m: Outbound)
    ensures m.topic == Events.IntelDeliveriesTopic && m.key == id && m.eventType == Events.TypeIntelDeliveryStatusUpdated
    ensures m.value == Some(Events.IntelDeliveryStatusUpdated(id, isActive, success, note))
  {
    Message(Events.IntelDeliveriesTopic, id, Events.TypeIntelDeliveryStatusUpdated,
            Events.IntelDeliveryStatusUpdated(id, isActive, success, note))
  }

  /** `eventIntelDeliveryStatusFromStore`: each of the eight store statuses
      keeps its spelling; any other status is an internal error. */
  function EventStatusFromStore(s: string): (r: Result<string>)
    ensures r.Ok? <==> s in IntelDeliveries.KnownStatuses
    ensures r.Err? ==> r.code == Internal
  {
    if s == IntelDeliveries.StatusOpen then Ok(Events.StatusOpen)
    else if s == IntelDeliveries.StatusAwaitingDelivery then Ok(Events.StatusAwaitingDelivery)
    else if s == IntelDeliveries.StatusDelivering then Ok(Events.StatusDelivering)
    else if s == IntelDeliveries.StatusAwaitingAck then Ok(Events.StatusAwaitingAck)
    else if s == IntelDeliveries.StatusDelivered then Ok(Events.StatusDelivered)
    else if s == IntelDeliveries.StatusTimeout then Ok(Events.StatusTimeout)
    else if s == IntelDeliveries.StatusCanceled then Ok(Events.StatusCanceled)
    else if s == IntelDeliveries.StatusFailed then Ok(Events.StatusFailed)
    else Err(Internal)
  }

  /** The status map is injective and keeps the spelling of every status. */
  lemma EventStatusFromStoreInjective(s1: string, s2: string)
    requires EventStatusFromStore(s1).Ok? && EventStatusFromStore(s1) == EventStatusFromStore(s2)
    ensures s1 == s2
    ensures EventStatusFromStore(s1).value == s1
  {
  }

  function UserDetailsInfoOf(u: AddressBook.User): (info: Events.UserDetailsInfo)
    ensures info.id == u.id && info.username == u.username && info.firstName == u.firstName
    ensures info.lastName == u.lastName && info.isActive == u.isActive
  {
    Events.UserDetailsInfo(u.id, u.username, u.firstName, u.lastName, u.isActive)
  }

  /** `NotifyIntelDeliveryAttemptCreated`: the status is mapped (an unknown
      one is an internal error), user details are present iff the entry has
      them, the intel type and content are taken over as stored, the
      assignment keeps its zero value and the key is the attempt's delivery
      id. */
  function IntelDeliveryAttemptCreated(a: IntelDeliveries.Attempt, d: IntelDeliveries.Delivery,
                                       entry: AddressBook.Detailed, i: LogisticsIntel.Intel): (r: Result<Outbound>)
    ensures r.Ok? <==> a.status in IntelDeliveries.KnownStatuses
    ensures r.Err? ==> r.code == Internal
    ensures r.Ok? ==>
      && r.value.topic == Events.IntelDeliveriesTopic && r.value.key == a.delivery
      && r.value.eventType == Events.TypeIntelDeliveryAttemptCreated
      && r.value.value.Some? && r.value.value.value.IntelDeliveryAttemptCreated?
      && var info := r.value.value.value.attempt;
      && info.id == a.id && info.channel == a.channel && info.createdAt == a.createdAt
      && info.isActive == a.isActive && info.status == a.status && info.statusTs == a.statusTs && info.note == a.note
      && info.delivery == DeliveryInfoOf(d)
      && info.assignment == Events.AssignmentInfo(None, None, None)
      && info.assignedEntry.id == entry.entry.id && info.assignedEntry.user == entry.entry.user
      && (info.assignedEntry.userDetails.Some? <==> entry.userDetails.Some?)
      && (entry.userDetails.Some? ==> info.assignedEntry.userDetails.value == UserDetailsInfoOf(entry.userDetails.value))
      && info.intel.id == i.id && info.intel.intelType == i.intelType && info.intel.content == i.content
  {
    var status :- EventStatusFromStore(a.status);
    var userDetails := if entry.userDetails.Some? then Some(UserDetailsInfoOf(entry.userDetails.value)) else None;
    var e := entry.entry;
    var assignedEntry := Events.AssignedEntryInfo(e.id, e.labelText, e.description, e.operation, e.user, userDetails);
    var intelInfo := Events.IntelInfo(i.id, i.createdAt, i.createdBy, i.operation, i.intelType, i.content,
                                      i.searchText, i.importance, i.isValid);
    var info := Events.AttemptCreatedInfo(a.id, DeliveryInfoOf(d), Events.AssignmentInfo(None, None, None), assignedEntry,
                                          intelInfo, a.channel, a.createdAt, a.isActive, status, a.statusTs, a.note);
    Ok(Message(Events.IntelDeliveriesTopic, a.delivery, Events.TypeIntelDeliveryAttemptCreated,
               Events.IntelDeliveryAttemptCreated(info)))
  }

  /** `NotifyIntelDeliveryAttemptStatusUpdated`: keyed by the attempt's
      delivery id. */
  function IntelDeliveryAttemptStatusUpdated(a: IntelDeliveries.Attempt): (r: Result<Outbound>)
    ensures r.Ok? <==> a.status in IntelDeliveries.KnownStatuses
    ensures r.Err? ==> r.code == Internal
    ensures r.Ok? ==>
      && r.value.topic == Events.IntelDeliveriesTopic && r.value.key == a.delivery
      && r.value.eventType == Events.TypeIntelDeliveryAttemptStatusUpdated
      && r.value.value == Some(Events.IntelDeliveryAttemptStatusUpdated(a.id, a.isActive, a.status, a.statusTs, a.note))
  {
    var status :- EventStatusFromStore(a.status);
    Ok(Message(Events.IntelDeliveriesTopic, a.delivery, Events.TypeIntelDeliveryAttemptStatusUpdated,
               Events.IntelDeliveryAttemptStatusUpdated(a.id, a.isActive, status, a.statusTs, a.note)))
  }

  /** All events about one delivery and its attempts go to the same topic
      under the same key, so Kafka keeps them in order. */
  lemma DeliveryEventsShareKey(d: IntelDeliveries.Delivery, a: IntelDeliveries.Attempt,
                               entry: AddressBook.Detailed, i: LogisticsIntel.Intel, isActive: bool, success: bool, note: Option<string>)
    requires a.delivery == d.id && a.status in IntelDeliveries.KnownStatuses
    ensures IntelDeliveryAttemptCreated(a, d, entry, i).value.key == d.id
    ensures IntelDeliveryAttemptStatusUpdated(a).value.key == d.id
    ensures IntelDeliveryCreated(d).key == d.id
    ensures IntelDeliveryStatusUpdated(d.id, isActive, success, note).key == d.id
    ensures IntelDeliveryAttemptCreated(a, d, entry, i).value.topic == IntelDeliveryCreated(d).topic
    ensures IntelDeliveryAttemptStatusUpdated(a).value.topic == IntelDeliveryCreated(d).topic
  {
  }
}
