/** The event consumer of the in-app notifier
    (in-app-notifier-svc/eventport/handlers.go): users, in-app notification
    channels, delivery attempts and their statuses. */
module InAppEventHandlers {
  import opened Common
  import opened Kafkautil
  import Events
  import opened ChannelMirror
  import opened InAppDeliveries

  /** A call of the handler the port forwards to. */
  datatype Call =
    | CreateUser(user: User)
    | UpdateUser(user: User)
    | DeleteNotificationChannelsByEntry(entryId: Id)
    | UpdateNotificationChannelsByEntry(entryId: Id, channels: seq<MirroredChannel>)
    | CreateIntelDeliveryAttempt(attempt: AcceptedAttempt, intel: IntelToDeliver)
    | UpdateIntelDeliveryAttemptStatus(status: AttemptStatus)

  /** The topics and event types the port consumes. */
  predicate Consumed(topic: string, eventType: string) {
    || (topic == Events.AddressBookTopic
        && eventType in {Events.TypeAddressBookEntryDeleted, Events.TypeAddressBookEntryChannelsUpdated})
    || (topic == Events.IntelDeliveriesTopic
        && eventType in {Events.TypeIntelDeliveryAttemptCreated, Events.TypeIntelDeliveryAttemptStatusUpdated})
    || (topic == Events.UsersTopic
        && eventType in {Events.TypeUserCreated, Events.TypeUserUpdated})
  }

  function UserOf(u: Events.UserInfo): (r: User)
    ensures r.id == u.id && r.username == u.username && r.firstName == u.firstName
    ensures r.lastName == u.lastName && r.isActive == u.isActive
  {
    User(u.id, u.username, u.firstName, u.lastName, u.isActive)
  }

  /** The accepted attempt as the port builds it: the recipient is taken
      from the event's assignment object, whose zero value reads as the nil
      id. */
  function AcceptedAttemptAsWritten(a: Events.AttemptCreatedInfo): (r: AcceptedAttempt)
    ensures r.assignedTo == (if a.assignment.to.Some? then a.assignment.to.value else NilId)
    ensures r.id == a.id && r.delivery == a.delivery.id && r.acceptedAt.None?
  {
    AcceptedAttempt(a.id, if a.assignment.to.Some? then a.assignment.to.value else NilId,
                    a.assignedEntry.labelText, a.assignedEntry.user, a.delivery.id, a.channel,
                    a.createdAt, a.isActive, a.statusTs, a.note, None)
  }

  /** The attempt event the logistics service emits leaves the assignment
      object empty, so the port records every such attempt as assigned to
      the nil id instead of to the delivery's recipient. */
  lemma RecipientIsLostAsWritten(a: Events.AttemptCreatedInfo)
    requires a.assignment == Events.AssignmentInfo(None, None, None)
    requires a.delivery.to != NilId
    ensures AcceptedAttemptAsWritten(a).assignedTo == NilId
    ensures AcceptedAttemptAsWritten(a).assignedTo != a.delivery.to
    ensures AcceptedAttemptOf(a).assignedTo == a.delivery.to
    ensures HandleMessage(Inbound(Events.IntelDeliveriesTopic, Events.IntelDeliveryAttemptCreated(a)), true)
         != HandleMessage(Inbound(Events.IntelDeliveriesTopic, Events.IntelDeliveryAttemptCreated(a)), false)
  {
    AttemptIsSplit(a, true);
    AttemptIsSplit(a, false);
  }

  /** The accepted attempt with the delivery's recipient, as the
      radio-delivery service takes it; the acceptance time is left to the
      controller. */
  function AcceptedAttemptOf(a: Events.AttemptCreatedInfo): (r: AcceptedAttempt)
    ensures r.id == a.id && r.assignedTo == a.delivery.to
    ensures r.assignedToLabel == a.assignedEntry.labelText && r.assignedToUser == a.assignedEntry.user
    ensures r.delivery == a.delivery.id && r.channel == a.channel && r.createdAt == a.createdAt
    ensures r.isActive == a.isActive && r.statusTs == a.statusTs && r.note == a.note
    ensures r.acceptedAt.None?
  {
    AcceptedAttempt(a.id, a.delivery.to, a.assignedEntry.labelText, a.assignedEntry.user, a.delivery.id,
                    a.channel, a.createdAt, a.isActive, a.statusTs, a.note, None)
  }

  /** The intel an attempt event carries, keyed by the attempt. */
  function IntelToDeliverOf(a: Events.AttemptCreatedInfo): (r: IntelToDeliver)
    ensures r.attempt == a.id && r.id == a.intel.id && r.createdAt == a.intel.createdAt
    ensures r.createdBy == a.intel.createdBy && r.operation == a.intel.operation
    ensures r.intelType == a.intel.intelType && r.content == a.intel.content && r.importance == a.intel.importance
  {
    IntelToDeliver(a.id, a.intel.id, a.intel.createdAt, a.intel.createdBy, a.intel.operation,
                   a.intel.intelType, a.intel.content, a.intel.importance)
  }

  /** The accepted attempt the port records: as written, or with the
      delivery's recipient. */
  function AttemptFor(a: Events.AttemptCreatedInfo, asWritten: bool): (r: AcceptedAttempt)
    ensures r.id == a.id && r.delivery == a.delivery.id
    ensures r.assignedTo == if asWritten then AcceptedAttemptAsWritten(a).assignedTo else a.delivery.to
  {
    if asWritten then AcceptedAttemptAsWritten(a) else AcceptedAttemptOf(a)
  }

  /** The call a decoded event leads to; a channels update naming another
      entry for one of its in-app channels is an internal error. */
  function CallOf(p: Events.Payload, asWritten: bool): Result<Option<Call>> {
    match p
    case UserCreated(u) => Ok(Some(CreateUser(UserOf(u))))
    case UserUpdated(u) => Ok(Some(UpdateUser(UserOf(u))))
    case AddressBookEntryDeleted(id) => Ok(Some(DeleteNotificationChannelsByEntry(id)))
    case AddressBookEntryChannelsUpdated(entry, channels) =>
      var inApp :- ChannelsOfType(entry, channels, Events.ChannelTypeInAppNotification);
      Ok(Some(UpdateNotificationChannelsByEntry(entry, inApp)))
    case IntelDeliveryAttemptCreated(a) =>
      Ok(Some(CreateIntelDeliveryAttempt(AttemptFor(a, asWritten), IntelToDeliverOf(a))))
    case IntelDeliveryAttemptStatusUpdated(id, isActive, _, ts, note) =>
      Ok(Some(UpdateIntelDeliveryAttemptStatus(AttemptStatus(id, isActive, ts, note))))
    case _ => Ok(None)
  }

  /** `HandlerFn`: a consumed message whose value does not decode is an
      internal error and calls nothing; any other message is ignored.
      `asWritten` selects how an attempt's recipient is read. */
  function HandleMessage(m: Events.Message, asWritten: bool): (r: Result<Option<Call>>)
    ensures !Consumed(m.topic, m.eventType) ==> r == Ok(None)
    ensures Consumed(m.topic, m.eventType) && Events.DecodeFor(m).Err? ==> r == Err(Internal)
    ensures Consumed(m.topic, m.eventType) && Events.DecodeFor(m).Ok? ==> r == CallOf(Events.DecodeFor(m).value, asWritten)
  {
    if !Consumed(m.topic, m.eventType) then Ok(None)
    else
      var p :- Events.DecodeFor(m);
      CallOf(p, asWritten)
  }

  /** The message an event is consumed as. */
  function Inbound(topic: string, p: Events.Payload): (m: Events.Message)
    ensures m.topic == topic && m.eventType == Events.TypeOf(p) && m.rawValue == Encoded(p)
  {
    InboundMessage(topic, 0, 0, 0, 0, "", Events.TypeOf(p), Encoded(p), [])
  }

  /** A message on a topic the port does not read, or with a type the port
      does not know, calls nothing and is no error. */
  lemma UnknownEventsAreIgnored(m: Events.Message, asWritten: bool)
    requires m.topic !in {Events.AddressBookTopic, Events.IntelDeliveriesTopic, Events.UsersTopic}
          || m.eventType == Events.TypeIntelDeliveryCreated
    ensures HandleMessage(m, asWritten) == Ok(None)
  {
    Events.NamesAreDistinct();
  }

  /** A channels update keeps exactly the in-app notification channels, in
      order, and fails iff one of them names another entry. */
  lemma ChannelsUpdateKeepsInAppChannels(entry: Id, channels: seq<Events.ChannelInfo>, asWritten: bool)
    ensures var r := HandleMessage(Inbound(Events.AddressBookTopic, Events.AddressBookEntryChannelsUpdated(entry, channels)), asWritten);
      && (r.Ok? <==> TypedChannelsBelongTo(entry, channels, Events.ChannelTypeInAppNotification))
      && (r.Err? ==> r.code == Internal)
      && (r.Ok? ==> r.value == Some(UpdateNotificationChannelsByEntry(entry,
            Map(MirrorOf, Filter((c: Events.ChannelInfo) => c.channelType == Events.ChannelTypeInAppNotification, channels)))))
  {
  }

  /** An attempt event becomes an accepted attempt and the intel to deliver,
      both under the attempt's id. As written the attempt is assigned to the
      recipient named in the assignment object, or to the nil id when that
      is empty; corrected, to the delivery's recipient. */
  lemma AttemptIsSplit(a: Events.AttemptCreatedInfo, asWritten: bool)
    ensures var r := HandleMessage(Inbound(Events.IntelDeliveriesTopic, Events.IntelDeliveryAttemptCreated(a)), asWritten);
      && r.Ok? && r.value.Some? && r.value.value.CreateIntelDeliveryAttempt?
      && r.value.value.attempt.id == a.id && r.value.value.intel.attempt == a.id
      && (!asWritten ==> r.value.value.attempt.assignedTo == a.delivery.to)
      && (asWritten ==> r.value.value.attempt.assignedTo == if a.assignment.to.Some? then a.assignment.to.value else NilId)
      && r.value.value.intel.content == a.intel.content
  {
  }

  /** A status update is copied field for field, whatever the status code. */
  lemma StatusUpdateIsCopied(id: Id, isActive: bool, status: string, ts: Time, note: Option<string>, asWritten: bool)
    ensures HandleMessage(Inbound(Events.IntelDeliveriesTopic, Events.IntelDeliveryAttemptStatusUpdated(id, isActive, status, ts, note)), asWritten)
      == Ok(Some(UpdateIntelDeliveryAttemptStatus(AttemptStatus(id, isActive, ts, note))))
  {
  }

  /** An accepted attempt whose status event says it ended is no longer
      pending for its user. */
  lemma EndedAttemptIsNotPending(st: Store, user: Id, id: Id, status: string, ts: Time, note: Option<string>, asWritten: bool)
    requires HasAttempt(st, id)
    ensures var r := HandleMessage(Inbound(Events.IntelDeliveriesTopic, Events.IntelDeliveryAttemptStatusUpdated(id, false, status, ts, note)), asWritten);
      && r.Ok? && r.value.Some? && r.value.value.UpdateIntelDeliveryAttemptStatus?
      && UpdateAcceptedIntelDeliveryAttemptStatus(st, r.value.value.status).Ok?
      && OldestPendingAttemptToNotifyByUser(UpdateAcceptedIntelDeliveryAttemptStatus(st, r.value.value.status).value, user) != Some(id)
  {
    var s := AttemptStatus(id, false, ts, note);
    StatusUpdateIsCopied(id, false, status, ts, note, asWritten);
    InactiveEndsPending(st, user, s);
  }
}
