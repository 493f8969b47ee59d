/** The events the services exchange over Kafka (shared/event): topic and
    event-type names and the event records, as the producers fill them and the
    consumers read them. A consumer decodes the record of the event type it
    expects; a value that is absent, malformed or holds another record does
    not decode. */
module Events {
  import opened Common
  import opened Json
  import opened Kafkautil

  // ---------------------------------------------------------------------------
  // Topics and event types

  const AddressBookTopic: string := "address-book"
  const AuthTopic: string := "auth"
  const GroupsTopic: string := "groups"
  const InAppNotificationsTopic: string := "in-app-notifications"
  const IntelTopic: string := "intel"
  const IntelDeliveriesTopic: string := "intel-deliveries"
  const OperationsTopic: string := "operations"
  const PermissionsTopic: string := "permissions"
  const RadioDeliveriesTopic: string := "radio-deliveries"
  const UsersTopic: string := "users"

  const TypeAddressBookEntryCreated: string := "address-book-entry-created"
  const TypeAddressBookEntryUpdated: string := "address-book-entry-updated"
  const TypeAddressBookEntryDeleted: string := "address-book-entry-deleted"
  const TypeAddressBookEntryChannelsUpdated: string := "address-book-entry-channels-updated"
  const TypeAddressBookEntryAutoDeliveryUpdated: string := "address-book-entry-auto-delivery-updated"
  const TypeGroupCreated: string := "group-created"
  const TypeGroupUpdated: string := "group-updated"
  const TypeGroupDeleted: string := "group-deleted"
  const TypeInAppNotificationForIntelPending: string := "in-app-notification-for-intel-pending"
  const TypeInAppNotificationForIntelSent: string := "in-app-notification-for-intel-sent"
  const TypeIntelCreated: string := "intel-created"
  const TypeIntelInvalidated: string := "intel-invalidated"
  const TypeIntelDeliveryCreated: string := "intel-delivery-created"
  const TypeIntelDeliveryAttemptCreated: string := "intel-delivery-attempt-created"
  const TypeIntelDeliveryAttemptStatusUpdated: string := "intel-delivery-attempt-status-updated"
  const TypeIntelDeliveryStatusUpdated: string := "intel-delivery-status-updated"
  const TypeOperationCreated: string := "operation-created"
  const TypeOperationUpdated: string := "operation-updated"
  const TypeOperationMembersUpdated: string := "operation-members-updated"
  const TypeRadioDeliveryReadyForPickup: string := "radio-delivery-ready-for-pickup"
  const TypeRadioDeliveryPickedUp: string := "radio-delivery-picked-up"
  const TypeRadioDeliveryReleased: string := "radio-delivery-released"
  const TypeRadioDeliveryFinished: string := "radio-delivery-finished"
  const TypeUserCreated: string := "user-created"
  const TypeUserUpdated: string := "user-updated"

  /** Event spellings of the channel types. */
  const ChannelTypeDirect: string := "direct"
  const ChannelTypeEmail: string := "email"
  const ChannelTypeForwardToGroup: string := "forward-to-group"
  const ChannelTypeForwardToUser: string := "forward-to-user"
  const ChannelTypeInAppNotification: string := "in-app-notification"
  const ChannelTypePhoneCall: string := "phone-call"
  const ChannelTypeRadio: string := "radio"

  /** Event spellings of the delivery statuses. */
  const StatusOpen: string := "open"
  const StatusAwaitingDelivery: string := "awaiting-delivery"
  const StatusDelivering: string := "delivering"
  const StatusAwaitingAck: string := "awaiting-ack"
  const StatusDelivered: string := "delivered"
  const StatusTimeout: string := "timeout"
  const StatusCanceled: string := "canceled"
  const StatusFailed: string := "failed"

  /** Event spellings of the intel types. */
  const IntelTypeAnalogRadioMessage: string := "analog-radio-message"
  const IntelTypePlaintextMessage: string := "plaintext-message"

  // ---------------------------------------------------------------------------
  // Records

  datatype UserInfo = UserInfo(id: Id, username: string, firstName: string, lastName: string, isAdmin: bool, isActive: bool)

  datatype GroupInfo = GroupInfo(id: Id, title: string, description: string, operation: Option<Id>, members: seq<Id>)

  datatype OperationInfo = OperationInfo(id: Id, title: string, description: string, start: Time, end: Option<Time>, isArchived: bool)

  datatype EntryInfo = EntryInfo(id: Id, labelText: string, description: string, operation: Option<Id>, user: Option<Id>)

  /** `AddressBookEntryChannelsUpdatedChannel`; the details are the JSON of the
      type's details record. */
  datatype ChannelInfo = ChannelInfo(
    id: Id,
    entry: Id,
    isActive: bool,
    labelText: string,
    channelType: string,
    priority: int,
    minImportance: int,
    details: JVal,
    timeout: Time)

  datatype DeliveryInfo = DeliveryInfo(id: Id, intel: Id, to: Id, isActive: bool, success: bool, note: Option<string>)

  /** The assignment object of the attempt event; the logistics service does
      not fill it, so it keeps its zero value there. */
  datatype AssignmentInfo = AssignmentInfo(id: Option<Id>, intel: Option<Id>, to: Option<Id>)

  datatype UserDetailsInfo = UserDetailsInfo(id: Id, username: string, firstName: string, lastName: string, isActive: bool)

  datatype AssignedEntryInfo = AssignedEntryInfo(
    id: Id,
    labelText: string,
    description: string,
    operation: Option<Id>,
    user: Option<Id>,
    userDetails: Option<UserDetailsInfo>)

  datatype IntelInfo = IntelInfo(
    id: Id,
    createdAt: Time,
    createdBy: Id,
    operation: Id,
    intelType: string,
    content: Json.Raw,
    searchText: Option<string>,
    importance: int,
    isValid: bool)

  datatype AttemptCreatedInfo = AttemptCreatedInfo(
    id: Id,
    delivery: DeliveryInfo,
    assignment: AssignmentInfo,
    assignedEntry: AssignedEntryInfo,
    intel: IntelInfo,
    channel: Id,
    createdAt: Time,
    isActive: bool,
    status: string,
    statusTs: Time,
    note: Option<string>)

  /** The value of an event. */
  datatype Payload =
    | UserCreated(user: UserInfo)
    | UserUpdated(user: UserInfo)
    | GroupCreated(group: GroupInfo)
    | GroupUpdated(group: GroupInfo)
    | GroupDeleted(id: Id)
    | OperationCreated(operation: OperationInfo)
    | OperationUpdated(operation: OperationInfo)
    | OperationMembersUpdated(operationId: Id, members: seq<Id>)
    | AddressBookEntryCreated(entry: EntryInfo)
    | AddressBookEntryUpdated(entry: EntryInfo)
    | AddressBookEntryDeleted(id: Id)
    | AddressBookEntryChannelsUpdated(entryId: Id, channels: seq<ChannelInfo>)
    | AddressBookEntryAutoDeliveryUpdated(id: Id, isAutoDeliveryEnabled: bool)
    | IntelCreated(intel: IntelInfo)
    | IntelInvalidated(id: Id, invalidatedBy: Id)
    | IntelDeliveryCreated(delivery: DeliveryInfo)
    | IntelDeliveryStatusUpdated(id: Id, isActive: bool, success: bool, note: Option<string>)
    | IntelDeliveryAttemptCreated(attempt: AttemptCreatedInfo)
    | IntelDeliveryAttemptStatusUpdated(id: Id, isActive: bool, status: string, statusTs: Time, note: Option<string>)
    | InAppNotificationForIntelPending(attemptId: Id)
    | InAppNotificationForIntelSent(attemptId: Id)
    | RadioDeliveryReadyForPickup(attemptId: Id)
    | RadioDeliveryPickedUp(attemptId: Id)
    | RadioDeliveryReleased(attemptId: Id)
    | RadioDeliveryFinished(attemptId: Id, success: bool, finishNote: string)

  /** The event type each payload travels under. */
  function TypeOf(p: Payload): string {
    match p
    case UserCreated(_) => TypeUserCreated
    case UserUpdated(_) => TypeUserUpdated
    case GroupCreated(_) => TypeGroupCreated
    case GroupUpdated(_) => TypeGroupUpdated
    case GroupDeleted(_) => TypeGroupDeleted
    case OperationCreated(_) => TypeOperationCreated
    case OperationUpdated(_) => TypeOperationUpdated
    case OperationMembersUpdated(_, _) => TypeOperationMembersUpdated
    case AddressBookEntryCreated(_) => TypeAddressBookEntryCreated
    case AddressBookEntryUpdated(_) => TypeAddressBookEntryUpdated
    case AddressBookEntryDeleted(_) => TypeAddressBookEntryDeleted
    case AddressBookEntryChannelsUpdated(_, _) => TypeAddressBookEntryChannelsUpdated
    case AddressBookEntryAutoDeliveryUpdated(_, _) => TypeAddressBookEntryAutoDeliveryUpdated
    case IntelCreated(_) => TypeIntelCreated
    case IntelInvalidated(_, _) => TypeIntelInvalidated
    case IntelDeliveryCreated(_) => TypeIntelDeliveryCreated
    case IntelDeliveryStatusUpdated(_, _, _, _) => TypeIntelDeliveryStatusUpdated
    case IntelDeliveryAttemptCreated(_) => TypeIntelDeliveryAttemptCreated
    case IntelDeliveryAttemptStatusUpdated(_, _, _, _, _) => TypeIntelDeliveryAttemptStatusUpdated
    case InAppNotificationForIntelPending(_) => TypeInAppNotificationForIntelPending
    case InAppNotificationForIntelSent(_) => TypeInAppNotificationForIntelSent
    case RadioDeliveryReadyForPickup(_) => TypeRadioDeliveryReadyForPickup
    case RadioDeliveryPickedUp(_) => TypeRadioDeliveryPickedUp
    case RadioDeliveryReleased(_) => TypeRadioDeliveryReleased
    case RadioDeliveryFinished(_, _, _) => TypeRadioDeliveryFinished
  }

  type Message = InboundMessage<Payload>

  type Outbound = OutboundMessage<Payload>

  /** `json.Unmarshal` of the value into the record a handler expects: the
      payload when it is one, an internal error otherwise. */
  function Decode(raw: Kafkautil.Raw<Payload>): (r: Result<Payload>)
    ensures r.Ok? <==> raw.Encoded?
    ensures r.Ok? ==> r.value == raw.v
    ensures r.Err? ==> r.code == Internal
  {
    match raw
    case Encoded(p) => Ok(p)
    case _ => Err(Internal)
  }

  /** The value of an inbound message decoded into the record its event type
      names; a value holding a record of another event is taken as one that
      does not decode. */
  function DecodeFor(m: Message): (r: Result<Payload>)
    ensures r.Ok? <==> m.rawValue.Encoded? && TypeOf(m.rawValue.v) == m.eventType
    ensures r.Ok? ==> r.value == m.rawValue.v && TypeOf(r.value) == m.eventType
    ensures r.Err? ==> r.code == Internal
  {
    var p :- Decode(m.rawValue);
    if TypeOf(p) == m.eventType then Ok(p) else Err(Internal)
  }

  /** The topic names differ from each other, and so do the event types a
      consumer tells apart. */
  lemma NamesAreDistinct()
    ensures |{AddressBookTopic, AuthTopic, GroupsTopic, InAppNotificationsTopic, IntelTopic,
              IntelDeliveriesTopic, OperationsTopic, PermissionsTopic, RadioDeliveriesTopic, UsersTopic}| == 10
    ensures |{TypeIntelDeliveryCreated, TypeIntelDeliveryAttemptCreated, TypeIntelDeliveryAttemptStatusUpdated,
              TypeIntelDeliveryStatusUpdated, TypeAddressBookEntryAutoDeliveryUpdated}| == 5
  {
  }
}
