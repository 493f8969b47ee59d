# MDS Server core in Dafny

A model of the Go services of the MDS Server, a mobile directing system.
These services handle the following:

- the operations and the groups of users taking part in them;
- the users themselves;
- an address book of entries and their delivery channels (radio, in-app notification, phone, email, forward-to-user);
- the intel created during an operation;
- how each piece of intel is delivered to its recipients:
  - delivery attempts over the recipients' channels;
  - radio operators picking up radio deliveries;
  - in-app notifications;
  - automatic delivery per entry.

The services talk to each other through Kafka events, which they send via a database outbox and read through a database inbox.
They keep search indexes (Meilisearch) of their records, filled through a queue of search actions.

Each Go file of the core becomes one Dafny module:

- **Stores** are immutable records of their tables. Each query is a pure function over that state, and each change maps one state to the next.
- **Controllers** combine store changes with the events they emit.
- **HTTP handlers** are functions from the token, the path and query parameters and the decoded body to a `Result`, whose error codes follow the services' error kinds (bad input, unauthorized, forbidden, not found, internal).
- **Event handlers** map a consumed message to the call they make.

Time is an integer tick and the clock is an input. Ids are canonical UUID text.

Every property below is proved for all inputs. Where the code deviates from what its own comments, interfaces or sibling services evidently intend, both versions are modelled: the behaviour as written and the corrected one, which the rest of the model uses. See "## Findings".

## Model

| member | source | states |
|---|---|---|
| Common.ParseUuid | services/go/logistics-svc/endpoints/intel_delivery_handlers.go:108 | text parses exactly when it is the hyphenated 8-4-4-4-12 form in hex digits of either case, and the identifier is its lower-case form |
| Common.ParseUuidOfId | services/go/logistics-svc/endpoints/intel_delivery_handlers.go:108 | an identifier parses back to itself |
| Common.ParseBool | services/go/logistics-svc/endpoints/address_book_handlers.go:151 | true exactly for `1`, `t`, `T`, `TRUE`, `true`, `True`, false exactly for their six counterparts, anything else fails |
| Common.ParseFormatBool | services/go/logistics-svc/endpoints/address_book_handlers.go:151 | a formatted boolean parses back to itself |
| Common.ParseInt | services/go/logistics-svc/endpoints/intel_handlers.go:346 | decimal digits with an optional sign parse, anything else fails; the sign decides the sign of the value |
| Json.StructFields | services/go/logistics-svc/endpoints/channel_handlers.go:72-79 | malformed text fails, `null` gives the zero struct, an object gives its fields, any other document fails |
| Json.StringField | services/go/logistics-svc/endpoints/channel_handlers.go:72-79 | an absent or `null` field is the empty string, a JSON string is taken, any other value fails |
| Json.IdsOf | services/go/logistics-svc/endpoints/address_book_handlers.go:438-442 | decoding succeeds exactly when every element is a string holding an identifier, and keeps their order |
| Json.IdList | services/go/logistics-svc/endpoints/address_book_handlers.go:438-442 | `null` is the empty list, an array decodes element by element, anything else fails |
| Json.IdsOfIdArray | services/go/logistics-svc/endpoints/address_book_handlers.go:438-442 | a marshalled identifier list decodes back to the same list |
| Auth.HasPermission | services/go/shared/auth/token.go:108-120 | an anonymous caller holds no permission, an admin holds every permission, anyone else holds a set exactly when every permission in it was granted |
| Auth.AssurePermission | services/go/shared/auth/token.go:127-139 | unauthorized for an anonymous caller, forbidden when a requested permission is missing, success exactly when `HasPermission` holds |
| Auth.HasPermissionMonotone | services/go/shared/auth/token.go:108-120 | asking for more permissions never turns a failed check into a passed one |
| Auth.LimitToUserUnless | services/go/intelligence-svc/endpoints/intel_handlers.go:231-238 | the user limit is cleared exactly when the caller holds the view-any permission, and is otherwise the caller's own id |
| Events.DecodeFor | services/go/in-app-notifier-svc/eventport/handlers.go:65-70 | a message value decodes exactly when it holds the record its event type names; otherwise the handler fails with an internal error |
| Kafkautil.HeadersFromKafkaHeaders | services/go/shared/kafkautil/kafkautil.go:102-115 | every Kafka header is kept in order, and the event type is the value of the last `event-type` header, or empty when there is none |
| Kafkautil.LastEventTypeWins | services/go/shared/kafkautil/kafkautil.go:105-110 | an `event-type` header at the end decides the event type, whatever came before it |
| Kafkautil.LastEventTypeSkipsOthers | services/go/shared/kafkautil/kafkautil.go:105-110 | headers with other keys do not change the event type |
| Kafkautil.KafkaHeadersFromHeaders | services/go/shared/kafkautil/kafkautil.go:119-132 | the outbound headers in order, followed by exactly one `event-type` header carrying the event type |
| Kafkautil.EncodedEventTypeIsRecovered | services/go/shared/kafkautil/kafkautil.go:102-132 | decoding the encoded headers gives back the written event type, even when the caller's headers already held another one |
| Kafkautil.InboundMessageFromKafkaMessage | services/go/shared/kafkautil/kafkautil.go:85-98 | the transport fields and raw value are copied, and the event type is taken from the headers |
| Kafkautil.KafkaMessageFromOutboundMessage | services/go/shared/kafkautil/kafkautil.go:136-151 | a nil value gives an empty payload, a value that cannot be marshalled is an internal error, and the headers gain the event type |
| Kafkautil.OutboundInboundRoundTrip | services/go/shared/kafkautil/kafkautil.go:85-151 | a message that is written and then read back has the same topic, key, event type and value |
| Kafkautil.KafkaMessagesFromOutboundMessages | services/go/shared/kafkautil/kafkautil.go:155-166 | every message is converted in order, and the batch fails exactly when one message fails to convert |
| Kafkautil.WriteMessages | services/go/shared/kafkautil/kafkautil.go:155-173 | all messages are converted before anything is written, so one bad message means nothing is written; success requires every conversion and the writer to succeed |
| Pgmigrate.CurrentVersion | services/go/shared/pgmigrate/pgmigrate.go:217-228 | the highest target version among the successful log entries, and `ZeroVersion` when there are none |
| Pgmigrate.CurrentVersionWithoutSuccess | services/go/shared/pgmigrate/pgmigrate.go:20 | with no successful log entry, the schema is at `ZeroVersion` (-1) |
| Pgmigrate.CurrentVersionIgnoresFailures | services/go/shared/pgmigrate/pgmigrate.go:220-222 | dropping the failed log entries leaves the current version unchanged |
| Pgmigrate.CurrentVersionAppend | services/go/shared/pgmigrate/pgmigrate.go:217-228 | a longer log never lowers the current version, and it covers every successful entry added |
| Pgmigrate.Pending | services/go/shared/pgmigrate/pgmigrate.go:161-167 | keeps exactly the migrations above the current version and adds nothing |
| Pgmigrate.InsertByVersion | services/go/shared/pgmigrate/pgmigrate.go:169-171 | inserting into a version-sorted list keeps it sorted and adds exactly that migration |
| Pgmigrate.SortByVersion | services/go/shared/pgmigrate/pgmigrate.go:169-171 | the result is a permutation of the input, sorted ascending by target version |
| Pgmigrate.MigrationsToDoOrdered | services/go/shared/pgmigrate/pgmigrate.go:161-173 | exactly the migrations above the current version, ascending by target version, none added |
| Pgmigrate.NothingPending | services/go/shared/pgmigrate/pgmigrate.go:161-167 | when no migration is above the current version, there is nothing to do |
| Pgmigrate.NewMigrator | services/go/shared/pgmigrate/pgmigrate.go:52-68 | fails, with an internal error, exactly when two migrations share a target version |
| Pgmigrate.RunInOrder | services/go/shared/pgmigrate/pgmigrate.go:84-101 | runs a prefix of the pending migrations in order, logging each attempt with its outcome, and stops at the first rejected one; success iff every migration ran and none was rejected |
| Pgmigrate.Up | services/go/shared/pgmigrate/pgmigrate.go:72-103 | a log table name holding a quote is refused before anything runs; otherwise only a prefix of the ordered pending migrations is attempted |
| Pgmigrate.LoggedVersionsReached | services/go/shared/pgmigrate/pgmigrate.go:84-101 | logging a successful run of ascending migrations never lowers the current version and lifts it to at least every logged target version |
| Pgmigrate.SuccessfulUpLogsEvery | services/go/shared/pgmigrate/pgmigrate.go:72-103 | a successful `Up` writes one successful log entry per pending migration, in order |
| Pgmigrate.NothingLeftAfterLogging | services/go/shared/pgmigrate/pgmigrate.go:161-173 | once every pending migration is logged as successful, no migration is pending any more |
| Pgmigrate.UpIsIdempotent | services/go/shared/pgmigrate/pgmigrate.go:72-103 | after a fully successful `Up`, a second `Up` against the extended log has nothing left to do |
| Groups.Validate | services/go/group-svc/store/groups.go:31-37 | a group is reported invalid exactly when its title is empty |
| Groups.HasDuplicateMembers | services/go/group-svc/store/groups.go:381-390 | true exactly when some user id occurs twice in the member list |
| Groups.MembersOf | services/go/group-svc/store/groups.go:188-219 | the members read for a group are exactly the users of its member rows |
| Groups.GroupByID | services/go/group-svc/store/groups.go:171-220 | not-found exactly for an unknown id; otherwise the stored title, description and operation with exactly the users of its member rows, possibly none |
| Groups.MemberRowsFor | services/go/group-svc/store/groups.go:69-77 | one member row per given user, in order, all naming the group |
| Groups.CreateGroup | services/go/group-svc/store/groups.go:40-90 | a member list with duplicates is bad input and nothing is written; otherwise the group is stored under the new id with exactly the given members, and every other group keeps its members |
| Groups.DeleteMemberRows | services/go/group-svc/store/groups.go:150-155 | removes exactly the group's rows whose user is no longer wanted, and keeps every other row |
| Groups.ToAdd | services/go/group-svc/store/groups.go:128-137 | the wanted users that are not yet members |
| Groups.UpdateGroup | services/go/group-svc/store/groups.go:93-168 | duplicates are bad input, an unknown group is not-found; otherwise it inserts exactly new∖old, deletes exactly old∖new, the membership becomes the new set, and every other group keeps its members |
| Groups.DeleteGroupByID | services/go/group-svc/store/groups.go:363-377 | not-found exactly for an unknown id; otherwise the group and its member rows are gone and every other group keeps its members |
| Groups.Groups | services/go/group-svc/store/groups.go:235-333 | the corrected listing: not-found exactly when the filter user does not exist; otherwise each group that meets the user and operation filters, once, with exactly its stored header and members |
| Groups.GroupsAsWritten | services/go/group-svc/store/groups.go:235-333 | the listing as the code computes it: one entry per joined row, and only the last entry of each group carries its members, the others an empty member list |
| Groups.IndexByID | services/go/group-svc/store/groups.go:293-299 | every listed id is indexed, at the position of its last row |
| Groups.AttachMembers | services/go/group-svc/store/groups.go:313-329 | the entry an id is indexed at gains exactly the members of that group, in row order; every other entry keeps its members |
| Groups.GroupsAsWrittenRepeatsGroups | services/go/group-svc/store/groups.go:237-242 | one global group with two members, listed without filters: two entries, the first with no members |
| Groups.AsWrittenLastCopiesAreTheListing | services/go/group-svc/store/groups.go:235-333 | the joined rows name exactly the qualifying groups, and the last entry of each equals the corrected listing's entry |
| Groups.CreateGroupThenListed | services/go/group-svc/store/groups.go:40-90 | after a create, the listing holds the new group exactly when the filters admit its members and operation, and admits every other group as before |
| Groups.ForOperationSemantics | services/go/group-svc/store/groups.go:253-261 | with an operation filter, a group qualifies exactly when it belongs to that operation, or is global and globals are not excluded |
| Groups.NoOperationFilterSemantics | services/go/group-svc/store/groups.go:256-261 | without an operation filter, the null alternative alone restricts the list to global groups, unless globals are excluded, in which case nothing is filtered |
| Groups.AssureUserExists | services/go/group-svc/store/groups.go:336-360 | succeeds exactly for a known user, and is otherwise not-found |
| RadioDelivery.Active | services/go/radio-delivery-svc/store/radio_delivery.go:155-168 | exactly the deliveries without a success value, restricted to the operation when one is given |
| RadioDelivery.SelectNext | services/go/radio-delivery-svc/controller/radio_delivery.go:48-75 | none exactly when nothing is open; otherwise an open delivery that the mode puts first: highest importance for an even count in progress, oldest attempt for an odd one |
| RadioDelivery.PickUpNextRadioDelivery | services/go/radio-delivery-svc/controller/radio_delivery.go:23-108 | forbidden unless the operation is one of the caller's; none, with nothing changed, when no delivery is open; otherwise the delivery the priority rule puts first, marked as picked up by the caller |
| RadioDelivery.ReleasePickedUpRadioDelivery | services/go/radio-delivery-svc/controller/radio_delivery.go:113-160 | not-found for an unknown attempt, bad input when finished or not picked up, forbidden when the limit user differs from the picker; otherwise picked-up-by is cleared |
| RadioDelivery.FinishRadioDelivery | services/go/radio-delivery-svc/controller/radio_delivery.go:166-209 | not-found for an unknown attempt, bad input when not picked up, forbidden on a limit mismatch; otherwise the success value, time and note are set |
| RadioDelivery.FinishSetsSuccess | services/go/radio-delivery-svc/controller/radio_delivery.go:174-186 | finishing records the success value on exactly that delivery and leaves every other one as it was |
| RadioDelivery.ReleaseTimedOutRadioDeliveries | services/go/radio-delivery-svc/controller/radio_delivery.go:231-281 | releases exactly the picked-up deliveries whose elapsed time reached the timeout, and schedules each of their operations once |
| RadioDelivery.NoTimedOutAfterRelease | services/go/radio-delivery-svc/controller/radio_delivery.go:240-256 | after the timeout check, no active delivery stays picked up past the timeout |
| Channels.Validate | services/go/logistics-svc/store/channels.go:46-64 | a channel is invalid exactly when its type is unknown, its details report an error, or its timeout is not positive; the timeout message appears iff the timeout is not positive |
| Channels.AttachDetails | services/go/logistics-svc/store/channels.go:177-199 | in either reading, succeeds exactly when every channel's details can be read, and then gives every channel, in order, with its stored details; otherwise it fails with the error of a channel whose read failed: internal for a type without an operator or, as written, a forward channel with targets, not-found for a missing single-row detail |
| Channels.ChannelsByAddressBookEntry | services/go/logistics-svc/store/channels.go:89-113 | in either reading, not-found for an unknown entry; otherwise it succeeds exactly when every channel of the entry can be read, and then lists exactly the entry's channels with their details (a forward channel without rows has an empty target list); a failure carries the error of one of the entry's channels. As written, an entry with a forward channel that has a target fails |
| Channels.DeleteChannelWithDetailsByID | services/go/logistics-svc/store/channels.go:205-232 | a type without an operator is internal; otherwise it succeeds exactly when the channel has detail rows (a forward channel at least one target) and a channel row, and is not-found otherwise; on success the channel and its details are gone, every other channel row is kept, and every other channel's details read as before |
| Channels.CreateChannelWithDetails | services/go/logistics-svc/store/channels.go:237-279 | succeeds exactly for a type with an operator and details of that type, appending the channel row under the new id; its details then read back as given and no other channel's details change |
| Channels.UpdateChannelWithDetails | services/go/logistics-svc/store/channels.go:284-317 | succeeds exactly for a type with an operator, details of that type and an existing channel; its details then read back as given, its row is replaced, and every other row and every other channel's details are kept |
| Channels.GetDetails | services/go/logistics-svc/store/forward_to_user_channels.go:96-123 | the corrected read: a forward channel always reads, as the list of its target rows, possibly empty; a single-row type reads its row and is not-found without one (phone_call_channels.go:83-107) |
| Channels.GetDetailsAsWritten | services/go/logistics-svc/store/forward_to_user_channels.go:96-123 | the read as written: a forward channel with at least one target row is an internal scan error (also forward_to_group_channels.go:94-119); otherwise it agrees with the corrected read |
| Channels.DeleteDetails | services/go/logistics-svc/store/forward_to_user_channels.go:46-59 | not-found exactly when the channel has no detail rows (a forward channel no target rows, phone_call_channels.go:42-56 for the single-row types); otherwise the rows are gone and every other channel's details read as before |
| Channels.SetDetails | services/go/logistics-svc/store/forward_to_user_channels.go:62-93 | internal exactly when the details are not of the operator's type; otherwise the channel's details read back as given and every other channel's details are kept |
| Channels.ChannelDetailsOf | services/go/logistics-svc/store/channels.go:177-199 | internal when the channel's type has no operator, and as written also for a forward channel with targets; not-found exactly for a single-row type without its row; a successful read is the corrected read |
| Channels.DeleteThenChannelsByEntry | services/go/logistics-svc/store/channels.go:89-113 | in either reading, after a successful delete, an entry listing that succeeded before still succeeds and lists exactly the channels it listed before, except the deleted one |
| Channels.ChannelMetadataByID | services/go/logistics-svc/store/channels.go:320-353 | not-found exactly when no channel has the id; otherwise the stored channel with that id |
| Channels.CreateThenRead | services/go/logistics-svc/store/channels.go:89-113 | with the corrected read: when the entry's channels were all readable, a created channel is listed among its entry's channels with the details it was created with |
| Channels.CreatedForwardChannelUnreadableAsWritten | services/go/logistics-svc/store/forward_to_user_channels.go:96-123 | as written, a created forward channel with a target reads as an internal error and its entry's listing fails; when the entry's other channels read, the listing fails with exactly that internal error |
| Channels.ForwardListingFailsAsWritten | services/go/logistics-svc/store/channels.go:89-113 | an entry with one forward-to-user channel to one user: the corrected listing gives that channel with that target, the listing as written is an internal error |
| ChannelHandlers.PublicDetailsFromStore | services/go/logistics-svc/endpoints/channel_handlers.go:42-62 | every details variant has a public JSON object; only the absent variant has none |
| ChannelHandlers.StoreDetailsFromPublic | services/go/logistics-svc/endpoints/channel_handlers.go:72-79 | details that do not decode as a JSON object give nothing; decoded details are of the variant of the channel's type |
| ChannelHandlers.PublicChannelFromStore | services/go/logistics-svc/endpoints/channel_handlers.go:32-68 | an unsupported details variant is an internal error; otherwise every metadata field is copied |
| ChannelHandlers.StoreChannelFromPublic | services/go/logistics-svc/endpoints/channel_handlers.go:82-119 | an unknown channel type or undecodable details are bad input, and every error is bad input; otherwise every metadata field is copied |
| ChannelHandlers.StoreChannelRoundTrip | services/go/logistics-svc/endpoints/channel_handlers.go:32-119 | a store channel whose details fit its type survives the public form unchanged, apart from the active flag the public form lacks |
| ChannelHandlers.MismatchedDetailsAreLost | services/go/logistics-svc/endpoints/channel_handlers.go:94-108 | details of another variant are decoded by the type's mapper, so an e-mail channel with direct details comes back with an empty address |
| ChannelHandlers.StoreChannelsFromPublic | services/go/logistics-svc/endpoints/channel_handlers.go:302-308 | converts every channel, in order, and fails with bad input iff one of them does not convert |
| ChannelHandlers.PublicChannelsFromStore | services/go/logistics-svc/endpoints/channel_handlers.go:370-378 | converts every channel, in order, and is an internal error iff one has no details |
| ChannelHandlers.UpdateChannelsRequest | services/go/logistics-svc/endpoints/channel_handlers.go:281-329 | unauthorized for anonymous callers, bad input for a malformed entry id or an unconvertible channel; otherwise the converted channels with a user limit that is cleared exactly by update-any |
| ChannelHandlers.GetChannelsRequest | services/go/logistics-svc/endpoints/channel_handlers.go:339-381 | unauthorized for anonymous callers, bad input exactly for a malformed entry id; the user limit is cleared exactly by view-any |
| IntelDeliveries.KnownStatusesAreDistinct | services/go/logistics-svc/store/intel_delivery.go:18-41 | the eight declared attempt statuses are spelled pairwise differently |
| IntelDeliveries.CreateIntelDelivery | services/go/logistics-svc/store/intel_delivery.go:82-120 | the delivery is stored under the new id, the attempts stay as they were, and the store invariant is kept |
| IntelDeliveries.IntelDeliveryByID | services/go/logistics-svc/store/intel_delivery.go:123-154 | not-found exactly for an unknown id; otherwise the stored delivery |
| IntelDeliveries.LockIntelDeliveryByIDOrSkip | services/go/logistics-svc/store/intel_delivery.go:479-496 | not-found exactly for an unknown id |
| IntelDeliveries.UpdateIntelDeliveryStatusByDelivery | services/go/logistics-svc/store/intel_delivery.go:389-416 | not-found exactly for an unknown delivery; otherwise only its active flag, success and note change |
| IntelDeliveries.ActiveIntelDeliveries | services/go/logistics-svc/store/intel_delivery.go:609-643 | exactly the active deliveries |
| IntelDeliveries.ActiveIntelDeliveriesForOperation | services/go/logistics-svc/store/intel_delivery.go:647-682 | exactly the active deliveries whose intel belongs to the operation |
| IntelDeliveries.IntelDeliveriesByIntel | services/go/logistics-svc/store/intel_delivery.go:158-190 | exactly the deliveries of the intel |
| IntelDeliveries.CreateIntelDeliveryAttempt | services/go/logistics-svc/store/intel_delivery.go:196-228 | the new attempt is stored as open at the current time whatever status it was given, and the store invariant is kept |
| IntelDeliveries.IntelDeliveryAttemptByID | services/go/logistics-svc/store/intel_delivery.go:297-333 | not-found exactly when no attempt has the id; otherwise a stored attempt with that id |
| IntelDeliveries.UpdateIntelDeliveryAttemptStatusByID | services/go/logistics-svc/store/intel_delivery.go:232-251 | not-found exactly when no attempt has the id; otherwise that attempt's active flag, status, note and status time change and every other attempt is kept |
| IntelDeliveries.UpdatedAttemptReadsBack | services/go/logistics-svc/store/intel_delivery.go:232-251 | after an update of an existing attempt, reading it by id yields that attempt with the new active flag and status |
| IntelDeliveries.TimedOutIntelDeliveryAttemptsByDelivery | services/go/logistics-svc/store/intel_delivery.go:255-294 | exactly the delivery's attempts created longer ago than their channel's timeout |
| IntelDeliveries.IntelDeliveryAttemptsByDelivery | services/go/logistics-svc/store/intel_delivery.go:436-474 | a permutation of the delivery's attempts, ascending by creation time |
| IntelDeliveries.AttemptsByDeliveryMembers | services/go/logistics-svc/store/intel_delivery.go:436-474 | an attempt is listed for a delivery exactly when it is stored for that delivery |
| IntelDeliveries.ActiveIntelDeliveryAttemptsByDelivery | services/go/logistics-svc/store/intel_delivery.go:418-430 | exactly the delivery's active attempts, as the function promises |
| IntelDeliveries.ActiveIntelDeliveryAttemptsByDeliveryAsWritten | services/go/logistics-svc/store/intel_delivery.go:420-432 | returns every attempt of the delivery, the inactive ones included |
| IntelDeliveries.ActiveAttemptsAsWrittenReportsInactive | services/go/logistics-svc/store/intel_delivery.go:420-432 | for a delivery whose only attempt has finished, the as-written list holds that inactive attempt while the intended one is empty |
| IntelDeliveries.ActiveIntelDeliveryAttemptsByChannels | services/go/logistics-svc/store/intel_delivery.go:545-590 | exactly the active attempts on one of the channels; no channels select nothing |
| IntelDeliveries.DeleteIntelDeliveryAttemptsByChannel | services/go/logistics-svc/store/intel_delivery.go:594-605 | removes exactly the attempts on the channel and changes nothing else |
| IntelDeliveries.BestCandidate | services/go/logistics-svc/store/intel_delivery.go:359-371 | none exactly when no channel is a candidate; otherwise a candidate of the highest priority |
| IntelDeliveries.NextChannelForDeliveryAttempt | services/go/logistics-svc/store/intel_delivery.go:338-385 | a channel of the recipient that is active, unused by this delivery and allowed by the intel's importance, with no candidate of higher priority; none only when there is no candidate |
| IntelDeliveries.TriedChannelIsNotChosenAgain | services/go/logistics-svc/store/intel_delivery.go:344-356 | once an attempt was created on a channel, that channel is never the next one for the delivery |
| IntelDeliveries.IntelDeliveryAttempts | services/go/logistics-svc/store/intel.go:531-560 | every stored attempt that meets the filters, each as often as stored, newest first |
| IntelDeliveries.UnfilteredListsAllJoinedAttempts | services/go/logistics-svc/store/intel.go:531-560 | without filters every attempt whose delivery and intel exist is listed |
| IntelDeliveryController.CloseAttempts | services/go/logistics-svc/controller/intel_delivery.go:523-542 | not-found iff a listed attempt is missing; otherwise exactly the listed attempts become inactive with their chosen status and the others are kept |
| IntelDeliveryController.HandleTimedOutDeliveryAttempts | services/go/logistics-svc/controller/intel_delivery.go:270-302 | never fails; each attempt is either kept or closed with status timeout, and deliveries are unchanged |
| IntelDeliveryController.TimeoutClosesExactlyTimedOutActive | services/go/logistics-svc/controller/intel_delivery.go:275-288 | exactly the delivery's active, timed-out attempts are closed with status timeout and the timeout note; every other attempt is kept |
| IntelDeliveryController.CreateAttemptFor | services/go/logistics-svc/controller/intel_delivery.go:168-202 | not-found for a missing delivery, bad input for an inactive one; otherwise one new active, open attempt on the channel, published |
| IntelDeliveryController.MarkDeliveryAsFailed | services/go/logistics-svc/controller/intel_delivery.go:243-265 | not-found exactly for a missing delivery; otherwise it becomes inactive and unsuccessful with the reason as note, and this is published |
| IntelDeliveryController.LookAfterDelivery | services/go/logistics-svc/controller/intel_delivery.go:104-162 | a missing delivery is internal, an inactive one is left alone; otherwise timed-out attempts are closed before the next step, no delivery changes its intel or recipient, and at most the one new attempt id appears |
| IntelDeliveryController.DecideNextAttempt | services/go/logistics-svc/controller/intel_delivery.go:122-154 | nothing happens while an attempt is active or auto-delivery is off; with no next channel the delivery fails with the no-more-channels note; otherwise one attempt is created |
| IntelDeliveryController.NoNewAttemptWhileActive | services/go/logistics-svc/controller/intel_delivery.go:122-128 | while an attempt of the delivery is active, looking after it creates no attempt and changes no delivery |
| IntelDeliveryController.NoAttemptWithoutAutoDelivery | services/go/logistics-svc/controller/intel_delivery.go:131-138 | with auto-delivery disabled for the recipient, no attempt is created and the delivery stays as it is |
| IntelDeliveryController.NoChannelLeftFailsDelivery | services/go/logistics-svc/controller/intel_delivery.go:140-152 | with no channel left the delivery becomes inactive and unsuccessful with note "no more channels to try" |
| IntelDeliveryController.NextChannelGetsNewAttempt | services/go/logistics-svc/controller/intel_delivery.go:154 | otherwise exactly one active, open attempt is appended on the next channel and its creation is the last event |
| IntelDeliveryController.AsWrittenNeverRetries | services/go/logistics-svc/store/intel_delivery.go:420-432 | with the store query as written, a delivery that has any attempt, even a finished one, never gets another one |
| IntelDeliveryController.CorrectedRetriesAfterTimeout | services/go/logistics-svc/controller/intel_delivery.go:122-128 | with the corrected query, a delivery whose attempts all ended or timed out sees no active attempt and moves on |
| IntelDeliveryController.CreateIntelDeliveryAttempt | services/go/logistics-svc/controller/intel_delivery.go:206-236 | not-found for a missing delivery, bad input while an attempt of it is seen as active (as written: any attempt; corrected: an active one); otherwise the attempt is created |
| IntelDeliveryController.AsWrittenRefusesAfterAnyAttempt | services/go/logistics-svc/controller/intel_delivery.go:215-222 | with the store query as written, any earlier attempt of the delivery, even a finished one, makes a manual attempt bad input |
| IntelDeliveryController.CorrectedAcceptsAfterFinishedAttempts | services/go/logistics-svc/controller/intel_delivery.go:215-222 | with the corrected query, a delivery whose attempts are all inactive takes a manual attempt whenever the attempt itself can be created |
| IntelDeliveryController.UpdateIntelDeliveryAttemptStatusForActive | services/go/logistics-svc/controller/intel_delivery.go:351-400 | not-found for a missing attempt; skipped for an inactive or canceled one; otherwise only that attempt changes, stays active with the new status, and one event publishes it |
| IntelDeliveryController.MarkIntelDeliveryAttemptAsFailed | services/go/logistics-svc/controller/intel_delivery.go:454-497 | not-found for a missing attempt; an inactive one is left alone; an active one is closed as failed and published first; the set of deliveries is kept; as written, the delivery and the number of attempts stay as they were, because the failed attempt still counts as active |
| IntelDeliveryController.CorrectedFailureMovesOn | services/go/logistics-svc/controller/intel_delivery.go:454-497 | with the corrected query, failing the last active attempt of an active delivery with auto-delivery either creates one new attempt or fails the delivery |
| IntelDeliveryController.FailedLeavesNoneActive | services/go/logistics-svc/controller/intel_delivery.go:476-492 | once its last active attempt is failed and timeouts are handled, the delivery has no active attempt |
| IntelDeliveryController.OwnerIsRefusedAsWritten | services/go/logistics-svc/controller/intel_delivery.go:510-517 | the owner of the recipient entry is refused by the as-written check, which compares with the entry id, but allowed by the intended one |
| IntelDeliveryController.MarkIntelDeliveryAndAttemptAsDelivered | services/go/logistics-svc/controller/intel_delivery.go:503-556 | not-found for a missing delivery, forbidden unless the caller is the recipient's user; otherwise every active attempt is closed and the delivery becomes inactive and successful |
| IntelDeliveryController.ConfirmationClosesActiveAttempts | services/go/logistics-svc/controller/intel_delivery.go:524-551 | each active attempt of the delivery becomes inactive, delivered exactly when it is the confirmed one and canceled otherwise; other attempts are kept |
| IntelDeliveryController.MarkIntelDeliveryAttemptAsDelivered | services/go/logistics-svc/controller/intel_delivery.go:404-431 | not-found for a missing attempt; otherwise the confirmation of its delivery with that attempt chosen |
| IntelDeliveryController.ConfirmedAttemptIsDelivered | services/go/logistics-svc/controller/intel_delivery.go:404-431 | the confirmed attempt becomes inactive and delivered, and its delivery inactive |
| IntelDeliveryController.MarkIntelDeliveryAsDelivered | services/go/logistics-svc/controller/intel_delivery.go:435-450 | the confirmation of the delivery with no attempt chosen |
| IntelDeliveryController.ConfirmedDeliveryCancelsAttempts | services/go/logistics-svc/controller/intel_delivery.go:435-450 | with no attempt chosen, every active attempt of the delivery ends as canceled |
| IntelDeliveryController.HandleDeletedChannelsForDeliveryAttempts | services/go/logistics-svc/controller/intel_delivery.go:308-344 | removes exactly the attempts on deleted channels, and returns the deliveries of the active ones among them |
| IntelDeliveryController.CanceledAttemptsPublished | services/go/logistics-svc/controller/intel_delivery.go:313-343 | every active attempt on a deleted channel is published as canceled, and a delivery is returned exactly when one of its active attempts was on a deleted channel |
| IntelDeliveryController.ScheduleDeliveriesForIntel | services/go/logistics-svc/controller/intel_delivery.go:63-97 | not-found for missing intel; otherwise one delivery per recipient with that intel and recipient, each announced by a creation event, no existing delivery changes target, and the first event is the first delivery's creation |
| Search.IndexConfigOf | services/go/shared/search/search.go:136-146 | the configuration of a registered index, and an internal error exactly for an unknown index |
| Search.GenMSSettings | services/go/shared/search/search.go:341-368 | the generated settings make the primary key distinct and the only displayed attribute, and carry exactly the configured searchable, filterable and sortable attributes |
| Search.ShouldUpdateList | services/go/shared/search/search.go:374-386 | a list setting is to be sent exactly when one is wanted and it differs from the current one |
| Search.ShouldUpdateText | services/go/shared/search/search.go:388-399 | a single-valued setting is to be sent exactly when one is wanted and it differs from the current one |
| Search.ShouldUpdateMapAsWritten | services/go/shared/search/search.go:400-425 | as written, a synonyms map is to be sent exactly when one is wanted and it is non-empty, whatever the current map; so whenever the corrected comparison sends it |
| Search.RemoveUnchangedAsWritten | services/go/shared/search/search.go:372-460 | as written every list and text setting that is wanted is sent unchanged, the synonyms exactly when a non-empty map is wanted, and the sortable attributes never |
| Search.UnchangedSynonymsAreResentAsWritten | services/go/shared/search/search.go:400-425 | non-empty synonyms identical to the current ones are sent again as written and dropped by the corrected comparison |
| Search.UnchangedSettingsAreResentAsWritten | services/go/shared/search/search.go:372-460 | settings identical to the current ones are sent again in full |
| Search.RemoveUnchanged | services/go/shared/search/search.go:372-460 | a setting is kept exactly when it is wanted and differs from the current value |
| Search.RemoveUnchangedIsSound | services/go/shared/search/search.go:284-311 | settings equal to the current ones send nothing, and applying the reduced settings still yields exactly the configured attributes |
| Search.ResultFromResult | services/go/shared/search/search.go:474-483 | keeps the metadata of the original result and carries the new hits |
| Search.MapResult | services/go/shared/search/search.go:486-499 | keeps the metadata and maps every hit, in order |
| Search.MapResultComposes | services/go/shared/search/search.go:486-499 | mapping twice equals mapping with the composition, and mapping with the identity changes nothing |
| Search.HitId | services/go/shared/search/search.go:549-579 | a hit yields an id exactly when it is an object whose primary-key field is a string holding a UUID |
| Search.HitIds | services/go/shared/search/search.go:549-579 | every hit's id, in order, and none as soon as one hit has no id |
| Search.UuidSearch | services/go/shared/search/search.go:511-581 | a failed search, an unknown index or a hit without a UUID is an internal error; otherwise every hit's id, in order, with the answer's metadata |
| AddressBook.Validate | services/go/logistics-svc/store/address_book.go:81-87 | an entry is reported invalid exactly when its label is empty |
| AddressBook.VisibleByForUser | services/go/logistics-svc/store/address_book.go:186-214 | the users sharing an operation with the user, never the user themself |
| AddressBook.VisibleByAgreesWithIsUserVisibleBy | services/go/logistics-svc/store/address_book.go:186-214 | the visible-by list of a user holds exactly the other users the visibility check accepts |
| AddressBook.IsUserVisibleBySymmetric | services/go/logistics-svc/store/address_book.go:386-411 | visibility between two users holds in both directions or in neither |
| AddressBook.DocumentFromEntry | services/go/logistics-svc/store/address_book.go:91-116 | the search document holds id, label and description, the user attributes exactly when the entry has a user, and the operation attributes exactly when it has an operation |
| AddressBook.DocumentOf | services/go/logistics-svc/store/address_book.go:138-168 | the document of an entry whose user and operation exist; an internal error otherwise |
| AddressBook.DocumentOfDescribesEntry | services/go/logistics-svc/store/address_book.go:91-116 | the document of an entry answers the filter attributes as the entry and its user do |
| AddressBook.EntryById | services/go/logistics-svc/store/address_book.go:319-349 | not-found for an unknown id and for a user entry that the visible-by user may not see; otherwise the stored entry |
| AddressBook.DetailedOf | services/go/logistics-svc/store/address_book.go:319-349 | the entry with its user's details exactly when it has a user; a missing user is internal |
| AddressBook.Create | services/go/logistics-svc/store/address_book.go:414-460 | an unknown user or operation is internal; otherwise the entry is stored under the new id with its user's details, and the indexed document is the document of the stored entry |
| AddressBook.CreateThenSearchAgreesWithList | services/go/logistics-svc/store/address_book.go:448-457 | the document a creation indexes describes the new entry, so the search finds the new entry exactly when the listing shows it, apart from a user's own entry searched with that user as visible-by |
| AddressBook.Update | services/go/logistics-svc/store/address_book.go:464-487 | not-found exactly for an unknown id; otherwise only that entry is replaced |
| AddressBook.Delete | services/go/logistics-svc/store/address_book.go:490-509 | not-found exactly for an unknown id; otherwise only that entry is removed |
| AddressBook.DeleteThenByIdIsNotFound | services/go/logistics-svc/store/address_book.go:319-349 | a deleted entry cannot be read any more |
| AddressBook.ForOperationListIsEmptyAsWritten | services/go/logistics-svc/store/address_book.go:234-237 | as written, the operation filter joins the null test to the conjunction outside the OR, so no entry qualifies |
| AddressBook.ForOperationListDropsEntriesAsWritten | services/go/logistics-svc/store/address_book.go:234-237 | an entry of the filtered operation qualifies as intended but not as written |
| AddressBook.Entries | services/go/logistics-svc/store/address_book.go:218-313 | exactly the entries meeting the filters, with their details; an internal error exactly when a qualifying entry's user is missing |
| AddressBook.ActiveOnlyEntriesSucceed | services/go/logistics-svc/store/address_book.go:250-253 | when inactive users are excluded the listing does not fail |
| AddressBook.SearchFilterAsWritten | services/go/logistics-svc/store/address_book.go:513-543 | the visible-by group tests only the visible-by attribute |
| AddressBook.SearchFilter | services/go/logistics-svc/store/address_book.go:513-543 | the filter groups of the search, with a visible-by group that also accepts entries without a user |
| AddressBook.SearchHidesUserlessEntriesAsWritten | services/go/logistics-svc/store/address_book.go:533-537 | an entry without a user, which reading it by id with the same visible-by user returns, is never found by the search as written |
| AddressBook.ByUserGroup | services/go/logistics-svc/store/address_book.go:517-521 | the by-user group holds exactly for the user's entries |
| AddressBook.ForOperationGroup | services/go/logistics-svc/store/address_book.go:522-527 | the operation group holds exactly for global entries and entries of the operation |
| AddressBook.ExcludeGlobalGroup | services/go/logistics-svc/store/address_book.go:528-532 | the exclude-global group holds exactly for entries with an operation |
| AddressBook.VisibleByGroup | services/go/logistics-svc/store/address_book.go:533-537 | the corrected visible-by group holds exactly for userless entries and entries of users sharing an operation with the viewer |
| AddressBook.ActiveUserGroup | services/go/logistics-svc/store/address_book.go:538-543 | the active-user group holds exactly for userless entries and entries of active users |
| AddressBook.SearchAgreesWithList | services/go/logistics-svc/store/address_book.go:218-253 | an entry matches the corrected search filter exactly when it qualifies for the corrected listing, except a user's own entry searched with that user as visible-by, which the search never finds |
| AddressBook.OwnEntryListedButNotFound | services/go/logistics-svc/store/address_book.go:240-248 | an operation member's own entry is listed for them with the visible-by filter but not found by the search with the same filter |
| AddressBook.SearchEntries | services/go/logistics-svc/store/address_book.go:544-607 | a failed search fails; otherwise the stored entries among the hits, in hit order, with the search metadata |
| AddressBook.StoredHits | services/go/logistics-svc/store/address_book.go:555-607 | only stored entries, with their details, and every hit that names a stored entry |
| IntelContent.TypeOf | services/go/logistics-svc/endpoints/intel_handlers.go:136-170 | every content record belongs to one of the two intel types that have a mapper |
| IntelContent.DecodeContent | services/go/logistics-svc/endpoints/intel_handlers.go:75-93 | an unknown type or content that is not a JSON object is an internal error; decoded content is a record of the requested type, with missing fields at their zero values |
| IntelContent.EncodeContent | services/go/logistics-svc/endpoints/intel_handlers.go:75-93 | the encoded content is an object holding exactly the record's fields |
| IntelContent.DecodeEncodedContent | services/go/logistics-svc/endpoints/intel_handlers.go:136-170 | encoding a record and decoding it as its own type gives the record back |
| IntelContent.MapContent | services/go/logistics-svc/endpoints/intel_handlers.go:96-133 | mapping fails, as an internal error, exactly when decoding fails, and the mapped content decodes to the same record as the input |
| IntelContent.MapContentIdempotent | services/go/logistics-svc/eventport/notifiers.go:343-353 | mapping content that was already mapped changes nothing, so store, public and event forms agree |
| IntelContent.PlaintextIsCopied | services/go/logistics-svc/endpoints/intel_handlers.go:158-170 | a plaintext document keeps exactly its text field |
| LogisticsIntel.RepeatsCount | services/go/logistics-svc/store/intel.go:108-116 | the number of duplicate reports is the list length minus the number of distinct entries |
| LogisticsIntel.RepeatsEmptyIffNoDuplicates | services/go/logistics-svc/store/intel.go:108-116 | no duplicate is reported exactly when the deliver-to list has no duplicates |
| LogisticsIntel.Validate | services/go/logistics-svc/store/intel.go:100-118 | the type-and-content report followed by one message per repeated deliver-to entry |
| LogisticsIntel.ValidateReportsDuplicates | services/go/logistics-svc/store/intel.go:108-116 | one duplicate message per surplus occurrence, and none exactly when the list has no duplicates |
| LogisticsIntel.IntelByID | services/go/logistics-svc/store/intel.go:213-252 | not-found exactly when no intel has the id; otherwise the stored intel with that id |
| LogisticsIntel.IntelByIDFindsRow | services/go/logistics-svc/store/intel.go:213-252 | reading any stored intel by its id gives that intel when ids are unique |
| LogisticsIntel.Create | services/go/logistics-svc/store/intel.go:144-186 | the created intel is valid, has the new id and creation time and copies every field of the request; the delivery queries see its importance and operation |
| LogisticsIntel.CreateThenByID | services/go/logistics-svc/store/intel.go:144-252 | created intel can be read back by its new id |
| LogisticsIntel.InvalidateIntelByID | services/go/logistics-svc/store/intel.go:190-210 | not-found exactly when no intel has the id; otherwise only that intel's valid flag is cleared |
| LogisticsIntel.InvalidatedIsNotListed | services/go/logistics-svc/store/intel.go:190-210 | invalidated intel no longer appears in a listing that excludes invalid intel |
| LogisticsIntel.DeliveryForEntries | services/go/logistics-svc/store/intel.go:380-403 | exactly the entries some delivery of the intel goes to |
| LogisticsIntel.DeliveredToEntries | services/go/logistics-svc/store/intel.go:380-403 | exactly the entries some successful delivery of the intel went to, a subset of the delivery entries |
| LogisticsIntel.DocumentFromIntel | services/go/logistics-svc/store/intel.go:61-75 | the search document holds every indexed attribute, each with the intel's value |
| LogisticsIntel.DocumentOfIntel | services/go/logistics-svc/store/intel.go:380-403 | not-found exactly for unknown intel; otherwise the document with its delivery and delivered-to entries |
| LogisticsIntel.IntelList | services/go/logistics-svc/store/intel.go:436-511 | a permutation of the qualifying intel, newest first |
| LogisticsIntel.IntelListMembers | services/go/logistics-svc/store/intel.go:436-511 | intel is listed exactly when it is stored and meets the filters |
| LogisticsIntel.ScalarGroupsAgree | services/go/logistics-svc/store/intel.go:277-302 | the search groups for creator, operation, type, importance and validity hold exactly when the intel meets those filters |
| LogisticsIntel.EntryGroupsAgree | services/go/logistics-svc/store/intel.go:303-322 | the entry groups hold exactly when the intel shares a delivery entry, and a delivered-to entry, with each non-empty filter list |
| LogisticsIntel.SearchFilter | services/go/logistics-svc/store/intel.go:275-322 | the search filter has at most one group per filter |
| LogisticsIntel.SearchAgreesWithList | services/go/logistics-svc/store/intel.go:275-322 | an intel matches the search filter exactly when it qualifies for the listing |
| LogisticsIntel.RowsOfHits | services/go/logistics-svc/store/intel.go:341-373 | only stored hits that pass the delivery-entry safety filter |
| LogisticsIntel.SearchIntel | services/go/logistics-svc/store/intel.go:275-376 | a failed search fails; otherwise hits in hit order with the search metadata, never an intel that was not hit |
| LogisticsIntel.RowsOfHitsComplete | services/go/logistics-svc/store/intel.go:341-373 | every stored intel that was hit and passes the safety filter is returned |
| LogisticsIntel.SearchIntelReturnsStoredHits | services/go/logistics-svc/store/intel.go:330-376 | a stored intel is in the search result exactly when it was hit and passes the delivery-entry safety filter |
| LogisticsNotifiers.AddressBookEntryCreated | services/go/logistics-svc/eventport/notifiers.go:39-56 | the entry-created event goes to the address-book topic, keyed by the entry id, and carries every entry field |
| LogisticsNotifiers.AddressBookEntryUpdated | services/go/logistics-svc/eventport/notifiers.go:60-77 | the entry-updated event goes to the address-book topic, keyed by the entry id, and carries every entry field |
| LogisticsNotifiers.AddressBookEntryDeleted | services/go/logistics-svc/eventport/notifiers.go:81-94 | the entry-deleted event goes to the address-book topic, keyed by and carrying the entry id |
| LogisticsNotifiers.MapChannelType | services/go/logistics-svc/eventport/notifiers.go:97-118 | defined exactly on the seven supported store channel types, an internal error otherwise |
| LogisticsNotifiers.MapChannelTypeInjective | services/go/logistics-svc/eventport/notifiers.go:99-113 | distinct supported store channel types map to distinct event channel types |
| LogisticsNotifiers.MapChannelDetails | services/go/logistics-svc/eventport/notifiers.go:122-143 | succeeds exactly for a supported type whose details are of that type's variant, giving the event form of the details |
| LogisticsNotifiers.DetailsMapperRejectsOtherVariants | services/go/logistics-svc/eventport/notifiers.go:147-261 | each details mapper rejects details of another variant with an internal error |
| LogisticsNotifiers.EventDetailsArePublicDetails | services/go/logistics-svc/eventport/notifiers.go:147-261 | the event form of channel details is the same JSON document as the public form |
| LogisticsNotifiers.StoreChannelTypesAreSupported | services/go/logistics-svc/eventport/notifiers.go:22-35 | the store's channel types all have both mappers, and any further type would make the start-up check fail |
| LogisticsNotifiers.ChannelInfoOf | services/go/logistics-svc/eventport/notifiers.go:271-294 | a channel converts exactly when its type is supported and its details match it, copying every metadata field |
| LogisticsNotifiers.ChannelInfos | services/go/logistics-svc/eventport/notifiers.go:271-295 | every channel converts, keeping count and order, or the first unmappable one aborts |
| LogisticsNotifiers.AddressBookEntryChannelsUpdated | services/go/logistics-svc/eventport/notifiers.go:265-306 | a message keyed by the entry carrying every channel in order exactly when all of them convert; no message otherwise |
| LogisticsNotifiers.WellFormedChannelsAreNotified | services/go/logistics-svc/eventport/notifiers.go:265-306 | channels of supported types with matching details are always announced |
| LogisticsNotifiers.MapIntelType | services/go/logistics-svc/eventport/notifiers.go:309-318 | defined exactly on the two known intel types, an internal error otherwise |
| LogisticsNotifiers.IntelCreated | services/go/logistics-svc/eventport/notifiers.go:383-416 | the intel-created event exists exactly when the type is known and the content decodes, keyed by the intel id with its mapped content |
| LogisticsNotifiers.UnknownIntelTypeIsNotAnnounced | services/go/logistics-svc/eventport/notifiers.go:343-353 | intel of a type without a content mapper is an internal error and is not announced |
| LogisticsNotifiers.IntelInvalidated | services/go/logistics-svc/eventport/notifiers.go:419-434 | the invalidation event goes to the intel topic, keyed by the intel id, naming who invalidated it |
| LogisticsNotifiers.IntelDeliveryCreated | services/go/logistics-svc/eventport/notifiers.go:437-457 | the delivery-created event goes to the deliveries topic, keyed by the delivery id, with every delivery field |
| LogisticsNotifiers.IntelDeliveryStatusUpdated | services/go/logistics-svc/eventport/notifiers.go:461-480 | the delivery-status event goes to the deliveries topic, keyed by the delivery id, with the new status |
| LogisticsNotifiers.EventStatusFromStore | services/go/logistics-svc/eventport/notifiers.go:485-506 | defined exactly on the eight store statuses, an internal error otherwise |
| LogisticsNotifiers.EventStatusFromStoreInjective | services/go/logistics-svc/eventport/notifiers.go:485-506 | distinct store statuses map to distinct event statuses, and the spelling is kept |
| LogisticsNotifiers.IntelDeliveryAttemptCreated | services/go/logistics-svc/eventport/notifiers.go:510-574 | exists exactly for a known status; keyed by the delivery and carrying the attempt, the delivery with its recipient, the entry and the intel |
| LogisticsNotifiers.IntelDeliveryAttemptStatusUpdated | services/go/logistics-svc/eventport/notifiers.go:578-601 | exists exactly for a known status; keyed by the delivery and carrying the attempt's new state |
| LogisticsNotifiers.DeliveryEventsShareKey | services/go/logistics-svc/eventport/notifiers.go:529-530 | every event about a delivery and its attempts is keyed by the delivery id, so they stay in order on one partition |
| LogisticsIntelController.CreateIntel | services/go/logistics-svc/controller/intel.go:19-60 | forbidden unless the creator is a member of the operation; fails exactly when the delivery schedule or the announcement fails; otherwise the intel is stored, a delivery is scheduled for every initial recipient, and the intel's announcement comes last, after the delivery events |
| LogisticsIntelController.CreateIntelSchedulesEachRecipient | services/go/logistics-svc/controller/intel.go:43-52 | each initial recipient has a delivery of the new intel under its new id, announced by a delivery-created event that precedes the intel's announcement |
| LogisticsIntelController.CreatedIntelIsRetrievable | services/go/logistics-svc/controller/intel.go:19-60 | created intel can be read back unlimited by its new id |
| LogisticsIntelController.InvalidateIntelByID | services/go/logistics-svc/controller/intel.go:64-100 | not-found for unknown intel, forbidden unless the caller is a member of its operation; otherwise only its valid flag is cleared and this is announced |
| LogisticsIntelController.InvalidatedIntelReadsInvalid | services/go/logistics-svc/controller/intel.go:64-100 | invalidated intel reads back as invalid |
| LogisticsIntelController.ListedUserEntryIds | services/go/logistics-svc/controller/intel.go:108-113 | the user's entries as the limit lists them: all of them while the user is active, none otherwise, because the listing leaves out inactive users (services/go/logistics-svc/store/address_book.go:250-253) |
| LogisticsIntelController.UserEntriesListingSucceeds | services/go/logistics-svc/controller/intel.go:108-113 | the store's listing of the user's entries cannot fail and returns exactly the listed ids |
| LogisticsIntelController.UserEntryIds | services/go/logistics-svc/controller/intel.go:108-113 | exactly the address-book entries of the user |
| LogisticsIntelController.Kept | services/go/logistics-svc/controller/intel.go:119-129 | keeps exactly the filter entries that are the user's, in order |
| LogisticsIntelController.LimitIntelFiltersToUser | services/go/logistics-svc/controller/intel.go:106-140 | without entries of the user the search is skipped; otherwise only the delivery-entry filter changes, to a non-empty list of the user's own entries |
| LogisticsIntelController.KeptAll | services/go/logistics-svc/controller/intel.go:119-129 | a filter naming only the user's entries is kept as it is |
| LogisticsIntelController.EntitledFilterIsKept | services/go/logistics-svc/controller/intel.go:119-137 | a non-empty filter of the user's own entries passes unchanged |
| LogisticsIntelController.LimitIsIdempotent | services/go/logistics-svc/controller/intel.go:106-140 | limiting already limited filters changes nothing |
| LogisticsIntelController.LimitedFilterAdmitsOnlyDeliveredIntel | services/go/logistics-svc/controller/intel.go:106-140 | intel that passes the limited filters has a delivery to one of the user's entries |
| LogisticsIntelController.IntelByID | services/go/logistics-svc/controller/intel.go:199-233 | forbidden when the limit user has no delivery of the intel; otherwise the stored intel, not-found when unknown |
| LogisticsIntelController.SharedEntryMeansDelivered | services/go/logistics-svc/controller/intel.go:204-221 | a listed entry of the user that receives the intel admits the user to it by id |
| LogisticsIntelController.ByIDAgreesWithLimit | services/go/logistics-svc/controller/intel.go:204-221 | a user passes the by-id limit exactly when one of their entries has a delivery of the intel |
| LogisticsIntelController.Intel | services/go/logistics-svc/controller/intel.go:239-276 | given the store's listing of the user's entries: unlimited it is the store's list; limited to a user with no listed entry (none stored, or the user is inactive) it is empty; always newest first and only stored intel |
| LogisticsIntelController.LimitedListShowsOnlyDeliveredIntel | services/go/logistics-svc/controller/intel.go:239-276 | a limited listing shows only intel delivered to one of the user's entries, which the same user may also read by id |
| LogisticsIntelController.SearchIntel | services/go/logistics-svc/controller/intel.go:143-175 | unlimited it is the store's search; limited to a user with no listed entry (none stored, or the user is inactive) it is an empty result; otherwise it fails exactly when the search does, and every limited hit was delivered to the user |
| LogisticsIntelController.LimitedHitsAreDelivered | services/go/logistics-svc/controller/intel.go:143-175 | every hit of a limited search was delivered to one of the user's entries, so the user is among the users with deliveries of it |
| LogisticsIntelHandlers.StoreIntelTypeFromPublic | services/go/logistics-svc/endpoints/intel_handlers.go:62-71 | defined exactly on the two known types; an unknown public type is bad input |
| LogisticsIntelHandlers.PublicIntelTypeFromStore | services/go/logistics-svc/endpoints/intel_handlers.go:49-58 | defined exactly on the two known types; an unknown store type is internal |
| LogisticsIntelHandlers.IntelTypeMapsAreInverse | services/go/logistics-svc/endpoints/intel_handlers.go:49-71 | the store and public type maps are mutual inverses |
| LogisticsIntelHandlers.StoreCreateIntelFromPublic | services/go/logistics-svc/endpoints/intel_handlers.go:182-202 | an unsupported type is bad input and undecodable content internal; otherwise creator, operation, importance and initial recipients are copied |
| LogisticsIntelHandlers.PublicIntelFromStore | services/go/logistics-svc/endpoints/intel_handlers.go:218-241 | converts exactly when the type is known and the content decodes, copying every field |
| LogisticsIntelHandlers.CreatedIntelReadsBack | services/go/logistics-svc/endpoints/intel_handlers.go:182-241 | intel created from a public request reads back with the request's type, operation, importance and content |
| LogisticsIntelHandlers.PublicIntelsFromStore | services/go/logistics-svc/endpoints/intel_handlers.go:415-422 | converts every intel in order, an internal error iff one does not convert |
| LogisticsIntelHandlers.IntelFiltersFromRequest | services/go/logistics-svc/endpoints/intel_handlers.go:318-377 | each absent parameter leaves its filter unset, each malformed one is bad input, and a request parses exactly when every present parameter is well formed |
| LogisticsIntelHandlers.EmptyQueryHasNoFilters | services/go/logistics-svc/endpoints/intel_handlers.go:318-377 | a request without parameters sets no filter |
| LogisticsIntelHandlers.QueryOfFiltersRoundTrip | services/go/logistics-svc/endpoints/intel_handlers.go:318-377 | filters written as query parameters are read back unchanged |
| LogisticsIntelHandlers.CreateIntelRequest | services/go/logistics-svc/endpoints/intel_handlers.go:249-285 | unauthorized for anonymous callers, forbidden without create permission, bad input for an unreadable body; otherwise the converted intel created by the caller |
| LogisticsIntelHandlers.CreatedResponseOf | services/go/logistics-svc/endpoints/intel_handlers.go:277-283 | the response carries the public form of the created intel exactly when it converts |
| LogisticsIntelHandlers.InvalidateIntelRequest | services/go/logistics-svc/endpoints/intel_handlers.go:294-314 | unauthorized, forbidden without invalidate permission, bad input for a malformed id; otherwise the intel to invalidate and the caller |
| LogisticsIntelHandlers.GetIntelByID | services/go/logistics-svc/endpoints/intel_handlers.go:453-488 | unauthorized or bad input first; a caller without view-any sees only intel delivered to one of their entries |
| LogisticsIntelHandlers.GetIntelByIDIsLimited | services/go/logistics-svc/endpoints/intel_handlers.go:465-472 | without view-any the returned intel was delivered to one of the caller's entries |
| LogisticsIntelHandlers.GetAllIntel | services/go/logistics-svc/endpoints/intel_handlers.go:499-539 | unauthorized or bad input first; with view-any the unlimited listing, without it the listing limited to the caller |
| LogisticsIntelHandlers.GetAllIntelIsLimited | services/go/logistics-svc/endpoints/intel_handlers.go:515-522 | without view-any every listed intel was delivered to one of the caller's entries, so the caller may read it by id |
| LogisticsIntelHandlers.SearchIntel | services/go/logistics-svc/endpoints/intel_handlers.go:386-426 | unauthorized or bad input first; without view-any every hit was delivered to one of the caller's entries, so the caller may read it by id |
| AddressBookController.CreateAddressBookEntry | services/go/logistics-svc/controller/address_book.go:60-78 | creating succeeds iff the entry's user and operation (if any) exist; the stored entry gets the new id and exactly one created event carrying it is emitted |
| AddressBookController.CreatedEntryIsReadBack | services/go/logistics-svc/controller/address_book.go:60-78 | an entry just created is read back unchanged by id, whatever user the read is limited to |
| AddressBookController.UpdateAddressBookEntry | services/go/logistics-svc/controller/address_book.go:83-112 | an update succeeds iff the entry exists and, when limited to a user, belongs to that user; otherwise not-found |
| AddressBookController.DeleteAddressBookEntryByID | services/go/logistics-svc/controller/address_book.go:118-147 | a delete succeeds iff the entry exists and, when limited to a user, belongs to that user; otherwise not-found |
| AddressBookController.LimitedChangesKeepForeignEntries | services/go/logistics-svc/controller/address_book.go:83-147 | an update or delete limited to a user never changes or removes an entry of anyone else |
| AddressBookController.IsAutoIntelDeliveryEnabled | services/go/logistics-svc/controller/address_book.go:192-206 | reports whether auto-delivery is enabled for an existing entry; unknown entries are not-found |
| AddressBookController.SetAutoIntelDeliveryEnabled | services/go/logistics-svc/controller/address_book.go:210-232 | sets the flag of one existing entry, leaves every other entry's flag alone and announces the new value |
| AddressBookController.SetThenIsAutoDeliveryEnabled | services/go/logistics-svc/controller/address_book.go:192-232 | after setting the flag, reading it returns the value set |
| AddressBookController.EnabledMessages | services/go/logistics-svc/controller/address_book.go:244-255 | one auto-delivery event per listed entry, in list order, each carrying the flag |
| AddressBookController.SetEntriesWithAutoDeliveryEnabled | services/go/logistics-svc/controller/address_book.go:236-261 | afterwards exactly the listed entries have auto-delivery; an enabled event per listed entry and a disabled event per entry that lost it |
| AddressBookController.EveryFlippedEntryIsAnnounced | services/go/logistics-svc/controller/address_book.go:236-261 | every entry whose flag changed is announced with its new value |
| HttpQuery.OptionalFilter | services/go/logistics-svc/endpoints/address_book_handlers.go:136-143 | an absent parameter gives no filter; a present one must parse, else bad-input |
| HttpQuery.FlagFilter | services/go/logistics-svc/endpoints/address_book_handlers.go:150-156 | an absent flag is false; a present one must parse as a boolean, else bad-input |
| AddressBookHandlers.FiltersFromQuery | services/go/logistics-svc/endpoints/address_book_handlers.go:134-181 | the query parses iff every present parameter parses; the filters hold exactly the parsed values; failures are bad-input |
| AddressBookHandlers.EmptyQueryHasNoFilters | services/go/logistics-svc/endpoints/address_book_handlers.go:134-181 | an empty query yields no filter at all |
| AddressBookHandlers.FiltersQueryRoundTrip | services/go/logistics-svc/endpoints/address_book_handlers.go:134-181 | formatting a user id and a flag into a query and parsing it gives them back |
| AddressBookHandlers.GetEntryByID | services/go/logistics-svc/endpoints/address_book_handlers.go:102-130 | unauthenticated is unauthorized, a malformed id is bad-input; a result is the stored entry of that id |
| AddressBookHandlers.ListFilters | services/go/logistics-svc/endpoints/address_book_handlers.go:193-224 | a client without the view-any permission has its listing limited to entries visible to itself |
| AddressBookHandlers.GetAllEntries | services/go/logistics-svc/endpoints/address_book_handlers.go:193-224 | the listing is the store's listing under the parsed, permission-limited filters |
| AddressBookHandlers.GetAllEntriesIsLimited | services/go/logistics-svc/endpoints/address_book_handlers.go:193-224 | every entry listed for a client without the view-any permission is global or belongs to a user visible to it |
| AddressBookHandlers.CreateEntryRequest | services/go/logistics-svc/endpoints/address_book_handlers.go:233-264 | creating is allowed iff authenticated with a body and the entry is the client's own or it may create any entry |
| AddressBookHandlers.UpdateEntryRequest | services/go/logistics-svc/endpoints/address_book_handlers.go:273-315 | the corrected check: with the id check passed, updating is allowed iff the client may update any entry or the new entry names a user; only making an entry global is refused |
| AddressBookHandlers.UpdateEntry | services/go/logistics-svc/endpoints/address_book_handlers.go:273-315 | with the corrected check, a client without the update-any permission changes only an entry that was its own, and the entry keeps a user, which may be another one |
| AddressBookHandlers.UpdateKeepsEntriesOfOthers | services/go/logistics-svc/endpoints/address_book_handlers.go:273-315 | with the corrected check and without update-any, no update changes the set of entries, an entry that belonged to another user or to no user is untouched, and no global entry appears |
| AddressBookHandlers.HandOverIsAccepted | services/go/logistics-svc/endpoints/address_book_handlers_test.go:785-800 | a client without permissions hands its own entry to another user, in both readings, with the store call limited to the client |
| AddressBookHandlers.DeleteEntryRequest | services/go/logistics-svc/endpoints/address_book_handlers.go:325-357 | a delete is limited to the client unless it may delete any entry; a malformed id is bad-input |
| AddressBookHandlers.DeleteIsLimited | services/go/logistics-svc/endpoints/address_book_handlers.go:325-357 | a delete without the delete-any permission that succeeds removed the client's own entry |
| AddressBookHandlers.AutoDeliveryEntryRequest | services/go/logistics-svc/endpoints/address_book_handlers.go:461-541 | auto-delivery endpoints need the manage-delivery permission and a well-formed entry id |
| AddressBookHandlers.GetAutoDeliveryEnabled | services/go/logistics-svc/endpoints/address_book_handlers.go:461-481 | the response is the boolean whether the entry has auto-delivery |
| AddressBookHandlers.SetAutoDeliveryEnabled | services/go/logistics-svc/endpoints/address_book_handlers.go:491-541 | enabling or disabling is the controller's set of the flag for the requested entry |
| AddressBookHandlers.EnableThenGetReportsTrue | services/go/logistics-svc/endpoints/address_book_handlers.go:461-511 | after enabling an entry's auto-delivery the status endpoint reports true |
| AddressBookHandlers.SetEntriesWithAutoDeliveryRequest | services/go/logistics-svc/endpoints/address_book_handlers.go:431-451 | the list endpoint needs the manage-delivery permission and a JSON array of ids |
| AddressBookHandlers.SetEntriesWithAutoDeliveryAcceptsIdArray | services/go/logistics-svc/endpoints/address_book_handlers.go:431-451 | a JSON array of ids is accepted as exactly those ids |
| AddressBookHandlers.UpdateEntryRequestAsWritten | services/go/logistics-svc/endpoints/address_book_handlers.go:273-315 | as written the request is accepted on authentication, a well-formed id and a body with the same id, whatever user the new entry names |
| AddressBookHandlers.UpdateEntryAsWritten | services/go/logistics-svc/endpoints/address_book_handlers.go:273-315 | as written an update limited to the client only checks the stored entry's owner, not the new one |
| AddressBookHandlers.UpdateMakesGlobalEntryAsWritten | services/go/logistics-svc/endpoints/address_book_handlers.go:273-315 | a client without the update-any permission turns its own entry into a global one |
| LogisticsEventHandlers.HandleMessage | services/go/logistics-svc/eventport/handlers.go:49-65 | a consumed event whose value does not decode is an internal error; every consumed event that decodes leads to exactly one store or controller call; everything else is ignored |
| LogisticsEventHandlers.UnknownEventsAreIgnored | services/go/logistics-svc/eventport/handlers.go:49-65 | messages on other topics or of unknown types call nothing and are no error |
| LogisticsEventHandlers.InAppNotificationStatuses | services/go/logistics-svc/eventport/handlers.go:265-305 | a pending in-app notification moves the active attempt to awaiting-delivery and a sent one to awaiting-acknowledgement, each with its note |
| LogisticsEventHandlers.RadioDeliveryStatuses | services/go/logistics-svc/eventport/handlers.go:308-368 | ready-for-pickup and released move the active attempt to awaiting-delivery, picked-up to delivering, each with its own note |
| LogisticsEventHandlers.RadioFinishOutcome | services/go/logistics-svc/eventport/handlers.go:372-392 | a successful radio delivery marks the attempt delivered without a note; a failed one marks it failed with the event's note |
| LogisticsEventHandlers.RecordsAreCopied | services/go/logistics-svc/eventport/handlers.go:68-262 | users, groups and operations are stored exactly as the events carry them |
| LogisticsEventHandlers.SentNotificationAwaitsAck | services/go/logistics-svc/eventport/handlers.go:293-305 | after the call a sent notification causes, an active attempt that was not canceled is still active and awaits acknowledgement |
| IntelDeliveryHandlers.PublicStatusFromStore | services/go/logistics-svc/endpoints/intel_delivery_handlers.go:70-91 | exactly the known statuses convert, each to itself; any other is an internal error |
| IntelDeliveryHandlers.PublicStatusIsInjective | services/go/logistics-svc/endpoints/intel_delivery_handlers.go:70-91 | distinct stored statuses never convert to the same public status |
| IntelDeliveryHandlers.PublicAttemptFromStore | services/go/logistics-svc/endpoints/intel_delivery_handlers.go:36-51 | an attempt converts iff its status is known, field for field |
| IntelDeliveryHandlers.AttemptConversionRoundTrip | services/go/logistics-svc/endpoints/intel_delivery_handlers.go:36-51 | converting an attempt to its public form and back gives it back |
| IntelDeliveryHandlers.PublicAttemptsFromStore | services/go/logistics-svc/endpoints/intel_delivery_handlers.go:236-244 | a list converts iff each attempt converts, element by element |
| IntelDeliveryHandlers.MarkAsDeliveredRequest | services/go/logistics-svc/endpoints/intel_delivery_handlers.go:101-159 | marking needs authentication and a well-formed id, and is always made by the caller |
| IntelDeliveryHandlers.MarkAttemptAsDelivered | services/go/logistics-svc/endpoints/intel_delivery_handlers.go:101-125 | the endpoint is the controller's mark-attempt call made by the caller |
| IntelDeliveryHandlers.MarkDeliveryAsDelivered | services/go/logistics-svc/endpoints/intel_delivery_handlers.go:135-159 | the endpoint is the controller's mark-delivery call made by the caller |
| IntelDeliveryHandlers.HttpConfirmationIsByCaller | services/go/logistics-svc/endpoints/intel_delivery_handlers.go:135-159 | a confirmation over HTTP that goes through passed the recipient check for the caller |
| IntelDeliveryHandlers.CreateAttemptRequest | services/go/logistics-svc/endpoints/intel_delivery_handlers.go:169-205 | creating an attempt needs the manage-delivery permission and two well-formed ids |
| IntelDeliveryHandlers.CreateAttempt | services/go/logistics-svc/endpoints/intel_delivery_handlers.go:169-205 | the endpoint succeeds iff the request is well formed and the controller creates the attempt, under the active-attempt query as written or corrected; the answer is the open, active attempt created |
| IntelDeliveryHandlers.AttemptsByDelivery | services/go/logistics-svc/endpoints/intel_delivery_handlers.go:215-247 | the manage-delivery permission is needed; the result is the delivery's attempts in public form |
| IntelDeliveryHandlers.CancelDeliveryRequest | services/go/logistics-svc/endpoints/intel_delivery_handlers.go:263-297 | cancelling needs the manage-delivery permission, a well-formed id and a body |
| IntelDeliveryHandlers.AttemptFiltersFromRequest | services/go/logistics-svc/endpoints/intel_delivery_handlers.go:301-336 | the query parses iff every present parameter parses; failures are bad-input |
| IntelDeliveryHandlers.EmptyQueryHasNoAttemptFilters | services/go/logistics-svc/endpoints/intel_delivery_handlers.go:301-336 | an empty query yields no filter |
| IntelDeliveryHandlers.AttemptFiltersQueryRoundTrip | services/go/logistics-svc/endpoints/intel_delivery_handlers.go:301-336 | formatting a delivery id and an active flag into a query and parsing it gives them back |
| IntelDeliveryHandlers.Attempts | services/go/logistics-svc/endpoints/intel_delivery_handlers.go:347-383 | authentication, well-formed filters and the deliver-intel permission are needed, checked in that order |
| IntelDeliveryHandlers.ListedAttemptsMatchQuery | services/go/logistics-svc/endpoints/intel_delivery_handlers.go:347-383 | every listed attempt is stored and satisfies every filter of the query |
| InboxOutbox.HeaderKeys | services/go/shared/kafkautil/inbox_outbox.go:376-381 | the header keys, in order |
| InboxOutbox.HeaderValues | services/go/shared/kafkautil/inbox_outbox.go:376-381 | the header values, in order |
| InboxOutbox.JoinHeaders | services/go/shared/kafkautil/inbox_outbox.go:511-525 | joining fails with an internal error iff the lists differ in length, else pairs them up in order |
| InboxOutbox.SplitJoinHeaders | services/go/shared/kafkautil/inbox_outbox.go:376-381 | splitting headers into keys and values and joining them gives them back |
| InboxOutbox.InboundOfRow | services/go/shared/kafkautil/inbox_outbox.go:494-527 | a stored row reads back as a message iff its header lists have equal length |
| InboxOutbox.InboxRowRoundTrip | services/go/shared/kafkautil/inbox_outbox.go:370-408 | a message stored in the inbox reads back unchanged |
| InboxOutbox.NewInboxRows | services/go/shared/kafkautil/inbox_outbox.go:370-408 | one pending row per message, with consecutive ids |
| InboxOutbox.AddInboxMessages | services/go/shared/kafkautil/inbox_outbox.go:370-408 | the inbox grows by exactly the new pending rows, appended in order; the outbox is untouched |
| InboxOutbox.InboxCandidates | services/go/shared/kafkautil/inbox_outbox.go:415-450 | the candidates are exactly the rows that are the earliest unprocessed ones of their topic, partition and key |
| InboxOutbox.Ids | services/go/shared/kafkautil/inbox_outbox.go:415-450 | the ids of the rows, in order |
| InboxOutbox.OldestPending | services/go/shared/kafkautil/inbox_outbox.go:459-491 | among the chosen ids, a pending unprocessed row whose status time is no later than that of any other such row; none iff there is no such row |
| InboxOutbox.NextInboxRow | services/go/shared/kafkautil/inbox_outbox.go:415-527 | none when everything is processed; otherwise a pending unprocessed row that heads its segment, picked at random when asked |
| InboxOutbox.NextInboxIsSegmentHead | services/go/shared/kafkautil/inbox_outbox.go:415-527 | the next inbox row is always the oldest unprocessed one of its key, so messages of one key are handled in order |
| InboxOutbox.SegmentHasHead | services/go/shared/kafkautil/inbox_outbox.go:415-450 | every unprocessed row has an unprocessed head in its segment |
| InboxOutbox.InboxProgress | services/go/shared/kafkautil/inbox_outbox.go:415-527 | while some row is pending and heads its segment, a next row is found |
| InboxOutbox.SetInboxMessageStatus | services/go/shared/kafkautil/inbox_outbox.go:532-550 | only an unprocessed message changes status; a processed one is not found |
| InboxOutbox.ProcessedIsFinal | services/go/shared/kafkautil/inbox_outbox.go:532-550 | once processed a message's status never changes again |
| InboxOutbox.OutboundOfRow | services/go/shared/kafkautil/inbox_outbox.go:657-686 | a stored row reads back as a message iff its header lists have equal length |
| InboxOutbox.NewOutboxRows | services/go/shared/kafkautil/inbox_outbox.go:554-593 | one pending row per message, with consecutive ids, each reading back as its message with the value stored as JSON |
| InboxOutbox.AddOutboxMessages | services/go/shared/kafkautil/inbox_outbox.go:554-593 | adding fails iff a value cannot be marshalled; otherwise the outbox grows by exactly the new pending rows |
| InboxOutbox.NextOutboxRow | services/go/shared/kafkautil/inbox_outbox.go:596-686 | the next row is the lowest-id unsent row heading its key; none iff there is none |
| InboxOutbox.OldestUnsentIsCandidate | services/go/shared/kafkautil/inbox_outbox.go:596-650 | the oldest unsent row is always a candidate |
| InboxOutbox.NextOutboxIsOldestUnsent | services/go/shared/kafkautil/inbox_outbox.go:596-686 | in a well-formed outbox the next message sent is the oldest unsent one, so messages leave in the order they were added |
| InboxOutbox.AddOutboxKeepsWellFormed | services/go/shared/kafkautil/inbox_outbox.go:554-593 | adding keeps the outbox well formed |
| InboxOutbox.SetSentKeepsWellFormed | services/go/shared/kafkautil/inbox_outbox.go:690-707 | marking sent keeps the outbox well formed |
| InboxOutbox.NextOutboxMessage | services/go/shared/kafkautil/inbox_outbox.go:596-686 | the message of the next outbox row, an internal error if its headers do not pair up |
| InboxOutbox.SetOutboxMessageStatus | services/go/shared/kafkautil/inbox_outbox.go:690-707 | a known message gets the status, nothing else changes; an unknown one is not found |
| InboxOutbox.WriteSingle | services/go/shared/kafkautil/inbox_outbox.go:197-237 | writing one message sends exactly its Kafka form |
| InboxOutbox.PumpSend | services/go/shared/kafkautil/inbox_outbox.go:197-237 | a written message is marked sent; a failed write changes nothing and waits the error cooldown |
| InboxOutbox.PumpOutgoingStep | services/go/shared/kafkautil/inbox_outbox.go:197-237 | one pump step sends at most the next outbox message, marking it sent, and polls again when there is none |
| InboxOutbox.OutboxWriteMatchesDirectWrite | services/go/shared/kafkautil/inbox_outbox.go:174-237 | when every earlier outbox row has been sent, a message put in the outbox is the next one sent, with the topic, key and headers a direct write gives it; its value is always the JSON encoding, so a nil value goes out as `null` where a direct write sends an empty value |
| InboxOutbox.ReadStep | services/go/shared/kafkautil/inbox_outbox.go:241-291 | a fetched message is committed only with its inbox row; a failure keeps it for a retry after the cooldown |
| InboxOutbox.ReadStepOwes | services/go/shared/kafkautil/inbox_outbox.go:241-291 | every fetched message is either committed or still owed after a read step |
| InboxOutbox.ReadCommitsEveryFetchedMessage | services/go/shared/kafkautil/inbox_outbox.go:241-291 | over any run, every fetched message is committed or still owed, in fetch order |
| InboxOutbox.NextInboxMessage | services/go/shared/kafkautil/inbox_outbox.go:415-527 | the message of the next inbox row, an internal error if its headers do not pair up |
| InboxOutbox.ProcessIncomingStep | services/go/shared/kafkautil/inbox_outbox.go:298-344 | one step handles at most the next inbox message and marks it processed; a handler failure changes nothing and waits the cooldown |
| InboxOutbox.HandledInKeyOrder | services/go/shared/kafkautil/inbox_outbox.go:298-344 | the message handled in a step headed its key, so each key's messages are handled in arrival order |
| SearchActions.HandlerFn | services/go/shared/search/action_processor.go:110-164 | exactly the three known action types are handled, each by its own call on the action's index; options that do not decode, a rebuild without a rebuild function and any other type are internal errors |
| SearchActions.CallMatchesActionType | services/go/shared/search/action_processor.go:110-164 | the call made always matches the action's type and index |
| SearchActions.NextAction | services/go/shared/search/action_processor.go:185-247 | the action processed next is the lowest-id candidate: the oldest open action of its index and document whose retry cooldown has elapsed; none iff there is none |
| SearchActions.NextIsGroupHead | services/go/shared/search/action_processor.go:189-234 | the action processed next is always the oldest open one of its index and document, so a document's actions apply in order |
| SearchActions.FreshHeadIsProcessed | services/go/shared/search/action_processor.go:229-247 | an open action heading its group without an error makes some action eligible, one with an id no greater |
| SearchActions.AfterTry | services/go/shared/search/action_processor.go:265-284 | a success uses up all tries and clears the error; a failure uses up one try and records the error; the processing time is updated |
| SearchActions.Next | services/go/shared/search/action_processor.go:185-298 | more iff an action was eligible; then exactly that action is updated after its try and the call it makes is reported |
| SearchActions.NextUsesUpTries | services/go/shared/search/action_processor.go:265-284 | each processed action lowers the total of remaining tries, so the processor stops on any fixed set of actions |
| SearchActions.UnhandledActionFails | services/go/shared/search/action_processor.go:265-284 | an action whose type is unknown makes no call and loses one try with its error recorded |
| SearchActions.RunCooldown | services/go/shared/search/action_processor.go:78-107 | after an error the processor waits the error cooldown, when nothing is left the empty cooldown, otherwise it goes on at once |
| WsHub.LowerChar | services/go/ws-hub-svc/ws/ws.go:101 | the result is never an upper-case ASCII letter, and any other character is kept |
| WsHub.ToLower | services/go/ws-hub-svc/ws/ws.go:101 | the name keeps its length, and each character is lower-cased on its own |
| WsHub.ToLowerIdempotent | services/go/ws-hub-svc/ws/ws.go:101 | lower-casing a lower-cased name changes nothing |
| WsHub.HeadersWithoutWS | services/go/ws-hub-svc/ws/ws.go:89-107 | a header is kept iff its lower-cased name is not one of the six WebSocket handshake headers (`IsWebSocketHeader`), with its values unchanged |
| WsHub.HeadersWithoutWSIdempotent | services/go/ws-hub-svc/ws/ws.go:98-107 | stripping twice is stripping once, and no header is added |
| WsHub.PlainHeadersAreKept | services/go/ws-hub-svc/ws/ws.go:98-107 | headers without any handshake header pass through unchanged |
| WsHub.HandshakeHeadersAreRemoved | services/go/ws-hub-svc/ws/ws.go:98-107 | a handshake header is removed whatever its letter case |
| WsHub.ServeDials | services/go/ws-hub-svc/ws/ws.go:150-168 | an unknown gate is not-found; otherwise every channel of the gate is dialled at its URL with the stripped request headers |
| WsHub.ChannelsShareHeaders | services/go/ws-hub-svc/ws/ws.go:112-124 | every channel of a gate is dialled with the same stripped headers |
| Users.Validate | services/go/user-svc/store/users.go:56-68 | one error per empty field among username, first name and last name, and no other error |
| Users.ValidateWithPass | services/go/user-svc/store/users.go:89-100 | an empty password is reported first, followed by every error of the user |
| Users.ValidateWithPassExtendsValidate | services/go/user-svc/store/users.go:89-100 | the errors of a user with password end with exactly the errors of the user |
| Users.DocumentFromUser | services/go/user-svc/store/users.go:71-79 | the search document carries exactly id, username, first and last name and the active flag |
| Users.DocumentFitsIndexConfig | services/go/user-svc/store/users.go:71-79 | the document holds every attribute the index declares and does not depend on the admin flag |
| Users.UserById | services/go/user-svc/store/users.go:103-137 | found iff some stored user has the id, and then that user; otherwise not-found |
| Users.UserByUsername | services/go/user-svc/store/users.go:140-174 | found iff some stored user has the username, and then one such user; otherwise not-found |
| Users.UsersAsWritten | services/go/user-svc/store/users.go:178-195 | as written the listing holds every stored user, sorted by username, whatever the filter |
| Users.ListUsers | services/go/user-svc/store/users.go:178-229 | the listing is sorted by username and holds exactly the stored users the filter admits: inactive ones only when asked for |
| Users.UsersAsWrittenIgnoresFilters | services/go/user-svc/store/users.go:193-195 | as written the filter has no effect on the listing |
| Users.InactiveUserListedAsWritten | services/go/user-svc/store/users.go:193-195 | an inactive user is listed as written although the default filter excludes it |
| Users.SearchFilter | services/go/user-svc/store/users.go:325-330 | the search is restricted to active users unless inactive ones are asked for |
| Users.SearchAgreesWithList | services/go/user-svc/store/users.go:178-195 | a user's document matches the search filter iff the listing filter admits the user |
| Users.StoredHits | services/go/user-svc/store/users.go:341-368 | every hit is a stored user whose id was found, and every found id of a stored user is a hit |
| Users.SearchUsers | services/go/user-svc/store/users.go:322-372 | a failed search fails; otherwise the hits are stored users with found ids, under the search's metadata |
| Users.CreateUser | services/go/user-svc/store/users.go:232-268 | the created user gets the new id, is read back by id, and is appended with its password hash |
| Users.UpdateUser | services/go/user-svc/store/users.go:272-298 | updating succeeds iff the user exists, else not-found; afterwards the user reads back as updated and no password changes |
| Users.UpdateUserPass | services/go/user-svc/store/users.go:302-319 | changing a password succeeds iff the user exists, else not-found; only that user's hash changes |
| Users.PassChangeKeepsUsers | services/go/user-svc/store/users.go:302-319 | a password change changes no listing and no lookup |
| UserHandlers.FiltersFromQuery | services/go/user-svc/endpoints/user_handlers.go:22-34 | an absent parameter leaves inactive users out; a malformed one is bad-input; a present one is parsed |
| UserHandlers.FiltersQueryRoundTrip | services/go/user-svc/endpoints/user_handlers.go:22-34 | formatting a flag into the query and parsing it gives it back |
| UserHandlers.CreateUserRequest | services/go/user-svc/endpoints/user_handlers.go:74-141 | unauthenticated is unauthorized, missing create-user is forbidden, an admin needs set-admin, an invalid user is bad-input; otherwise the created user is the body's |
| UserHandlers.CreatedUsersAreActive | services/go/user-svc/endpoints/user_handlers.go:94-114 | every created user is active, and an admin only with the set-admin permission |
| UserHandlers.GetUserRequest | services/go/user-svc/endpoints/user_handlers.go:357-393 | viewing oneself needs no permission, viewing others needs view-user |
| UserHandlers.GetUser | services/go/user-svc/endpoints/user_handlers.go:357-393 | the response is the store's lookup of the permitted id |
| UserHandlers.ListUsersRequest | services/go/user-svc/endpoints/user_handlers.go:419-459 | listing needs view-user and a well-formed query |
| UserHandlers.GetUsers | services/go/user-svc/endpoints/user_handlers.go:419-459 | succeeds exactly when the request is permitted and its filter parses; the response is sorted by username; with the documented listing it holds exactly the users the filter admits, with the listing as written every stored user |
| UserHandlers.DefaultListingIsActiveOnly | services/go/user-svc/endpoints/user_handlers.go:419-459 | without the include-inactive parameter, the documented listing shows only active users |
| UserHandlers.DefaultListingAsWrittenShowsInactive | services/go/user-svc/endpoints/user_handlers.go:419-459 | without the include-inactive parameter, the listing as written shows every stored user, inactive ones included |
| UserHandlers.SearchUsersRequest | services/go/user-svc/endpoints/user_handlers.go:467-501 | searching needs view-user and a well-formed query |
| UserHandlers.SearchAndListAdmitTheSameUsers | services/go/user-svc/endpoints/user_handlers.go:419-501 | search and listing accept the same requests; a stored user is in the documented listing iff it matches the search filter; the listing as written shows a stored inactive user that a default search leaves out |
| UserHandlers.UpdateUserRequest | services/go/user-svc/endpoints/user_handlers.go:170-234 | an id mismatch is bad-input; updating others needs update-user; the admin and active-state allowances are the set-admin and set-active-state permissions |
| UserHandlers.UpperCasePathIsBadInput | services/go/user-svc/endpoints/user_handlers.go:181-187 | a path id in upper case does not equal the body's id, so the update is bad-input |
| UserHandlers.SelfUpdateNeedsNoPermission | services/go/user-svc/endpoints/user_handlers.go:188-207 | a user may update itself without any permission, with neither allowance |
| UserHandlers.UpdateThenGet | services/go/user-svc/endpoints/user_handlers.go:170-234 | after an update the user reads back as updated |
| UserHandlers.UpdatePassRequest | services/go/user-svc/endpoints/user_handlers.go:253-294 | an id mismatch is bad-input; changing another user's password needs update-user-pass |
| UserHandlers.PassChangeIsConfined | services/go/user-svc/endpoints/user_handlers.go:253-294 | a permitted password change leaves every other user's row untouched |
| UserHandlers.DeleteUserRequest | services/go/user-svc/endpoints/user_handlers.go:305-332 | deleting always needs set-active-state and a well-formed id |
| UserHandlers.SelfAccessRules | services/go/user-svc/endpoints/user_handlers.go:305-393 | a user may view itself but not delete itself without set-active-state |
| Operations.Validate | services/go/operation-svc/store/operations.go:86-95 | an empty title and an end before the start are each reported once, and nothing else |
| Operations.InstantOperationIsValid | services/go/operation-svc/store/operations.go:86-95 | an operation with a title that ends when it starts is valid |
| Operations.DocumentFromOperation | services/go/operation-svc/store/operations.go:47-65 | the document carries exactly id, title, description, start, end, archive flag and the members as strings in order; the end is null iff unset |
| Operations.DocumentFitsIndexConfig | services/go/operation-svc/store/operations.go:47-65 | the document holds every attribute the index declares |
| Operations.OperationById | services/go/operation-svc/store/operations.go:98-132 | found iff some stored operation has the id, and then that operation; otherwise not-found |
| Operations.CreateOperation | services/go/operation-svc/store/operations.go:205-244 | the created operation gets the new id, reads back by id and is appended; members are untouched |
| Operations.UpdateOperation | services/go/operation-svc/store/operations.go:247-277 | updating succeeds iff the operation exists, else not-found; it then reads back as updated and nothing else changes |
| Operations.ListOperations | services/go/operation-svc/store/operations.go:145-201 | the listing holds exactly the stored operations that are ongoing when asked, not archived unless asked, and have the user as member when asked |
| Operations.DefaultListingHidesArchived | services/go/operation-svc/store/operations.go:160-162 | without filters exactly the non-archived operations are listed |
| Operations.SearchFilterAsWritten | services/go/operation-svc/store/operations.go:284-299 | as written the ongoing condition is one group of two alternatives, so it holds when the operation started or has not ended |
| Operations.EndedOperationFoundAsWritten | services/go/operation-svc/store/operations.go:284-289 | an operation that ended before now is found as written although the listing excludes it |
| Operations.SearchFilter | services/go/operation-svc/store/operations.go:284-299 | one group per requested condition: ongoing, not archived, has the member |
| Operations.MemberCondHolds | services/go/operation-svc/store/operations.go:294-298 | the member condition holds iff the user is among the document's members |
| Operations.SearchAgreesWithList | services/go/operation-svc/store/operations.go:145-201 | an operation's document matches the search filter iff the listing admits it |
| Operations.StoredHits | services/go/operation-svc/store/operations.go:315-345 | every hit is a stored operation whose id was found and, when limited to a user, has that user as member; and every stored operation whose id was found and that passes the user limit is a hit |
| Operations.SearchOperations | services/go/operation-svc/store/operations.go:280-348 | a failed search fails; otherwise, under the search's metadata, the hits are exactly the stored operations with found ids that pass the user limit |
| OperationHandlers.FiltersFromQuery | services/go/operation-svc/endpoints/operation_handlers.go:24-60 | filters default to false or unset; the query parses iff each present parameter parses; failures are bad-input |
| OperationHandlers.FiltersQueryRoundTrip | services/go/operation-svc/endpoints/operation_handlers.go:24-60 | formatting filters into a query and parsing it gives them back |
| OperationHandlers.PublicFromStore | services/go/operation-svc/endpoints/operation_handlers.go:81-90 | the public operation has the stored one's fields |
| OperationHandlers.StoreFromPublic | services/go/operation-svc/endpoints/operation_handlers.go:93-102 | the stored operation has the public one's fields |
| OperationHandlers.PublicStoreRoundTrip | services/go/operation-svc/endpoints/operation_handlers.go:81-102 | the two conversions are mutual inverses |
| OperationHandlers.EffectiveFilters | services/go/operation-svc/endpoints/operation_handlers.go:142-149 | without view-any-operation the user filter is forced to the caller; otherwise the parsed filters stand |
| OperationHandlers.RetrievalRequest | services/go/operation-svc/endpoints/operation_handlers.go:131-164 | listing needs authentication and a well-formed query, and uses the effective filters |
| OperationHandlers.GetOperations | services/go/operation-svc/endpoints/operation_handlers.go:131-164 | the response is exactly the public forms of the listed operations under the effective filters |
| OperationHandlers.ListedOperationsAreOwn | services/go/operation-svc/endpoints/operation_handlers.go:142-149 | a caller without view-any-operation only sees operations it is a member of |
| OperationHandlers.SearchOperationsHandler | services/go/operation-svc/endpoints/operation_handlers.go:364-396 | a failed search fails; otherwise hits are public forms of stored operations under the effective filters |
| OperationHandlers.SearchAndListAdmitTheSameOperations | services/go/operation-svc/endpoints/operation_handlers.go:364-396 | with the corrected search filter, search and listing admit the same operations for the same request |
| OperationHandlers.GetOperationRequest | services/go/operation-svc/endpoints/operation_handlers.go:172-191 | reading an operation needs authentication and a well-formed id; no membership is checked |
| OperationHandlers.GetOperation | services/go/operation-svc/endpoints/operation_handlers.go:172-191 | the response is the stored operation of that id, or not-found |
| OperationHandlers.CreateOperationRequest | services/go/operation-svc/endpoints/operation_handlers.go:200-229 | creating needs create-operation and a valid body |
| OperationHandlers.UpdateOperationRequest | services/go/operation-svc/endpoints/operation_handlers.go:238-279 | updating needs update-operation, a well-formed id, a body with the same id and a valid operation |
| OperationHandlers.UpperCasePathIsSameOperation | services/go/operation-svc/endpoints/operation_handlers.go:257-262 | ids are compared after parsing, so a path id in upper case matches the body's id |
| OperationHandlers.UpdateThenGet | services/go/operation-svc/endpoints/operation_handlers.go:238-279 | after an update the operation reads back as updated |
| OperationHandlers.GetMembersRequest | services/go/operation-svc/endpoints/operation_handlers.go:289-314 | reading members needs view-operation-members and a well-formed id |
| OperationHandlers.UpdateMembersRequest | services/go/operation-svc/endpoints/operation_handlers.go:324-354 | updating members needs update-operation-members, a well-formed id and a body |
| OperationHandlers.MembersPermissionsAreIndependent | services/go/operation-svc/endpoints/operation_handlers.go:289-354 | a client may update members without being allowed to view them |
| OpenIntelDeliveries.CreateActiveIntelDelivery | services/go/open-intel-delivery-notifier-svc/store/intel_delivery.go:106-118 | the delivery is appended; nothing else changes |
| OpenIntelDeliveries.DeleteActiveIntelDeliveryById | services/go/open-intel-delivery-notifier-svc/store/intel_delivery.go:122-136 | deleting succeeds iff the delivery exists, else not-found; exactly that delivery is removed |
| OpenIntelDeliveries.CreateActiveIntelDeliveryAttempt | services/go/open-intel-delivery-notifier-svc/store/intel_delivery.go:139-152 | the attempt is appended and its delivery has an active attempt |
| OpenIntelDeliveries.DeleteActiveIntelDeliveryAttemptById | services/go/open-intel-delivery-notifier-svc/store/intel_delivery.go:156-170 | deleting succeeds iff the attempt exists, else not-found; exactly that attempt is removed |
| OpenIntelDeliveries.CreateThenDeleteAttempt | services/go/open-intel-delivery-notifier-svc/store/intel_delivery.go:139-170 | creating an attempt and deleting it leaves the same attempts |
| OpenIntelDeliveries.IntelOperationByDelivery | services/go/open-intel-delivery-notifier-svc/store/intel_delivery.go:80-103 | found iff the delivery exists with stored intel, and then the intel's operation; otherwise not-found |
| OpenIntelDeliveries.IntelOperationByDeliveryAttempt | services/go/open-intel-delivery-notifier-svc/store/intel_delivery.go:49-74 | found iff the attempt exists and its delivery's operation is found, and then that operation |
| OpenIntelDeliveries.IsAutoIntelDeliveryEnabledForEntry | services/go/open-intel-delivery-notifier-svc/store/intel_delivery.go:174-187 | true iff the entry is marked for auto-delivery |
| OpenIntelDeliveries.SetAutoIntelDeliveryEnabledForEntryAsWritten | services/go/open-intel-delivery-notifier-svc/store/intel_delivery.go:191-217 | as written the flag is flipped whatever value is asked for |
| OpenIntelDeliveries.EnablingTwiceDisablesAsWritten | services/go/open-intel-delivery-notifier-svc/store/intel_delivery.go:191-217 | enabling an entry that is already enabled disables it |
| OpenIntelDeliveries.SetAutoIntelDeliveryEnabledForEntry | services/go/open-intel-delivery-notifier-svc/store/intel_delivery.go:191-217 | afterwards the flag is the value asked for; no other entry changes |
| OpenIntelDeliveries.SetAutoIsIdempotent | services/go/open-intel-delivery-notifier-svc/store/intel_delivery.go:191-217 | setting twice is setting once; as written agrees with it exactly when the flag changes |
| OpenIntelDeliveries.OpenIntelDeliveriesByOperation | services/go/open-intel-delivery-notifier-svc/controller/controller.go:61-64 | exactly the deliveries whose intel is of the operation, with no active attempt and a recipient without auto-delivery, each with its intel |
| OpenIntelDeliveries.AutoDeliveryClosesDeliveries | services/go/open-intel-delivery-notifier-svc/controller/controller.go:61-64 | enabling auto-delivery for an entry removes its deliveries from the open ones; disabling brings back those otherwise open |
| OpenIntelDeliveries.AttemptClosesDelivery | services/go/open-intel-delivery-notifier-svc/controller/controller.go:61-64 | a delivery with an active attempt is not open |
| OpenIntelDeliveries.IntelOperationsByActiveIntelDeliveryRecipient | services/go/open-intel-delivery-notifier-svc/controller/controller.go:74-77 | exactly the operations of intel delivered to the entry, without duplicates |
| OpenIntelEventHandlers.HandleMessage | services/go/open-intel-delivery-notifier-svc/eventport/handlers.go:49-63 | a consumed event that does not decode is an internal error, one that decodes leads to at most one call; everything else is ignored |
| OpenIntelEventHandlers.UnknownEventsAreIgnored | services/go/open-intel-delivery-notifier-svc/eventport/handlers.go:49-63 | messages on other topics or of unknown types call nothing and are no error |
| OpenIntelEventHandlers.CreatedDeliveryKeptIffActive | services/go/open-intel-delivery-notifier-svc/eventport/handlers.go:257-277 | a created delivery is stored iff it is active |
| OpenIntelEventHandlers.CreatedAttemptKeptIffActive | services/go/open-intel-delivery-notifier-svc/eventport/handlers.go:281-299 | a created attempt is stored iff it is active |
| OpenIntelEventHandlers.StatusUpdatesDeleteIffInactive | services/go/open-intel-delivery-notifier-svc/eventport/handlers.go:309-341 | a status update deletes the attempt or delivery iff it became inactive |
| OpenIntelEventHandlers.MalformedPayloadIsInternal | services/go/open-intel-delivery-notifier-svc/eventport/handlers.go:49-63 | a consumed event whose value does not decode is an internal error |
| OpenIntelEventHandlers.EndedAttemptReopensDelivery | services/go/open-intel-delivery-notifier-svc/eventport/handlers.go:309-323 | an attempt that ends is deleted, so its delivery is open again when otherwise open |
| ChannelMirror.ChannelsOfType | services/go/radio-delivery-svc/eventport/handlers.go:144-162 | the channels of the type, in order, field for field; an internal error iff one of them names another entry |
| ChannelMirror.ForeignChannelsAreNotChecked | services/go/radio-delivery-svc/eventport/handlers.go:146-148 | a channel of another type is skipped before its entry is looked at |
| ChannelMirror.MirroredChannelsBelongToEntry | services/go/in-app-notifier-svc/eventport/handlers.go:134-167 | every channel taken over belongs to the event's entry |
| IntelligenceStore.Recipients | services/go/intelligence-svc/store/intel.go:48-55 | the recipients of the assignments, in order |
| IntelligenceStore.Validate | services/go/intelligence-svc/store/intel.go:39-57 | the type-and-content report, followed by one error per repeated recipient; a failing type check fails the validation |
| IntelligenceStore.RepeatMessages | services/go/intelligence-svc/store/intel.go:48-55 | one error per assignment whose recipient already occurred earlier, in order |
| IntelligenceStore.ValidateReportsDuplicates | services/go/intelligence-svc/store/intel.go:48-55 | as many duplicate errors as assignments beyond the distinct recipients; none iff all recipients differ |
| IntelligenceStore.AssignmentsByIntel | services/go/intelligence-svc/store/intel.go:225-252 | exactly the stored assignments of the intel |
| IntelligenceStore.IntelByID | services/go/intelligence-svc/store/intel.go:255-301 | found iff stored, else not-found; the intel comes with exactly its assignments |
| IntelligenceStore.IntelAssignmentByIDAsWritten | services/go/intelligence-svc/store/intel.go:198-223 | as written the assignment is found but its id is left at the nil id |
| IntelligenceStore.IntelAssignmentByID | services/go/intelligence-svc/store/intel.go:198-223 | found iff stored, else not-found; the result is the stored assignment with its id |
| IntelligenceStore.AssignmentIdIsLostAsWritten | services/go/intelligence-svc/store/intel.go:216-218 | every assignment read back by id as written carries a different id than it was stored under |
| IntelligenceStore.NewAssignments | services/go/intelligence-svc/store/intel.go:165-195 | one assignment per requested recipient, in order, with its new id and the new intel |
| IntelligenceStore.AfterCreateIsValid | services/go/intelligence-svc/store/intel.go:95-143 | creating intel keeps the store consistent |
| IntelligenceStore.AfterCreateAssignments | services/go/intelligence-svc/store/intel.go:95-143 | after creating, the new intel has exactly the new assignments and every other intel keeps its own |
| IntelligenceStore.Create | services/go/intelligence-svc/store/intel.go:95-143 | the created intel has the new id and time, is valid, has the new assignments and reads back by id unchanged |
| IntelligenceStore.InvalidateIntelByID | services/go/intelligence-svc/store/intel.go:147-162 | invalidating succeeds iff the intel exists, else not-found; only its valid flag changes |
| IntelligenceStore.IntelByIDFindsRow | services/go/intelligence-svc/store/intel.go:255-301 | each stored intel reads back with its own assignments |
| IntelligenceStore.InvalidateThenByID | services/go/intelligence-svc/store/intel.go:147-162 | after invalidating, the intel reads back invalid with the same assignments |
| IntelligenceHandlers.PublicIntelTypeFromStore | services/go/intelligence-svc/endpoints/intel_handlers.go:28-35 | exactly the plaintext type converts; any other stored type is an internal error |
| IntelligenceHandlers.StoreIntelTypeFromPublic | services/go/intelligence-svc/endpoints/intel_handlers.go:39-46 | exactly the plaintext type converts; any other public type is bad-input |
| IntelligenceHandlers.IntelTypeMapsAreInverse | services/go/intelligence-svc/endpoints/intel_handlers.go:28-46 | the two type conversions are mutual inverses where defined |
| IntelligenceHandlers.StoreIntelAssignmentsFromPublic | services/go/intelligence-svc/endpoints/intel_handlers.go:81-91 | each public assignment becomes a stored one of the intel, in order |
| IntelligenceHandlers.PublicIntelAssignmentsFromStore | services/go/intelligence-svc/endpoints/intel_handlers.go:129-138 | each stored assignment becomes a public one, in order |
| IntelligenceHandlers.AssignmentConversionsRoundTrip | services/go/intelligence-svc/endpoints/intel_handlers.go:81-138 | converting assignments either way and back gives them back |
| IntelligenceHandlers.StoreCreateIntelFromPublic | services/go/intelligence-svc/endpoints/intel_handlers.go:64-77 | a create request converts iff its type is known, carrying creator, operation, content, importance and assignments |
| IntelligenceHandlers.PublicIntelFromStore | services/go/intelligence-svc/endpoints/intel_handlers.go:108-125 | stored intel converts iff its type is known, field for field |
| IntelligenceHandlers.CreatedIntelReadsBack | services/go/intelligence-svc/endpoints/intel_handlers.go:146-182 | intel created through the endpoint reads back in public form with the new id, the creator and the request's content |
| IntelligenceHandlers.CreateIntelRequest | services/go/intelligence-svc/endpoints/intel_handlers.go:146-182 | create-intel permission, a body, a known type and a clean validation are needed; the created intel is the request's |
| IntelligenceHandlers.DuplicateRecipientIsRefused | services/go/intelligence-svc/store/intel.go:48-55 | a request refused only for its validation errors while the type check passes names some recipient twice |
| IntelligenceHandlers.CreatedResponseOf | services/go/intelligence-svc/endpoints/intel_handlers.go:174-180 | the response is 200 with the created intel in public form iff it converts, else 200 without a body |
| IntelligenceHandlers.InvalidateIntelRequest | services/go/intelligence-svc/endpoints/intel_handlers.go:191-211 | invalidating needs invalidate-intel and a well-formed id |
| IntelligenceHandlers.GetIntelByIDRequest | services/go/intelligence-svc/endpoints/intel_handlers.go:219-254 | reading intel needs authentication and a well-formed id, and is limited to intel assigned to the caller |
| IntelligenceHandlers.ViewAnyLiftsOnlyTheLimit | services/go/intelligence-svc/endpoints/intel_handlers.go:231-238 | the view-any-intel permission removes the assignment limit and changes nothing else |
| InAppDeliveries.CreateAcceptedIntelDeliveryAttempt | services/go/in-app-notifier-svc/store/intel_delivery.go:45-67 | the attempt is appended; nothing else changes |
| InAppDeliveries.UpdateAcceptedIntelDeliveryAttemptStatus | services/go/in-app-notifier-svc/store/intel_delivery.go:85-102 | updating succeeds iff an attempt has the id, else not-found; only its active flag, status time and note change |
| InAppDeliveries.CreateIntelNotificationHistoryEntry | services/go/in-app-notifier-svc/store/intel_delivery.go:106-119 | afterwards a notification is recorded for the attempt, and every earlier record remains |
| InAppDeliveries.OldestPendingAttemptToNotifyByUser | services/go/in-app-notifier-svc/store/intel_delivery.go:143-173 | the earliest-created active attempt of the user without any notification; none iff there is none |
| InAppDeliveries.HistoryEndsPending | services/go/in-app-notifier-svc/store/intel_delivery.go:106-173 | once a notification is recorded, the attempt is never again the next to notify of |
| InAppDeliveries.InactiveEndsPending | services/go/in-app-notifier-svc/store/intel_delivery.go:85-173 | an attempt that became inactive is never the next to notify of |
| InAppDeliveries.OutgoingNotificationByAttempt | services/go/in-app-notifier-svc/store/intel_delivery.go:181-262 | not-found unless an active attempt with the id has no notification; otherwise its intel, channel, creator and, iff the attempt has a user, the recipient |
| InAppDeliveries.HistoryEndsNotification | services/go/in-app-notifier-svc/store/intel_delivery.go:106-262 | once a notification is recorded for an attempt, none is assembled for it again |
| InAppEventHandlers.HandleMessage | services/go/in-app-notifier-svc/eventport/handlers.go:39-51 | a consumed event that does not decode is an internal error; one that decodes leads to its call, with an attempt's recipient read as written or corrected; everything else is ignored |
| InAppEventHandlers.UnknownEventsAreIgnored | services/go/in-app-notifier-svc/eventport/handlers.go:39-51 | messages on other topics or of unknown types call nothing and are no error |
| InAppEventHandlers.AcceptedAttemptAsWritten | services/go/in-app-notifier-svc/eventport/handlers.go:182-214 | as written the recipient is read from the event's assignment object |
| InAppEventHandlers.RecipientIsLostAsWritten | services/go/in-app-notifier-svc/eventport/handlers.go:190 | with the empty assignment object the logistics service sends, the recipient becomes the nil id instead of the delivery's, so the as-written and corrected handlers make different calls |
| InAppEventHandlers.AcceptedAttemptOf | services/go/in-app-notifier-svc/eventport/handlers.go:182-214 | the accepted attempt carries the event's fields with the delivery's recipient, not yet accepted |
| InAppEventHandlers.AttemptFor | services/go/in-app-notifier-svc/eventport/handlers.go:182-214 | the recorded attempt keeps the event's attempt and delivery ids; its recipient is the assignment object's as written and the delivery's when corrected |
| InAppEventHandlers.IntelToDeliverOf | services/go/in-app-notifier-svc/eventport/handlers.go:182-214 | the intel to deliver carries the event's intel under the attempt's id |
| InAppEventHandlers.ChannelsUpdateKeepsInAppChannels | services/go/in-app-notifier-svc/eventport/handlers.go:134-167 | a channels update keeps exactly the in-app channels in order, and fails iff one names another entry |
| InAppEventHandlers.AttemptIsSplit | services/go/in-app-notifier-svc/eventport/handlers.go:182-214 | an attempt event becomes an accepted attempt and the intel to deliver, both under the attempt's id; as written the attempt is assigned to the assignment object's recipient or the nil id, corrected to the delivery's recipient |
| InAppEventHandlers.StatusUpdateIsCopied | services/go/in-app-notifier-svc/eventport/handlers.go:218-234 | a status update is copied field for field, whatever the status code |
| InAppEventHandlers.EndedAttemptIsNotPending | services/go/in-app-notifier-svc/eventport/handlers.go:218-234 | after an event saying an attempt ended it is no longer pending for any user |
| RadioEventHandlers.HandleMessage | services/go/radio-delivery-svc/eventport/handlers.go:41-55 | a consumed event that does not decode is an internal error; one that decodes leads to its call; everything else is ignored |
| RadioEventHandlers.UnknownEventsAreIgnored | services/go/radio-delivery-svc/eventport/handlers.go:41-55 | messages on other topics or of unknown types call nothing and are no error |
| RadioEventHandlers.AcceptedAttemptOf | services/go/radio-delivery-svc/eventport/handlers.go:186-212 | the accepted attempt carries the event's fields with the delivery's recipient, not yet accepted |
| RadioEventHandlers.ChannelsUpdateKeepsRadioChannels | services/go/radio-delivery-svc/eventport/handlers.go:138-171 | a channels update keeps exactly the radio channels in order, and fails iff one names another entry |
| RadioEventHandlers.StatusUpdateIsCopied | services/go/radio-delivery-svc/eventport/handlers.go:216-232 | a status update is copied field for field, whatever the status code |
| RadioEventHandlers.AttemptIsAccepted | services/go/radio-delivery-svc/eventport/handlers.go:186-212 | an attempt event is accepted, assigned to the delivery's recipient |

## Left out

- Databases, transactions and row locks: every store is an immutable record of its tables. `FOR UPDATE` / `SKIP LOCKED` locking, transactions with commit and rollback, SQL text and row scanning are not modelled. A lock-or-skip query is modelled as the plain query.
- Pagination and result order: listings are the filtered rows. Where the database leaves the order open, rows are in table order. Page limits, offsets and ordering parameters are not modelled.
- Concurrency: the following are not modelled, because their point is scheduling, not data:
  - the worker fan-out of the outbox pump and of the connector;
  - the open-intel notify hub and its watchers;
  - the open-intel WebSocket subscriptions;
  - the WebSocket hub's routing between client and channels.
- `connectChannels` in the WebSocket hub: the concurrent dial with close-all-on-failure is not modelled. `WsHub.ServeDials` states only which channels are dialled and with which headers.
- Kafka, Meilisearch and HTTP clients: their inputs and outputs are values. These include a fetched message, a write failure, the ids a search returns and a request's decoded body.
- JSON: encoding and decoding are a partial bijection on records, with an explicit decode-failure case. A payload of the wrong variant for its event type is a decode failure. A nil outbound value is sent as JSON null.
- Passwords: `auth.HashPassword` is outside the model. Its outcome, a hash or a failure, is an input of `UserHandlers.UpdatePassRequest` and `UserHandlers.CreateUserRequest`.
- UUIDs: ids are canonical lower-case UUID text. New ids are inputs. Case folding is limited to ASCII, as in the header names the WebSocket hub compares.
- Clock and randomness: `time.Now` is an input. The random segment choice of the inbox is an input number reduced modulo the number of candidates.
- Timers: the cooldown waits are returned as values, not slept.
- Floating point: the minimum-importance filter only compares importances, so importance is an integer.
- Topic names: the names of the event topics that no file of this model spells out are assumed; only their distinctness is used.
- Database constraints: uniqueness is not modelled. One foreign-key cascade is assumed; `Groups.DeleteGroupByID` below names it. Text ordering is by code point.
- The following operations are outside this model; where another operation depends on one, its result is an input:
  - the intel search text generation (`genSearchText`);
  - the intel type-and-content validation (`validateCreateIntelTypeAndContent` and the `entityvalidation` package). Its report is an input.
  - `UsersWithDeliveriesByIntel`, which is defined here from the deliveries and the address book.
  - the logistics auto-delivery store and notifier;
  - the cancel-delivery controller call behind `handleCancelIntelDeliveryByID`;
  - the insertion of search actions;
  - the operation-member store (`operation_members.go`) beyond the members table;
  - the open-intel and in-app stores for users, intel and operations, apart from what the modelled queries read;
  - the intelligence controller's application of the assignment limit;
  - the intelligence event consumer, which only forwards.
- Rebuild handlers: the search-rebuild endpoints and controller calls only trigger a rebuild, so they are not modelled.
- The public user view of the operation-members endpoint is not modelled.
- The declaration of the intelligence store's type constant: its value is assumed to equal the public `plaintext-message` type.
- `OperationHandlers.GetOperationRequest` performs no membership check, because the handler performs none.
- `IntelDeliveryController.HandleTimedOutDeliveryAttempts`: the note stored on a timed-out attempt is "delivery attempt timed out". The service appends the channel's timeout, as "(<timeout> from channel config)". Reading the channel for that text is not modelled, so its error path is left out as well, and the model never fails here.
- `IntelDeliveryController.TimeoutClosesExactlyTimedOutActive`: states the note without the channel-timeout suffix, for the reason given for `HandleTimedOutDeliveryAttempts`.
- `AddressBookHandlers.UpdateEntryRequest`: the corrected check. It refuses an update by a client without update-any that would make the entry global. The handler as written accepts this (`UpdateEntryRequestAsWritten`). Handing the entry to another user is accepted in both readings. See the finding for address_book_handlers.go:296-308.
- `AddressBookHandlers.UpdateEntry`: goes through the corrected check, so a client without update-any cannot make its entry global. The handler as written can (`UpdateEntryAsWritten`).
- `AddressBookHandlers.UpdateKeepsEntriesOfOthers`: holds for the corrected check. It promises that entries of others stay untouched and no global entry appears. It does not promise that an updated entry stays the client's own: handing an entry to another user is allowed. As written, a client can also make its own entry global (`UpdateMakesGlobalEntryAsWritten`).
- `IntelDeliveryController.MarkIntelDeliveryAndAttemptAsDelivered`: confirmation uses the corrected list of active attempts. See finding 1.
- `IntelDeliveryController.MarkIntelDeliveryAttemptAsDelivered`, `IntelDeliveryController.MarkIntelDeliveryAsDelivered`: both go through the corrected confirmation, so they close only the attempts that are still active. See finding 1.
- `IntelDeliveryController.ScheduleDeliveriesForIntel`: looks after each new delivery with the corrected list of active attempts. A new delivery has no attempt yet, so both readings agree here.
- `AddressBookHandlers.GetAllEntries`: lists with the corrected operation filter, which keeps the entries of the operation and the global ones. See finding 4.
- `OperationHandlers.SearchAndListAdmitTheSameOperations`: relates the listing to the corrected search filter, which needs an operation to be ongoing. See finding 8.
- `Channels`: the phone-call operator keeps one detail row per channel, and a missing row is not-found. The forward-to-user and forward-to-group operators keep one row per target. The direct, email, in-app and radio operators are not part of this model. They are assumed to keep one detail row per channel, as the phone-call operator does.
- Groups.DeleteGroupByID: the code deletes only the `groups` row. The member rows of the group are removed on the assumption that the `members` table references `groups` with ON DELETE CASCADE. The schema that would declare this is not part of this model.
- `Groups.Groups`: the database order of the groups is the `order` parameter, and the joined member rows of `Groups.GroupsAsWritten` are the `rows` parameter. Paging and sorting are not modelled.
- `Common.ParseUuid`: accepts only the hyphenated 36-character form. `uuid.FromString` also accepts the 32-digit form without hyphens, the braced form and the `urn:uuid:` prefix; such ids are rejected as bad input here.
- `Common.ParseInt`: has no upper or lower bound. `strconv.Atoi` also fails with a range error for values outside 64 bits.
- `Json.StructFields`, `Json.StringField`, `Json.IdListField`: keys are matched exactly. `encoding/json` also matches a struct field's key case-insensitively.
- `Search.Holds`: the filter strings `attr = null` and `attr != null` are read as "the attribute is null or absent" and "the attribute is present and not null", the meaning of the filter language's `IS NULL` and `NOT NULL`. This is an assumption: the search engine is outside this model.
- `RadioDelivery.SelectNext`: ties between equally important deliveries keep the first in table order.
- `LogisticsEventHandlers.HandleMessage`: its contract states that each decodable consumed event leads to one call. Which call each event makes is stated by the lemmas next to it, not by the function's own contract.
- `Users.UserByUsername`: states that some user with the username is returned, not which one, because the table does not make usernames unique here.

## Findings

| source | as written | input that shows it | evidently intended | confidence | as-written member | corrected member |
|---|---|---|---|---|---|---|
| services/go/logistics-svc/store/intel_delivery.go:418-432 | `ActiveIntelDeliveryAttemptsByDelivery` builds the list of active attempts, then returns the unfiltered list | a delivery whose only attempt has finished and is inactive: the attempt is still reported, so the delivery never gets another attempt | return only the active attempts | high, not executed | IntelDeliveries.ActiveAttemptsAsWrittenReportsInactive, IntelDeliveryController.AsWrittenNeverRetries, IntelDeliveryController.AsWrittenRefusesAfterAnyAttempt | IntelDeliveries.ActiveIntelDeliveryAttemptsByDelivery, IntelDeliveryController.CorrectedRetriesAfterTimeout, IntelDeliveryController.CorrectedAcceptsAfterFinishedAttempts, IntelDeliveryController.CorrectedFailureMovesOn |
| services/go/logistics-svc/controller/intel_delivery.go:510-517 | the confirming user's id is compared with the delivery's recipient, which is an address-book entry id | the owner of the recipient entry confirms a delivery to that entry and is refused as forbidden | compare with the user of the recipient entry | medium, not executed | IntelDeliveryController.OwnerIsRefusedAsWritten | IntelDeliveryController.MarkIntelDeliveryAndAttemptAsDelivered |
| services/go/shared/search/search.go:374-399 | both `shouldUpdate` helpers end in `return true`, so equal settings count as changed | current settings equal to the wanted ones: the searchable and distinct attributes are sent again | unchanged settings are left out | high, not executed | Search.UnchangedSettingsAreResentAsWritten | Search.RemoveUnchanged, Search.RemoveUnchangedIsSound |
| services/go/shared/search/search.go:400-425 | the synonyms comparison asks the list comparison, which answers true for any new list, so it returns at the first new key | current synonyms equal to a non-empty wanted map: they are sent again | unchanged synonyms are left out | medium, not executed; `genMSSettings` never sets synonyms | Search.UnchangedSynonymsAreResentAsWritten | Search.RemoveUnchanged |
| services/go/logistics-svc/store/forward_to_user_channels.go:96-123 | the forward reads select every column of the target table and scan each row into one id, so any target row is a scan error (same in forward_to_group_channels.go:94-119) | an entry with one forward-to-user channel to one user: listing the entry's channels is an internal error | the channel is listed with its target | high, not executed | Channels.ForwardListingFailsAsWritten, Channels.CreatedForwardChannelUnreadableAsWritten | Channels.GetDetails, Channels.CreateThenRead |
| services/go/logistics-svc/store/address_book.go:234-237 | the operation filter is the AND of `operation = X` and `operation IS NULL`, because the closing parenthesis of the OR comes too early | any listing filtered by operation: a global entry and an entry of that operation are both dropped | entries of the operation or global ones | high, not executed | AddressBook.ForOperationListIsEmptyAsWritten, AddressBook.ForOperationListDropsEntriesAsWritten | AddressBook.Entries, AddressBook.SearchAgreesWithList |
| services/go/logistics-svc/store/address_book.go:533-537 | the search's visible-by filter only accepts documents carrying the `visible_by` attribute, which only entries with a user have | a global entry, which the listing with the same visible-by user returns, is not found by the search | global entries stay visible, as in the listing | high, not executed | AddressBook.SearchHidesUserlessEntriesAsWritten | AddressBook.SearchFilter, AddressBook.SearchAgreesWithList |
| services/go/logistics-svc/endpoints/address_book_handlers.go:296-308 | for a client without update-any, only the stored entry's owner is checked, not the owner named in the update | a client updates its own entry with no user and so makes it global | without update-any, the updated entry keeps a user, as a created one must | low, not executed; the handler's test at address_book_handlers_test.go:785-800 expects a client without permissions to hand its entry to another user, so only the global case is corrected | AddressBookHandlers.UpdateMakesGlobalEntryAsWritten | AddressBookHandlers.UpdateEntry, AddressBookHandlers.UpdateKeepsEntriesOfOthers |
| services/go/user-svc/store/users.go:193-195 | `qb.Where(...)` returns a new query that is discarded, so the active-only filter has no effect | one inactive user, default filters: the user is listed | inactive users are listed only on request | high, not executed | Users.InactiveUserListedAsWritten, UserHandlers.DefaultListingAsWrittenShowsInactive | Users.ListUsers, UserHandlers.DefaultListingIsActiveOnly |
| services/go/operation-svc/store/operations.go:284-289 | the ongoing filter is one group of alternatives, start ≤ now OR end ≥ now | start 0, end 5, now 10: the ended operation is found | operations that are ongoing, as in the listing | high, not executed | Operations.EndedOperationFoundAsWritten | Operations.SearchFilter, Operations.SearchAgreesWithList |
| services/go/open-intel-delivery-notifier-svc/store/intel_delivery.go:191-217 | the flag is flipped from its stored value, whatever value is requested | enabling an entry that is already enabled disables it | set the flag to the requested value | high, not executed | OpenIntelDeliveries.EnablingTwiceDisablesAsWritten | OpenIntelDeliveries.SetAutoIntelDeliveryEnabledForEntry, OpenIntelDeliveries.SetAutoIsIdempotent |
| services/go/in-app-notifier-svc/eventport/handlers.go:190 | the recipient of an accepted attempt is read from the event's assignment object, which the logistics notifier (services/go/logistics-svc/eventport/notifiers.go:527-567) never fills | any attempt event sent by the logistics service: the attempt is stored as assigned to the nil id | the delivery's recipient, as the radio-delivery service takes it | high, not executed | InAppEventHandlers.RecipientIsLostAsWritten, InAppEventHandlers.AttemptIsSplit | InAppEventHandlers.AcceptedAttemptOf, InAppEventHandlers.AttemptIsSplit |
| services/go/intelligence-svc/store/intel.go:214-218 | the row is scanned into `Intel`, `Intel`, `To`, so the assignment's `ID` is never set | any stored assignment read by id: it comes back with the nil id | scan into `ID`, `Intel`, `To` | high, not executed | IntelligenceStore.AssignmentIdIsLostAsWritten | IntelligenceStore.IntelAssignmentByID |
| services/go/group-svc/store/groups.go:237-329 | the listing selects `groups LEFT JOIN members` without DISTINCT, and the member loop attaches members at the last index recorded for a group id | one group with two members, listed without filters: it is returned twice, the first copy without members | each group once, with all its members | high, not executed | Groups.GroupsAsWrittenRepeatsGroups, Groups.GroupsAsWritten | Groups.Groups, Groups.AsWrittenLastCopiesAreTheListing |
