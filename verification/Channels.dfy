/** Channels of address-book entries in the logistics service
    (logistics-svc/store/channels.go): the supported channel types, the
    type-specific details, validation and the channel table operations. */
module Channels {
  import opened Common

  /** Store spellings of the channel types. */
  const TypeDirect: string := "direct"
  const TypeEmail: string := "email"
  const TypeForwardToGroup: string := "forward-to-group"
  const TypeForwardToUser: string := "forward-to-user"
  const TypeInAppNotification: string := "in-app-notification"
  const TypePhoneCall: string := "phone-call"
  const TypeRadio: string := "radio"

  /** `ChannelTypeSupplier.ChannelTypes`: the types with a channel operator. */
  const SupportedTypes: set<string> :=
    {TypeDirect, TypeEmail, TypeForwardToGroup, TypeForwardToUser, TypeInAppNotification, TypePhoneCall, TypeRadio}

  /** `Channel.Details`; `NoDetails` is the nil interface a metadata query
      leaves behind. */
  datatype ChannelDetails =
    | DirectDetails(info: string)
    | EmailDetails(email: string)
    | ForwardToGroupDetails(forwardToGroup: seq<Id>)
    | ForwardToUserDetails(forwardToUser: seq<Id>)
    | InAppNotificationDetails
    | PhoneCallDetails(phone: string)
    | RadioDetails(radioInfo: string)
    | NoDetails

  /** The channel type whose details variant `d` is. */
  function TypeOfDetails(d: ChannelDetails): (t: Option<string>)
    ensures t.Some? <==> !d.NoDetails?
    ensures t.Some? ==> t.value in SupportedTypes
  {
    match d
    case DirectDetails(_) => Some(TypeDirect)
    case EmailDetails(_) => Some(TypeEmail)
    case ForwardToGroupDetails(_) => Some(TypeForwardToGroup)
    case ForwardToUserDetails(_) => Some(TypeForwardToUser)
    case InAppNotificationDetails => Some(TypeInAppNotification)
    case PhoneCallDetails(_) => Some(TypePhoneCall)
    case RadioDetails(_) => Some(TypeRadio)
    case NoDetails => None
  }

  /** Distinct details variants belong to distinct types. */
  lemma TypeOfDetailsInjective(d1: ChannelDetails, d2: ChannelDetails)
    requires TypeOfDetails(d1).Some? && TypeOfDetails(d1) == TypeOfDetails(d2)
    ensures d1.DirectDetails? <==> d2.DirectDetails?
    ensures d1.EmailDetails? <==> d2.EmailDetails?
    ensures d1.ForwardToGroupDetails? <==> d2.ForwardToGroupDetails?
    ensures d1.ForwardToUserDetails? <==> d2.ForwardToUserDetails?
    ensures d1.InAppNotificationDetails? <==> d2.InAppNotificationDetails?
    ensures d1.PhoneCallDetails? <==> d2.PhoneCallDetails?
    ensures d1.RadioDetails? <==> d2.RadioDetails?
  {
  }

  /** `store.Channel`, including the active flag that the delivery queries
      read from the channel table. Importance bounds are integers. */
  datatype Channel = Channel(
    id: Id,
    entry: Id,
    labelText: string,
    channelType: string,
    priority: int,
    minImportance: int,
    details: ChannelDetails,
    timeout: Time,
    isActive: bool)

  /** Whether the details variant is the one the channel's type calls for. */
  predicate DetailsMatchType(c: Channel) {
    TypeOfDetails(c.details) == Some(c.channelType)
  }

  // ---------------------------------------------------------------------------
  // Validation

  const UnknownTypeError: string := "unknown channel type"
  const TimeoutError: string := "timeout must be greater zero"

  /** `Channel.Validate`, given the report of the details' own validation. */
  function Validate(c: Channel, detailsErrors: seq<string>): (errors: seq<string>)
    ensures |errors| > 0 <==> c.channelType !in SupportedTypes || |detailsErrors| > 0 || c.timeout <= 0
    ensures UnknownTypeError in errors <==> c.channelType !in SupportedTypes || UnknownTypeError in detailsErrors
    ensures TimeoutError in errors <==> c.timeout <= 0 || TimeoutError in detailsErrors
    ensures forall i :: 0 <= i < |detailsErrors| ==> detailsErrors[i] in errors
  {
    (if c.channelType !in SupportedTypes then [UnknownTypeError] else [])
      + detailsErrors
      + (if c.timeout <= 0 then [TimeoutError] else [])
  }

  // ---------------------------------------------------------------------------
  // The details tables of the channel operators

  /** One row of `forward_to_user_channel_entries` or
      `forward_to_group_channel_entries`: a channel and one user or group it
      forwards to. */
  datatype ForwardRow = ForwardRow(channel: Id, target: Id)

  /** The `channels` table in insertion order, without details; the details
      tables: the two forward tables, which hold any number of rows per
      channel, and the one-row-per-channel tables of the other types, keyed
      by type and channel; the existing address-book entries; and the types
      an operator is registered for. */
  datatype Store = Store(
    entries: set<Id>,
    rows: seq<Channel>,
    single: map<(string, Id), ChannelDetails>,
    forwardToUser: seq<ForwardRow>,
    forwardToGroup: seq<ForwardRow>,
    operators: set<string>)

  predicate IsForwardType(t: string) {
    t == TypeForwardToUser || t == TypeForwardToGroup
  }

  /** The targets a channel forwards to, in table order. */
  function Targets(rows: seq<ForwardRow>, channel: Id): (r: seq<Id>)
    ensures |r| <= |rows|
    ensures forall x :: x in r <==> ForwardRow(channel, x) in rows
  {
    if |rows| == 0 then []
    else
      assert forall x :: ForwardRow(channel, x) in rows <==> rows[0] == ForwardRow(channel, x) || ForwardRow(channel, x) in rows[1..];
      (if rows[0].channel == channel then [rows[0].target] else []) + Targets(rows[1..], channel)
  }

  lemma TargetsConcat(a: seq<ForwardRow>, b: seq<ForwardRow>, channel: Id)
    ensures Targets(a + b, channel) == Targets(a, channel) + Targets(b, channel)
  {
    if |a| > 0 {
      assert (a + b)[1..] == a[1..] + b;
      TargetsConcat(a[1..], b, channel);
    } else {
      assert a + b == b;
    }
  }

  /** The rows of every channel but `channel`. */
  function WithoutChannel(rows: seq<ForwardRow>, channel: Id): (r: seq<ForwardRow>)
    ensures Targets(r, channel) == []
    ensures forall c :: c != channel ==> Targets(r, c) == Targets(rows, c)
  {
    if |rows| == 0 then []
    else
      var rest := WithoutChannel(rows[1..], channel);
      if rows[0].channel == channel then rest
      else
        assert ([rows[0]] + rest)[1..] == rest;
        [rows[0]] + rest
  }

  /** The rows of a forward list. */
  function RowsFor(channel: Id, targets: seq<Id>): (r: seq<ForwardRow>)
    ensures Targets(r, channel) == targets
    ensures forall c :: c != channel ==> Targets(r, c) == []
  {
    if |targets| == 0 then []
    else
      var rest := RowsFor(channel, targets[1..]);
      assert ([ForwardRow(channel, targets[0])] + rest)[1..] == rest;
      [ForwardRow(channel, targets[0])] + rest
  }

  /** Whether the operator of type `t` holds detail rows for the channel. */
  predicate HasDetailRows(st: Store, t: string, channel: Id) {
    if t == TypeForwardToUser then |Targets(st.forwardToUser, channel)| > 0
    else if t == TypeForwardToGroup then |Targets(st.forwardToGroup, channel)| > 0
    else (t, channel) in st.single
  }

  /** `getChannelDetailsByChannel` of the operator for type `t`: a forward
      operator collects the channel's rows, possibly none; the others read
      their single row. */
  function GetDetails(st: Store, t: string, channel: Id): (r: Result<ChannelDetails>)
    ensures r.Ok? <==> IsForwardType(t) || (t, channel) in st.single
    ensures r.Err? ==> r.code == NotFound
    ensures IsForwardType(t) && !HasDetailRows(st, t, channel) ==>
      r == Ok(if t == TypeForwardToUser then ForwardToUserDetails([]) else ForwardToGroupDetails([]))
  {
    if t == TypeForwardToUser then Ok(ForwardToUserDetails(Targets(st.forwardToUser, channel)))
    else if t == TypeForwardToGroup then Ok(ForwardToGroupDetails(Targets(st.forwardToGroup, channel)))
    else if (t, channel) in st.single then Ok(st.single[(t, channel)])
    else Err(NotFound)
  }

  /** Whether details hold at least one forward target. */
  predicate HasTargets(d: ChannelDetails) {
    (d.ForwardToUserDetails? && |d.forwardToUser| > 0) || (d.ForwardToGroupDetails? && |d.forwardToGroup| > 0)
  }

  /** `getChannelDetailsByChannel` as the code is written: the forward
      operators select every column of their table, the channel and the
      target, and scan each row into the one target id; the first row is a
      scan error, reported as internal. A forward channel therefore reads
      only while it has no target rows. */
  function GetDetailsAsWritten(st: Store, t: string, channel: Id): (r: Result<ChannelDetails>)
    ensures IsForwardType(t) && HasDetailRows(st, t, channel) ==> r == Err(Internal)
    ensures r.Ok? <==> GetDetails(st, t, channel).Ok? && !(IsForwardType(t) && HasDetailRows(st, t, channel))
    ensures r.Ok? ==> r == GetDetails(st, t, channel)
    ensures r.Err? ==> (r.code == Internal <==> IsForwardType(t))
  {
    var read := GetDetails(st, t, channel);
    assert IsForwardType(t) ==> read.Ok? && (HasTargets(read.value) <==> HasDetailRows(st, t, channel));
    if IsForwardType(t) && read.Ok? && HasTargets(read.value) then Err(Internal) else read
  }

  /** Every channel other than `channel` reads the same details from both
      stores, and the channel table, entries and operators agree. */
  ghost predicate SameExceptDetailsOf(st: Store, st': Store, channel: Id) {
    && st'.rows == st.rows && st'.entries == st.entries && st'.operators == st.operators
    && forall t, c :: c != channel ==> GetDetails(st', t, c) == GetDetails(st, t, c)
  }

  /** `deleteDetailsByChannel`: removes the channel's detail rows, and is
      not-found when there are none. */
  function DeleteDetails(st: Store, t: string, channel: Id): (r: Result<Store>)
    ensures r.Ok? <==> HasDetailRows(st, t, channel)
    ensures r.Err? ==> r.code == NotFound
    ensures r.Ok? ==> !HasDetailRows(r.value, t, channel) && SameExceptDetailsOf(st, r.value, channel)
  {
    if !HasDetailRows(st, t, channel) then Err(NotFound)
    else if t == TypeForwardToUser then Ok(st.(forwardToUser := WithoutChannel(st.forwardToUser, channel)))
    else if t == TypeForwardToGroup then Ok(st.(forwardToGroup := WithoutChannel(st.forwardToGroup, channel)))
    else Ok(st.(single := st.single - {(t, channel)}))
  }

  /** The forward rows with the channel's rows replaced by `targets`. */
  function ReplaceTargets(rows: seq<ForwardRow>, channel: Id, targets: seq<Id>): (r: seq<ForwardRow>)
    ensures Targets(r, channel) == targets
    ensures forall c :: c != channel ==> Targets(r, c) == Targets(rows, c)
  {
    var kept := WithoutChannel(rows, channel);
    var added := RowsFor(channel, targets);
    forall c ensures Targets(kept + added, c) == Targets(kept, c) + Targets(added, c) {
      TargetsConcat(kept, added, c);
    }
    assert forall c :: c != channel ==> Targets(kept, c) + Targets(added, c) == Targets(kept, c) + [];
    kept + added
  }

  /** `setChannelDetailsByChannel`: details of another type's variant are an
      internal error; otherwise the channel's old rows are replaced by the
      rows of the new details, which an empty forward list leaves empty. */
  function SetDetails(st: Store, t: string, channel: Id, d: ChannelDetails): (r: Result<Store>)
    ensures r.Ok? <==> TypeOfDetails(d) == Some(t)
    ensures r.Err? ==> r.code == Internal
    ensures r.Ok? ==> GetDetails(r.value, t, channel) == Ok(d) && SameExceptDetailsOf(st, r.value, channel)
  {
    if TypeOfDetails(d) != Some(t) then Err(Internal)
    else if d.ForwardToUserDetails? then
      Ok(st.(forwardToUser := ReplaceTargets(st.forwardToUser, channel, d.forwardToUser)))
    else if d.ForwardToGroupDetails? then
      Ok(st.(forwardToGroup := ReplaceTargets(st.forwardToGroup, channel, d.forwardToGroup)))
    else Ok(st.(single := st.single[(t, channel) := d]))
  }

  /** The per-channel step of `channelDetailsForChannels`: the operator of
      the channel's type, or an internal error without one, reads the
      channel's details; `asWritten` chooses the forward operators' read as
      written over the corrected one. */
  function ChannelDetailsOf(st: Store, c: Channel, asWritten: bool): (r: Result<ChannelDetails>)
    ensures r.Ok? <==>
      && c.channelType in st.operators
      && if IsForwardType(c.channelType) then !(asWritten && HasDetailRows(st, c.channelType, c.id))
         else (c.channelType, c.id) in st.single
    ensures r.Err? ==> (r.code == NotFound <==> c.channelType in st.operators && !IsForwardType(c.channelType))
    ensures r.Err? ==> r.code == NotFound || r.code == Internal
    ensures r.Ok? ==> r == GetDetails(st, c.channelType, c.id)
  {
    if c.channelType !in st.operators then Err(Internal)
    else if asWritten then GetDetailsAsWritten(st, c.channelType, c.id)
    else GetDetails(st, c.channelType, c.id)
  }

  /** The channel carrying the details its operator reads, or left as it
      is when they cannot be read. */
  function Attached(st: Store, c: Channel, asWritten: bool): (a: Channel)
    ensures a.id == c.id && a.entry == c.entry && a.channelType == c.channelType
    ensures ChannelDetailsOf(st, c, asWritten).Ok? ==> a.details == ChannelDetailsOf(st, c, asWritten).value
  {
    match ChannelDetailsOf(st, c, asWritten)
    case Ok(d) => c.(details := d)
    case Err(_) => c
  }

  // ---------------------------------------------------------------------------
  // The channel table

  function RowsOfEntry(rows: seq<Channel>, entry: Id): (r: seq<Channel>)
    ensures |r| <= |rows|
    ensures forall i :: 0 <= i < |r| ==> r[i] in rows && r[i].entry == entry
    ensures forall i :: 0 <= i < |rows| && rows[i].entry == entry ==> rows[i] in r
  {
    Filter((c: Channel) => c.entry == entry, rows)
  }

  /** `channelDetailsForChannels` followed by the attaching loop of
      `ChannelsByAddressBookEntry`: every channel gets its details, or the
      retrieval fails with the error of the first channel whose details
      cannot be read. */
  function AttachDetails(st: Store, cs: seq<Channel>, asWritten: bool): (r: Result<seq<Channel>>)
    ensures r.Ok? <==> forall i :: 0 <= i < |cs| ==> ChannelDetailsOf(st, cs[i], asWritten).Ok?
    ensures r.Err? ==> exists i :: 0 <= i < |cs| && ChannelDetailsOf(st, cs[i], asWritten) == Err(r.code)
    ensures r.Ok? ==> |r.value| == |cs|
    ensures r.Ok? ==> forall i :: 0 <= i < |cs| ==> r.value[i] == Attached(st, cs[i], asWritten)
  {
    if |cs| == 0 then Ok([])
    else if ChannelDetailsOf(st, cs[0], asWritten).Err? then Err(ChannelDetailsOf(st, cs[0], asWritten).code)
    else
      var rest :- AttachDetails(st, cs[1..], asWritten);
      Ok([Attached(st, cs[0], asWritten)] + rest)
  }

  /** `ChannelsByAddressBookEntry`: not-found for an unknown entry; otherwise
      the entry's channels in table order, each carrying its details, or the
      error of a channel whose details cannot be read. */
  function ChannelsByAddressBookEntry(st: Store, entry: Id, asWritten: bool): (r: Result<seq<Channel>>)
    ensures entry !in st.entries ==> r == Err(NotFound)
    ensures entry in st.entries ==>
      (r.Ok? <==> forall i :: 0 <= i < |st.rows| && st.rows[i].entry == entry ==> ChannelDetailsOf(st, st.rows[i], asWritten).Ok?)
    ensures entry in st.entries && r.Err? ==>
      exists i :: 0 <= i < |st.rows| && st.rows[i].entry == entry && ChannelDetailsOf(st, st.rows[i], asWritten) == Err(r.code)
    ensures r.Ok? ==> forall i :: 0 <= i < |r.value| ==>
      exists j :: 0 <= j < |st.rows| && st.rows[j].entry == entry && r.value[i] == Attached(st, st.rows[j], asWritten)
    ensures r.Ok? ==> forall i :: 0 <= i < |st.rows| && st.rows[i].entry == entry ==>
      Attached(st, st.rows[i], asWritten) in r.value
  {
    if entry !in st.entries then Err(NotFound)
    else
      var meta := RowsOfEntry(st.rows, entry);
      ListingSucceeds(st, entry, meta, asWritten);
      ListingFails(st, entry, meta, asWritten);
      ListingHoldsOnlyRows(st, entry, meta, asWritten);
      ListingHoldsRows(st, entry, meta, asWritten);
      AttachDetails(st, meta, asWritten)
  }

  /** The listing of an entry's rows succeeds exactly when each of its
      channels' details can be read. */
  lemma {:induction false} ListingSucceeds(st: Store, entry: Id, meta: seq<Channel>, asWritten: bool)
    requires meta == RowsOfEntry(st.rows, entry)
    ensures AttachDetails(st, meta, asWritten).Ok? <==>
      forall i :: 0 <= i < |st.rows| && st.rows[i].entry == entry ==> ChannelDetailsOf(st, st.rows[i], asWritten).Ok?
  {
    if forall i :: 0 <= i < |st.rows| && st.rows[i].entry == entry ==> ChannelDetailsOf(st, st.rows[i], asWritten).Ok? {
      forall k | 0 <= k < |meta| ensures ChannelDetailsOf(st, meta[k], asWritten).Ok? {
        assert meta[k] in st.rows;
      }
    }
  }

  /** A failed listing carries the error of one of the entry's channels. */
  lemma {:induction false} ListingFails(st: Store, entry: Id, meta: seq<Channel>, asWritten: bool)
    requires meta == RowsOfEntry(st.rows, entry)
    ensures var r := AttachDetails(st, meta, asWritten);
      r.Err? ==> exists i :: 0 <= i < |st.rows| && st.rows[i].entry == entry && ChannelDetailsOf(st, st.rows[i], asWritten) == Err(r.code)
  {
    var r := AttachDetails(st, meta, asWritten);
    if r.Err? {
      var k :| 0 <= k < |meta| && ChannelDetailsOf(st, meta[k], asWritten) == Err(r.code);
      assert meta[k] in st.rows;
    }
  }

  /** A successful listing holds only rows of the entry, with their
      details. */
  lemma {:induction false} ListingHoldsOnlyRows(st: Store, entry: Id, meta: seq<Channel>, asWritten: bool)
    requires meta == RowsOfEntry(st.rows, entry)
    ensures var r := AttachDetails(st, meta, asWritten);
      r.Ok? ==> forall i :: 0 <= i < |r.value| ==>
        exists j :: 0 <= j < |st.rows| && st.rows[j].entry == entry && r.value[i] == Attached(st, st.rows[j], asWritten)
  {
    var r := AttachDetails(st, meta, asWritten);
    if r.Ok? {
      forall i | 0 <= i < |r.value|
        ensures exists j :: 0 <= j < |st.rows| && st.rows[j].entry == entry && r.value[i] == Attached(st, st.rows[j], asWritten)
      {
        assert r.value[i] == Attached(st, meta[i], asWritten);
        assert meta[i] in st.rows;
      }
    }
  }

  /** A successful listing holds every row of the entry, with its details. */
  lemma {:induction false} ListingHoldsRows(st: Store, entry: Id, meta: seq<Channel>, asWritten: bool)
    requires meta == RowsOfEntry(st.rows, entry)
    ensures var r := AttachDetails(st, meta, asWritten);
      r.Ok? ==> forall i :: 0 <= i < |st.rows| && st.rows[i].entry == entry ==> Attached(st, st.rows[i], asWritten) in r.value
  {
    var r := AttachDetails(st, meta, asWritten);
    if r.Ok? {
      forall i | 0 <= i < |st.rows| && st.rows[i].entry == entry
        ensures Attached(st, st.rows[i], asWritten) in r.value
      {
        var k :| 0 <= k < |meta| && meta[k] == st.rows[i];
        assert r.value[k] == Attached(st, meta[k], asWritten);
      }
    }
  }

  predicate HasRow(rows: seq<Channel>, id: Id) {
    exists i :: 0 <= i < |rows| && rows[i].id == id
  }

  function RemoveRow(rows: seq<Channel>, id: Id): (r: seq<Channel>)
    ensures !HasRow(r, id)
    ensures forall i :: 0 <= i < |rows| && rows[i].id != id ==> rows[i] in r
    ensures forall i :: 0 <= i < |r| ==> r[i] in rows
  {
    Filter((c: Channel) => c.id != id, rows)
  }

  /** `DeleteChannelWithDetailsByID`: an unregistered type fails before
      anything is deleted; a channel without detail rows of the given type,
      or without a row of its own, is not-found. */
  function DeleteChannelWithDetailsByID(st: Store, id: Id, channelType: string): (r: Result<Store>)
    ensures channelType !in st.operators ==> r == Err(Internal)
    ensures r.Ok? <==> channelType in st.operators && HasDetailRows(st, channelType, id) && HasRow(st.rows, id)
    ensures channelType in st.operators && r.Err? ==> r.code == NotFound
    ensures r.Ok? ==> !HasRow(r.value.rows, id) && !HasDetailRows(r.value, channelType, id)
    ensures r.Ok? ==> forall c :: c in st.rows && c.id != id ==> c in r.value.rows
    ensures r.Ok? ==> forall c :: c in r.value.rows ==> c in st.rows
    ensures r.Ok? ==> SameExceptDetailsOf(st, r.value.(rows := st.rows), id)
  {
    if channelType !in st.operators then Err(Internal)
    else
      var cleared :- DeleteDetails(st, channelType, id);
      if !HasRow(st.rows, id) then Err(NotFound)
      else Ok(cleared.(rows := RemoveRow(st.rows, id)))
  }

  /** A channel row as the metadata queries read it, without details. */
  function Meta(c: Channel): Channel {
    c.(details := NoDetails)
  }

  /** `CreateChannelWithDetails`; the database assigns `newId`. A type without
      an operator, or details of another type's variant, are internal
      errors. */
  function CreateChannelWithDetails(st: Store, c: Channel, newId: Id): (r: Result<Store>)
    requires !HasRow(st.rows, newId)
    ensures r.Ok? <==> c.channelType in st.operators && TypeOfDetails(c.details) == Some(c.channelType)
    ensures r.Err? ==> r.code == Internal
    ensures r.Ok? ==> r.value.rows == st.rows + [Meta(c.(id := newId))]
    ensures r.Ok? ==> GetDetails(r.value, c.channelType, newId) == Ok(c.details)
    ensures r.Ok? ==> SameExceptDetailsOf(st, r.value.(rows := st.rows), newId)
  {
    if c.channelType !in st.operators then Err(Internal)
    else
      var withDetails :- SetDetails(st, c.channelType, newId, c.details);
      Ok(withDetails.(rows := st.rows + [Meta(c.(id := newId))]))
  }

  function ReplaceRow(rows: seq<Channel>, c: Channel): (r: seq<Channel>)
    ensures |r| == |rows|
    ensures forall i :: 0 <= i < |rows| ==> r[i] == if rows[i].id == c.id then c else rows[i]
  {
    Map((x: Channel) => if x.id == c.id then c else x, rows)
  }

  /** `UpdateChannelWithDetails`: an unregistered type, details of another
      type's variant and a channel without a row are internal errors. */
  function UpdateChannelWithDetails(st: Store, c: Channel): (r: Result<Store>)
    ensures r.Ok? <==> c.channelType in st.operators && TypeOfDetails(c.details) == Some(c.channelType) && HasRow(st.rows, c.id)
    ensures r.Err? ==> r.code == Internal
    ensures r.Ok? ==> GetDetails(r.value, c.channelType, c.id) == Ok(c.details)
    ensures r.Ok? ==> SameExceptDetailsOf(st, r.value.(rows := st.rows), c.id)
    ensures r.Ok? ==> |r.value.rows| == |st.rows|
    ensures r.Ok? ==> forall i :: 0 <= i < |st.rows| && st.rows[i].id != c.id ==> r.value.rows[i] == st.rows[i]
    ensures r.Ok? ==> forall i :: 0 <= i < |st.rows| && st.rows[i].id == c.id ==> r.value.rows[i] == Meta(c)
  {
    if c.channelType !in st.operators then Err(Internal)
    else
      var withDetails :- SetDetails(st, c.channelType, c.id, c.details);
      if !HasRow(st.rows, c.id) then Err(Internal)
      else Ok(withDetails.(rows := ReplaceRow(st.rows, Meta(c))))
  }

  /** The first row with the given id. */
  function FindRow(rows: seq<Channel>, id: Id): (r: Option<Channel>)
    ensures r.Some? <==> HasRow(rows, id)
    ensures r.Some? ==> r.value in rows && r.value.id == id
  {
    if |rows| == 0 then None
    else if rows[0].id == id then Some(rows[0])
    else
      assert HasRow(rows, id) ==> HasRow(rows[1..], id) by {
        if HasRow(rows, id) {
          var k :| 0 <= k < |rows| && rows[k].id == id;
          assert rows[1..][k - 1].id == id;
        }
      }
      FindRow(rows[1..], id)
  }

  /** `ChannelMetadataByID`: the row without details, not-found if absent. */
  function ChannelMetadataByID(st: Store, id: Id): (r: Result<Channel>)
    ensures r.Ok? <==> HasRow(st.rows, id)
    ensures r.Err? ==> r.code == NotFound
    ensures r.Ok? ==> r.value in st.rows && r.value.id == id
  {
    match FindRow(st.rows, id)
    case None => Err(NotFound)
    case Some(c) => Ok(c)
  }

  // ---------------------------------------------------------------------------
  // Reading back

  /** With the corrected forward read, a created channel is listed among
      its entry's channels, with the details it was created with, once the
      entry's other channels can be read. */
  lemma CreateThenRead(st: Store, c: Channel, newId: Id)
    requires !HasRow(st.rows, newId) && c.entry in st.entries
    requires c.channelType in st.operators && TypeOfDetails(c.details) == Some(c.channelType)
    requires forall i :: 0 <= i < |st.rows| && st.rows[i].entry == c.entry ==> ChannelDetailsOf(st, st.rows[i], false).Ok?
    ensures var st' := CreateChannelWithDetails(st, c, newId).value;
            ChannelsByAddressBookEntry(st', c.entry, false).Ok?
            && Meta(c.(id := newId)).(details := c.details) in ChannelsByAddressBookEntry(st', c.entry, false).value
  {
    var st' := CreateChannelWithDetails(st, c, newId).value;
    var n := Meta(c.(id := newId));
    assert st'.rows[|st.rows|] == n;
    assert ChannelDetailsOf(st', n, false) == Ok(c.details);
    forall i | 0 <= i < |st'.rows| && st'.rows[i].entry == c.entry
      ensures ChannelDetailsOf(st', st'.rows[i], false).Ok?
    {
      if i < |st.rows| {
        assert st'.rows[i] == st.rows[i];
        assert st.rows[i].id != newId;
        assert GetDetails(st', st.rows[i].channelType, st.rows[i].id) == GetDetails(st, st.rows[i].channelType, st.rows[i].id);
      }
    }
  }

  /** Creating a channel changes no other channel's read, in either
      reading. */
  lemma {:induction false} CreateKeepsOtherReads(st: Store, c: Channel, newId: Id, ch: Channel, asWritten: bool)
    requires !HasRow(st.rows, newId)
    requires CreateChannelWithDetails(st, c, newId).Ok?
    requires ch.id != newId
    ensures ChannelDetailsOf(CreateChannelWithDetails(st, c, newId).value, ch, asWritten) == ChannelDetailsOf(st, ch, asWritten)
  {
    var st' := CreateChannelWithDetails(st, c, newId).value;
    assert GetDetails(st'.(rows := st.rows), ch.channelType, ch.id) == GetDetails(st, ch.channelType, ch.id);
    assert GetDetails(st', ch.channelType, ch.id) == GetDetails(st, ch.channelType, ch.id);
  }

  /** The scan of a created forward channel's target rows fails. */
  lemma {:induction false} NewForwardChannelFailsAsWritten(st: Store, c: Channel, newId: Id)
    requires !HasRow(st.rows, newId)
    requires c.channelType in st.operators && TypeOfDetails(c.details) == Some(c.channelType)
    requires HasTargets(c.details)
    ensures ChannelDetailsOf(CreateChannelWithDetails(st, c, newId).value, Meta(c.(id := newId)), true) == Err(Internal)
  {
    var st' := CreateChannelWithDetails(st, c, newId).value;
    assert IsForwardType(c.channelType);
    assert GetDetails(st', c.channelType, newId) == Ok(c.details);
    assert HasDetailRows(st', c.channelType, newId);
  }

  /** As written, a created forward channel with a target cannot be read
      back: listing its entry fails, and with the internal error of that
      channel's scan when the entry's other channels read. */
  lemma {:induction false} CreatedForwardChannelUnreadableAsWritten(st: Store, c: Channel, newId: Id)
    requires !HasRow(st.rows, newId) && c.entry in st.entries
    requires c.channelType in st.operators && TypeOfDetails(c.details) == Some(c.channelType)
    requires HasTargets(c.details)
    ensures var st' := CreateChannelWithDetails(st, c, newId).value;
            && ChannelDetailsOf(st', Meta(c.(id := newId)), true) == Err(Internal)
            && ChannelsByAddressBookEntry(st', c.entry, true).Err?
    ensures (forall i :: 0 <= i < |st.rows| && st.rows[i].entry == c.entry ==> ChannelDetailsOf(st, st.rows[i], true).Ok?) ==>
            ChannelsByAddressBookEntry(CreateChannelWithDetails(st, c, newId).value, c.entry, true) == Err(Internal)
  {
    var st' := CreateChannelWithDetails(st, c, newId).value;
    var n := Meta(c.(id := newId));
    NewForwardChannelFailsAsWritten(st, c, newId);
    assert st'.rows[|st.rows|] == n && n.entry == c.entry;
    var r := ChannelsByAddressBookEntry(st', c.entry, true);
    if forall i :: 0 <= i < |st.rows| && st.rows[i].entry == c.entry ==> ChannelDetailsOf(st, st.rows[i], true).Ok? {
      var k :| 0 <= k < |st'.rows| && st'.rows[k].entry == c.entry && ChannelDetailsOf(st', st'.rows[k], true) == Err(r.code);
      if k < |st.rows| {
        assert st'.rows[k] == st.rows[k];
        assert st.rows[k].id != newId;
        CreateKeepsOtherReads(st, c, newId, st.rows[k], true);
        assert false;
      }
    }
  }

  /** One entry with one forward-to-user channel that forwards to one user:
      the corrected listing reads the channel with its target, the listing
      as written fails with an internal error. */
  lemma ForwardListingFailsAsWritten(c: Channel, user: Id)
    requires c.channelType == TypeForwardToUser && c.details == NoDetails
    ensures var st := Store({c.entry}, [c], map[], [ForwardRow(c.id, user)], [], {TypeForwardToUser});
            && ChannelsByAddressBookEntry(st, c.entry, false) == Ok([c.(details := ForwardToUserDetails([user]))])
            && ChannelsByAddressBookEntry(st, c.entry, true) == Err(Internal)
  {
    var st := Store({c.entry}, [c], map[], [ForwardRow(c.id, user)], [], {TypeForwardToUser});
    assert Targets(st.forwardToUser, c.id) == [user];
    assert RowsOfEntry(st.rows, c.entry) == [c];
    assert [c][1..] == [];
    assert ChannelDetailsOf(st, c, false) == Ok(ForwardToUserDetails([user]));
    assert AttachDetails(st, [c][1..], false) == Ok([]);
    assert [Attached(st, c, false)] + [] == [Attached(st, c, false)];
    assert AttachDetails(st, [c], false) == Ok([Attached(st, c, false)]);
    assert ChannelDetailsOf(st, c, true) == Err(Internal);
  }

  /** After a delete, every other channel reads the details it read before. */
  lemma {:induction false} DeleteKeepsOtherDetails(st: Store, id: Id, channelType: string, ch: Channel, asWritten: bool)
    requires DeleteChannelWithDetailsByID(st, id, channelType).Ok?
    requires ch.id != id
    ensures Attached(DeleteChannelWithDetailsByID(st, id, channelType).value, ch, asWritten) == Attached(st, ch, asWritten)
  {
    var st' := DeleteChannelWithDetailsByID(st, id, channelType).value;
    assert GetDetails(st'.(rows := st.rows), ch.channelType, ch.id) == GetDetails(st, ch.channelType, ch.id);
    assert ChannelDetailsOf(st', ch, asWritten) == ChannelDetailsOf(st, ch, asWritten);
  }

  /** A listing that could be read before a delete can still be read. */
  lemma {:induction false} DeleteKeepsListingReadable(st: Store, id: Id, channelType: string, entry: Id, asWritten: bool)
    requires DeleteChannelWithDetailsByID(st, id, channelType).Ok?
    requires ChannelsByAddressBookEntry(st, entry, asWritten).Ok?
    ensures ChannelsByAddressBookEntry(DeleteChannelWithDetailsByID(st, id, channelType).value, entry, asWritten).Ok?
  {
    var st' := DeleteChannelWithDetailsByID(st, id, channelType).value;
    forall i | 0 <= i < |st'.rows| && st'.rows[i].entry == entry
      ensures ChannelDetailsOf(st', st'.rows[i], asWritten).Ok?
    {
      assert st'.rows[i] in st.rows;
      assert st'.rows[i].id != id by { assert !HasRow(st'.rows, id); }
      DeleteKeepsOtherDetails(st, id, channelType, st'.rows[i], asWritten);
    }
  }

  /** A channel listed after a delete was listed before and is not the
      deleted one. */
  lemma {:induction false} ListedAfterDelete(st: Store, id: Id, channelType: string, entry: Id, ch: Channel, asWritten: bool)
    requires DeleteChannelWithDetailsByID(st, id, channelType).Ok?
    requires ChannelsByAddressBookEntry(st, entry, asWritten).Ok?
    requires var after := ChannelsByAddressBookEntry(DeleteChannelWithDetailsByID(st, id, channelType).value, entry, asWritten);
      after.Ok? && ch in after.value
    ensures ch in ChannelsByAddressBookEntry(st, entry, asWritten).value && ch.id != id
  {
    var st' := DeleteChannelWithDetailsByID(st, id, channelType).value;
    var after := ChannelsByAddressBookEntry(st', entry, asWritten);
    var i :| 0 <= i < |after.value| && after.value[i] == ch;
    var j :| 0 <= j < |st'.rows| && st'.rows[j].entry == entry && ch == Attached(st', st'.rows[j], asWritten);
    assert st'.rows[j].id != id by { assert !HasRow(st'.rows, id); }
    DeleteKeepsOtherDetails(st, id, channelType, st'.rows[j], asWritten);
    assert st'.rows[j] in st.rows;
  }

  /** A channel listed before a delete, other than the deleted one, is still
      listed. */
  lemma {:induction false} ListedBeforeDelete(st: Store, id: Id, channelType: string, entry: Id, ch: Channel, asWritten: bool)
    requires DeleteChannelWithDetailsByID(st, id, channelType).Ok?
    requires ChannelsByAddressBookEntry(st, entry, asWritten).Ok?
    requires ChannelsByAddressBookEntry(DeleteChannelWithDetailsByID(st, id, channelType).value, entry, asWritten).Ok?
    requires ch in ChannelsByAddressBookEntry(st, entry, asWritten).value && ch.id != id
    ensures ch in ChannelsByAddressBookEntry(DeleteChannelWithDetailsByID(st, id, channelType).value, entry, asWritten).value
  {
    var st' := DeleteChannelWithDetailsByID(st, id, channelType).value;
    var before := ChannelsByAddressBookEntry(st, entry, asWritten);
    var i :| 0 <= i < |before.value| && before.value[i] == ch;
    var j :| 0 <= j < |st.rows| && st.rows[j].entry == entry && ch == Attached(st, st.rows[j], asWritten);
    DeleteKeepsOtherDetails(st, id, channelType, st.rows[j], asWritten);
    assert st.rows[j] in st'.rows;
  }

  /** Deleting a channel removes it from its entry's listing and changes no
      other listed channel: a listing that could be read before still can,
      and holds exactly the channels it held before, less the deleted one. */
  lemma {:induction false} DeleteThenChannelsByEntry(st: Store, id: Id, channelType: string, entry: Id, asWritten: bool)
    requires DeleteChannelWithDetailsByID(st, id, channelType).Ok?
    requires ChannelsByAddressBookEntry(st, entry, asWritten).Ok?
    ensures var st' := DeleteChannelWithDetailsByID(st, id, channelType).value;
            && ChannelsByAddressBookEntry(st', entry, asWritten).Ok?
            && forall ch :: ch in ChannelsByAddressBookEntry(st', entry, asWritten).value <==>
                 ch in ChannelsByAddressBookEntry(st, entry, asWritten).value && ch.id != id
  {
    DeleteKeepsListingReadable(st, id, channelType, entry, asWritten);
    forall ch: Channel
      ensures ch in ChannelsByAddressBookEntry(DeleteChannelWithDetailsByID(st, id, channelType).value, entry, asWritten).value <==>
        ch in ChannelsByAddressBookEntry(st, entry, asWritten).value && ch.id != id
    {
      if ch in ChannelsByAddressBookEntry(DeleteChannelWithDetailsByID(st, id, channelType).value, entry, asWritten).value {
        ListedAfterDelete(st, id, channelType, entry, ch, asWritten);
      }
      if ch in ChannelsByAddressBookEntry(st, entry, asWritten).value && ch.id != id {
        ListedBeforeDelete(st, id, channelType, entry, ch, asWritten);
      }
    }
  }
}
