/** The channel copy the radio-delivery service and the in-app notifier keep:
    on a channels-updated event each of them takes over the channels of its
    own type, in order, and refuses an event whose channels of that type
    name another entry (radio-delivery-svc/eventport/handlers.go and
    in-app-notifier-svc/eventport/handlers.go). */
module ChannelMirror {
  import opened Common
  import Events

  /** `store.RadioChannel` and `store.NotificationChannel`. */
  datatype MirroredChannel = MirroredChannel(id: Id, entry: Id, labelText: string, timeout: Time)

  function MirrorOf(c: Events.ChannelInfo): (m: MirroredChannel)
    ensures m.id == c.id && m.entry == c.entry && m.labelText == c.labelText && m.timeout == c.timeout
  {
    MirroredChannel(c.id, c.entry, c.labelText, c.timeout)
  }

  /** Whether every channel of the type belongs to the entry. */
  predicate TypedChannelsBelongTo(entry: Id, channels: seq<Events.ChannelInfo>, channelType: string) {
    forall i :: 0 <= i < |channels| && channels[i].channelType == channelType ==> channels[i].entry == entry
  }

  /** The loop over the event's channels: channels of other types are skipped
      without a look at their entry; a channel of the type that names another
      entry is an internal error. */
  function ChannelsOfType(entry: Id, channels: seq<Events.ChannelInfo>, channelType: string): (r: Result<seq<MirroredChannel>>)
    ensures r.Ok? <==> TypedChannelsBelongTo(entry, channels, channelType)
    ensures r.Err? ==> r.code == Internal
    ensures r.Ok? ==> r.value == Map(MirrorOf, Filter((c: Events.ChannelInfo) => c.channelType == channelType, channels))
  {
    if |channels| == 0 then Ok([])
    else
      var c := channels[0];
      var keep := c.channelType == channelType;
      assert TypedChannelsBelongTo(entry, channels, channelType)
        <==> (keep ==> c.entry == entry) && TypedChannelsBelongTo(entry, channels[1..], channelType) by {
        if (keep ==> c.entry == entry) && TypedChannelsBelongTo(entry, channels[1..], channelType) {
          forall i | 0 <= i < |channels| && channels[i].channelType == channelType ensures channels[i].entry == entry {
            if i > 0 { assert channels[i] == channels[1..][i - 1]; }
          }
        }
        if TypedChannelsBelongTo(entry, channels, channelType) {
          forall i | 0 <= i < |channels[1..]| && channels[1..][i].channelType == channelType
            ensures channels[1..][i].entry == entry {
            assert channels[1..][i] == channels[i + 1];
          }
        }
      }
      if keep && c.entry != entry then Err(Internal)
      else
        var rest :- ChannelsOfType(entry, channels[1..], channelType);
        if keep then Ok([MirrorOf(c)] + rest) else Ok(rest)
  }

  /** A channel of another type naming another entry does not stop the
      update. */
  lemma ForeignChannelsAreNotChecked(entry: Id, other: Id, c: Events.ChannelInfo, channelType: string)
    requires c.channelType != channelType && c.entry == other
    ensures ChannelsOfType(entry, [c], channelType) == Ok([])
  {
    assert Filter((x: Events.ChannelInfo) => x.channelType == channelType, [c]) == [];
  }

  /** Every channel taken over has the type's entry, and as many channels as
      the event holds of the type are taken over. */
  lemma MirroredChannelsBelongToEntry(entry: Id, channels: seq<Events.ChannelInfo>, channelType: string)
    requires ChannelsOfType(entry, channels, channelType).Ok?
    ensures forall m :: m in ChannelsOfType(entry, channels, channelType).value ==> m.entry == entry
  {
    var kept := Filter((c: Events.ChannelInfo) => c.channelType == channelType, channels);
    var r := ChannelsOfType(entry, channels, channelType).value;
    forall m | m in r ensures m.entry == entry {
      var k :| 0 <= k < |r| && r[k] == m;
      var j :| 0 <= j < |channels| && channels[j] == kept[k];
    }
  }
}
