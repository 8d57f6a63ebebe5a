/**
 * The voice room manager as the event handler it is: an object owning the set
 * of managed rooms and the member-to-room map, both updated in place. Each
 * method is proved to do what the state machine in VoiceRooms says.
 */
module VoiceRoomManagerEvent {
  import opened Wrappers
  import opened VoiceRooms
  import VoiceRoomProperties

  class VoiceRoomManager {
    /** Which revision this manager is, and with it where its settings come from. */
    const revision: Revision

    var managedChannels: set<Id>
    var memberRooms: map<Id, Id>

    ghost function State(): Rooms
      reads this
    {
      Rooms(managedChannels, memberRooms)
    }

    ghost predicate Valid()
      reads this
    {
      VoiceRooms.Valid(revision, State())
    }

    constructor (revision: Revision)
      ensures this.revision == revision
      ensures managedChannels == {} && memberRooms == map[]
      ensures Valid()
    {
      this.revision := revision;
      managedChannels := {};
      memberRooms := map[];
    }

    /**
     * `destroyVoiceRoom`: forget the room in both collections, then ask the
     * platform to delete it when it is deletable (a failure is swallowed).
     */
    method DestroyVoiceRoom(channel: ChannelView) returns (deleteIssued: bool)
      modifies this
      ensures State() == Destroy(old(State()), channel.id)
      ensures deleteIssued == channel.deletable
    {
      managedChannels := managedChannels - {channel.id};

      ghost var before := memberRooms;
      var pending := memberRooms.Keys;
      while pending != {}
        invariant managedChannels == old(managedChannels) - {channel.id}
        invariant pending <= before.Keys
        invariant forall member :: member in memberRooms <==>
                    member in before && (member in pending || before[member] != channel.id)
        invariant forall member :: member in memberRooms ==> memberRooms[member] == before[member]
        decreases pending
      {
        var member :| member in pending;
        if memberRooms[member] == channel.id {
          memberRooms := memberRooms - {member};
        }
        pending := pending - {member};
      }
      assert memberRooms == WithoutRoom(before, channel.id);

      deleteIssued := channel.deletable;
    }

    /**
     * `handleVacatedChannel`: destroy the channel the member left when it is
     * empty and managed (the compiled revision: or named like a room).
     */
    method HandleVacatedChannel(oldChannel: Option<ChannelView>) returns (action: VacateAction)
      modifies this
      ensures Step(State(), action) == Vacate(revision, old(State()), oldChannel)
    {
      if oldChannel.None? {
        return NotVacated;
      }
      var channel := oldChannel.value;
      var tracked := channel.id in managedChannels;
      if !tracked && !(revision.Compiled? && EndsWith(channel.name, ChannelName.RoomSuffix)) {
        return NotVacated;
      }
      if channel.memberCount == 0 {
        var deleteIssued := DestroyVoiceRoom(channel);
        return Destroyed(channel.id, deleteIssued);
      }
      return NotVacated;
    }

    /**
     * `Execute`: one voice-state update. The collections end as the state
     * machine says. From collections that meet the invariant they stay
     * consistent and within the ceiling whatever the platform answers, and
     * the whole invariant holds again when the platform hands out a fresh id.
     */
    method Execute(ev: VoiceStateUpdate, replies: GuildReplies) returns (outcome: VoiceOutcome)
      modifies this
      ensures var r := OnVoiceStateUpdate(revision, old(State()), ev, replies);
        State() == r.rooms && outcome == r.action
      ensures old(Valid()) ==> Consistent(State()) && WithinCeiling(revision, State())
      ensures old(Valid()) && FreshReply(old(State()), replies) ==> Valid()
    {
      var config := GetConfig(revision);
      if config.None? {
        return Disabled;
      }
      var vacated := HandleVacatedChannel(ev.oldChannel);
      var joined := HandleHubJoin(config.value, ev, replies);
      outcome := Handled(vacated, joined);

      if old(Valid()) {
        VoiceRoomProperties.EventKeepsConsistencyAndCeiling(revision, old(State()), ev, replies);
        if FreshReply(old(State()), replies) {
          VoiceRoomProperties.EventPreservesValid(revision, old(State()), ev, replies);
        }
      }
    }

    /**
     * The part of `Execute` after the vacate check: reuse the member's room
     * when it still resolves, otherwise drop the stale reference, respect the
     * ceiling, create a room and register it once the platform confirms it.
     */
    method HandleHubJoin(cfg: RoomConfig, ev: VoiceStateUpdate, replies: GuildReplies) returns (joined: JoinAction)
      requires GetConfig(revision) == Some(cfg)
      modifies this
      ensures Step(State(), joined) == HandleJoin(revision, cfg, old(State()), ev, replies)
    {
      if ev.newChannelId != Some(cfg.hubChannelId) {
        return NotHubJoin;
      }
      if ev.member.None? || ev.member.value.bot {
        return NoEligibleMember;
      }
      var member := ev.member.value;

      if member.id in memberRooms && memberRooms[member.id] != "" {
        var existingRoomId := memberRooms[member.id];
        if IsVoiceChannel(CacheGet(replies.cache, existingRoomId)) {
          // the move itself may fail; that failure is swallowed
          return MovedToExisting(existingRoomId);
        }
        memberRooms := memberRooms - {member.id};
        managedChannels := managedChannels - {existingRoomId};
      }

      if cfg.maxRooms.Some? && cfg.maxRooms.value != 0 && |managedChannels| >= cfg.maxRooms.value {
        return RoomLimitReached;
      }

      var request := CreateRequestFor(revision, cfg, member.displayName, replies.maximumBitrate);
      var channel := CreatedRoomId(replies.create);
      if channel.None? {
        return CreateFailed(request);
      }

      managedChannels := managedChannels + {channel.value};
      memberRooms := memberRooms[member.id := channel.value];
      // moving the member into the new room may fail; that failure is swallowed
      return CreatedAndMoved(request, channel.value);
    }
  }
}
