/** What the voice room manager promises, proved about its state machine. */
module VoiceRoomProperties {
  import opened Wrappers
  import ChannelName
  import opened VoiceRooms

  lemma SubsetSize(a: set<Id>, b: set<Id>)
    requires a <= b
    ensures |a| <= |b|
  {
    assert b == a + (b - a);
  }

  // ---- createVoiceRoom ----

  /**
   * The audit reason names the member it was written for: two requests with
   * the same reason were made for the same display name.
   */
  lemma ReasonDeterminesDisplayName(a: CreateRequest, b: CreateRequest)
    requires a.Reason() == b.Reason()
    ensures a.displayName == b.displayName
  {
    assert a.displayName == a.Reason()[|ReasonPrefix|..];
  }

  // ---- destroyVoiceRoom ----

  /**
   * After a destroy the room is neither managed nor anyone's recorded room;
   * every other room and every other member's entry is untouched.
   */
  lemma DestroyForgetsRoom(s: Rooms, id: Id)
    ensures var r := Destroy(s, id);
      && id !in r.managedChannels
      && (forall member :: member in r.memberRooms ==> r.memberRooms[member] != id)
      && r.managedChannels == s.managedChannels - {id}
      && (forall member :: member in s.memberRooms && s.memberRooms[member] != id ==>
            member in r.memberRooms && r.memberRooms[member] == s.memberRooms[member])
  {
  }

  lemma DestroyPreservesValid(rev: Revision, s: Rooms, id: Id)
    requires Valid(rev, s)
    ensures Valid(rev, Destroy(s, id))
  {
    SubsetSize(s.managedChannels - {id}, s.managedChannels);
  }

  /** Destroying an untracked room changes nothing in consistent collections. */
  lemma DestroyUntrackedIsNoOp(s: Rooms, id: Id)
    requires Consistent(s) && id !in s.managedChannels
    ensures Destroy(s, id) == s
  {
    assert WithoutRoom(s.memberRooms, id) == s.memberRooms;
  }

  // ---- handleVacatedChannel ----

  /**
   * The vacate check destroys the channel the member left exactly when it is
   * empty and tracked (the compiled revision: or named like a room), and
   * otherwise leaves both collections alone.
   */
  lemma VacateDestroysExactlyEmptyRooms(rev: Revision, s: Rooms, oldChannel: Option<ChannelView>)
    ensures var v := Vacate(rev, s, oldChannel);
      && (v.action.Destroyed? <==>
            oldChannel.Some? && oldChannel.value.memberCount == 0 &&
            (oldChannel.value.id in s.managedChannels ||
             (rev.Compiled? && EndsWith(oldChannel.value.name, ChannelName.RoomSuffix))))
      && (v.action.Destroyed? ==>
            v.action.id == oldChannel.value.id && v.action.deleteIssued == oldChannel.value.deletable &&
            v.rooms == Destroy(s, oldChannel.value.id))
      && (v.action.NotVacated? ==> v.rooms == s)
  {
  }

  /** In the current revision only tracked channels are ever destroyed. */
  lemma CurrentDestroysOnlyTracked(cfg: Option<RoomConfig>, s: Rooms, oldChannel: Option<ChannelView>)
    ensures var v := Vacate(Current(cfg), s, oldChannel);
      v.action.Destroyed? ==> v.action.id in s.managedChannels && oldChannel.value.memberCount == 0
  {
  }

  /**
   * The compiled revision's name fallback: an empty untracked channel named
   * "...'s Room" is destroyed, and the collections stay as they were.
   */
  lemma CompiledDestroysRoomLookalike(s: Rooms, channel: ChannelView)
    requires Consistent(s)
    requires channel.id !in s.managedChannels && channel.memberCount == 0
    requires EndsWith(channel.name, ChannelName.RoomSuffix)
    ensures Vacate(Compiled, s, Some(channel)) == Step(s, Destroyed(channel.id, channel.deletable))
  {
    DestroyUntrackedIsNoOp(s, channel.id);
  }

  // ---- the whole event ----

  /** Without a hub channel id the current revision ignores the event. */
  lemma MissingHubIsNoOp(cfg: Option<RoomConfig>, s: Rooms, ev: VoiceStateUpdate, replies: GuildReplies)
    requires cfg.None? || cfg.value.hubChannelId == ""
    ensures OnVoiceStateUpdate(Current(cfg), s, ev, replies) == Step(s, Disabled)
  {
  }

  /**
   * The vacate check runs first; a destination other than the hub, or a
   * missing or bot member, then ends the event with no further change.
   */
  lemma IneligibleJoinStopsAfterVacate(rev: Revision, s: Rooms, ev: VoiceStateUpdate, replies: GuildReplies)
    requires GetConfig(rev).Some?
    requires ev.newChannelId != Some(GetConfig(rev).value.hubChannelId) || ev.member.None? || ev.member.value.bot
    ensures var v := Vacate(rev, s, ev.oldChannel);
      var r := OnVoiceStateUpdate(rev, s, ev, replies);
      && r.rooms == v.rooms
      && r.action.Handled? && r.action.vacated == v.action
      && r.action.joined in {NotHubJoin, NoEligibleMember}
  {
  }

  /** The event's part after the vacate check, for an eligible hub join. */
  predicate HubJoin(rev: Revision, ev: VoiceStateUpdate) {
    GetConfig(rev).Some? && ev.newChannelId == Some(GetConfig(rev).value.hubChannelId) &&
    ev.member.Some? && !ev.member.value.bot
  }

  /**
   * Reuse: when the member's recorded room still resolves to a voice channel
   * the member is moved there, nothing is created and nothing changes.
   */
  lemma ReuseChangesNothing(rev: Revision, s: Rooms, ev: VoiceStateUpdate, replies: GuildReplies)
    requires HubJoin(rev, ev)
    requires var v := Vacate(rev, s, ev.oldChannel).rooms;
      HasRecordedRoom(v, ev.member.value.id) && Resolves(replies.cache, v.memberRooms[ev.member.value.id])
    ensures var v := Vacate(rev, s, ev.oldChannel);
      var r := OnVoiceStateUpdate(rev, s, ev, replies);
      r.rooms == v.rooms &&
      r.action == Handled(v.action, MovedToExisting(v.rooms.memberRooms[ev.member.value.id]))
  {
  }

  /**
   * Self-healing: a recorded room that no longer resolves is forgotten, in
   * both collections, before the ceiling is checked; afterwards the member
   * either has no room or the room just created.
   */
  lemma StaleRoomIsPurged(rev: Revision, s: Rooms, ev: VoiceStateUpdate, replies: GuildReplies)
    requires HubJoin(rev, ev)
    requires var v := Vacate(rev, s, ev.oldChannel).rooms;
      HasRecordedRoom(v, ev.member.value.id) && !Resolves(replies.cache, v.memberRooms[ev.member.value.id])
    ensures var v := Vacate(rev, s, ev.oldChannel).rooms;
      var m := ev.member.value.id;
      var stale := v.memberRooms[m];
      var purged := PurgeRecordedRoom(v, m);
      var r := OnVoiceStateUpdate(rev, s, ev, replies);
      && purged.managedChannels == v.managedChannels - {stale}
      && purged.memberRooms == v.memberRooms - {m}
      && r.action.Handled? && !r.action.joined.MovedToExisting?
      && (r.action.joined.CreatedAndMoved? ==> r.rooms == Register(purged, m, r.action.joined.room))
      && (!r.action.joined.CreatedAndMoved? ==> r.rooms == purged)
  {
  }

  /**
   * A purged stale room is replaced by a fresh one when creation succeeds:
   * the member's entry now names the new room and the stale room is gone.
   */
  lemma StaleRoomIsReplaced(rev: Revision, s: Rooms, ev: VoiceStateUpdate, replies: GuildReplies)
    requires HubJoin(rev, ev)
    requires Valid(rev, s) && FreshReply(s, replies)
    requires var v := Vacate(rev, s, ev.oldChannel).rooms;
      HasRecordedRoom(v, ev.member.value.id) && !Resolves(replies.cache, v.memberRooms[ev.member.value.id])
    requires OnVoiceStateUpdate(rev, s, ev, replies).action.joined.CreatedAndMoved?
    ensures var v := Vacate(rev, s, ev.oldChannel).rooms;
      var m := ev.member.value.id;
      var r := OnVoiceStateUpdate(rev, s, ev, replies);
      && r.rooms.memberRooms[m] == replies.create.id
      && r.rooms.memberRooms[m] != v.memberRooms[m]
      && v.memberRooms[m] !in r.rooms.managedChannels
  {
    var v := Vacate(rev, s, ev.oldChannel).rooms;
    VacatePreservesValid(rev, s, ev.oldChannel);
    assert v.managedChannels <= s.managedChannels;
    assert v.memberRooms[ev.member.value.id] in s.managedChannels;
  }

  /**
   * The ceiling: when it is set and reached after the stale cleanup, no room
   * is created and nothing changes beyond that cleanup.
   */
  lemma CeilingBlocksCreation(rev: Revision, s: Rooms, ev: VoiceStateUpdate, replies: GuildReplies)
    requires HubJoin(rev, ev)
    requires var v := Vacate(rev, s, ev.oldChannel).rooms;
      !(HasRecordedRoom(v, ev.member.value.id) && Resolves(replies.cache, v.memberRooms[ev.member.value.id]))
    requires var purged := PurgeRecordedRoom(Vacate(rev, s, ev.oldChannel).rooms, ev.member.value.id);
      CeilingBlocks(GetConfig(rev).value, |purged.managedChannels|)
    ensures var v := Vacate(rev, s, ev.oldChannel);
      var r := OnVoiceStateUpdate(rev, s, ev, replies);
      r.rooms == PurgeRecordedRoom(v.rooms, ev.member.value.id) && r.action == Handled(v.action, RoomLimitReached)
  {
  }

  /** The compiled revision always enforces its ceiling of 15 rooms. */
  lemma CompiledCeilingIsFifteen(s: Rooms, ev: VoiceStateUpdate, replies: GuildReplies)
    requires HubJoin(Compiled, ev)
    requires var v := Vacate(Compiled, s, ev.oldChannel).rooms;
      !(HasRecordedRoom(v, ev.member.value.id) && Resolves(replies.cache, v.memberRooms[ev.member.value.id]))
    requires |PurgeRecordedRoom(Vacate(Compiled, s, ev.oldChannel).rooms, ev.member.value.id).managedChannels|
             >= 15
    ensures OnVoiceStateUpdate(Compiled, s, ev, replies).action.joined == RoomLimitReached
  {
  }

  /**
   * A failed creation (an exception, or a channel that is not a voice
   * channel) registers nothing: the collections are as after the cleanup.
   */
  lemma FailedCreationRegistersNothing(rev: Revision, s: Rooms, ev: VoiceStateUpdate, replies: GuildReplies)
    requires HubJoin(rev, ev)
    requires replies.create.CreateThrew? || replies.create.kind != GuildVoice
    ensures var v := Vacate(rev, s, ev.oldChannel).rooms;
      var r := OnVoiceStateUpdate(rev, s, ev, replies);
      r.rooms == v || r.rooms == PurgeRecordedRoom(v, ev.member.value.id)
  {
  }

  /**
   * A room is registered only after the platform confirmed its creation, and
   * it is the only room that can become managed during the event.
   */
  lemma OnlyConfirmedRoomsAreRegistered(rev: Revision, s: Rooms, ev: VoiceStateUpdate, replies: GuildReplies)
    ensures var r := OnVoiceStateUpdate(rev, s, ev, replies);
      && (r.action.Handled? && r.action.joined.CreatedAndMoved? ==>
            replies.create == Created(r.action.joined.room, GuildVoice) &&
            r.rooms.managedChannels <= s.managedChannels + {r.action.joined.room} &&
            r.action.joined.room in r.rooms.managedChannels &&
            r.rooms.memberRooms[ev.member.value.id] == r.action.joined.room)
      && (!(r.action.Handled? && r.action.joined.CreatedAndMoved?) ==>
            r.rooms.managedChannels <= s.managedChannels &&
            r.rooms.memberRooms.Keys <= s.memberRooms.Keys)
  {
    if GetConfig(rev).Some? {
      var v := Vacate(rev, s, ev.oldChannel).rooms;
      assert v.managedChannels <= s.managedChannels && v.memberRooms.Keys <= s.memberRooms.Keys;
      JoinRegistersOnlyConfirmed(rev, GetConfig(rev).value, v, ev, replies);
    }
  }

  /** The join half of the above, for any collections. */
  lemma JoinRegistersOnlyConfirmed(rev: Revision, cfg: RoomConfig, s: Rooms, ev: VoiceStateUpdate, replies: GuildReplies)
    ensures var j := HandleJoin(rev, cfg, s, ev, replies);
      && (j.action.CreatedAndMoved? ==>
            ev.member.Some? &&
            replies.create == Created(j.action.room, GuildVoice) &&
            j.rooms.managedChannels <= s.managedChannels + {j.action.room} &&
            j.action.room in j.rooms.managedChannels &&
            j.rooms.memberRooms[ev.member.value.id] == j.action.room)
      && (!j.action.CreatedAndMoved? ==>
            j.rooms.managedChannels <= s.managedChannels &&
            j.rooms.memberRooms.Keys <= s.memberRooms.Keys)
  {
    var j := HandleJoin(rev, cfg, s, ev, replies);
    if ev.newChannelId != Some(cfg.hubChannelId) || ev.member.None? || ev.member.value.bot {
      assert j.rooms == s && !j.action.CreatedAndMoved?;
    } else {
      var m := ev.member.value.id;
      if HasRecordedRoom(s, m) && Resolves(replies.cache, s.memberRooms[m]) {
        assert j.rooms == s && !j.action.CreatedAndMoved?;
      } else {
        var purged := PurgeRecordedRoom(s, m);
        var room := CreatedRoomId(replies.create);
        if room.Some? && !CeilingBlocks(cfg, |purged.managedChannels|) {
          assert j.rooms == Register(purged, m, room.value) && j.action.room == room.value;
        } else {
          assert j.rooms == purged && !j.action.CreatedAndMoved?;
        }
      }
    }
  }

  // ---- the invariant ----

  lemma PurgePreservesValid(rev: Revision, s: Rooms, member: Id)
    requires Valid(rev, s)
    ensures Valid(rev, PurgeRecordedRoom(s, member))
  {
    if HasRecordedRoom(s, member) {
      var p := PurgeRecordedRoom(s, member);
      SubsetSize(p.managedChannels, s.managedChannels);
    }
  }

  lemma RegisterKeepsConsistency(rev: Revision, cfg: RoomConfig, s: Rooms, member: Id, room: Id)
    requires GetConfig(rev) == Some(cfg)
    requires Consistent(s) && WithinCeiling(rev, s)
    requires !CeilingBlocks(cfg, |s.managedChannels|)
    ensures Consistent(Register(s, member, room)) && WithinCeiling(rev, Register(s, member, room))
  {
    var r := Register(s, member, room);
    assert |r.managedChannels| <= |s.managedChannels| + 1 by {
      if room in s.managedChannels {
        assert r.managedChannels == s.managedChannels;
      }
    }
  }

  lemma RegisterFreshPreservesValid(rev: Revision, cfg: RoomConfig, s: Rooms, member: Id, room: Id)
    requires GetConfig(rev) == Some(cfg)
    requires Valid(rev, s) && room !in s.managedChannels
    requires !CeilingBlocks(cfg, |s.managedChannels|)
    ensures Valid(rev, Register(s, member, room))
  {
    RegisterKeepsConsistency(rev, cfg, s, member, room);
  }

  lemma VacatePreservesValid(rev: Revision, s: Rooms, oldChannel: Option<ChannelView>)
    requires Valid(rev, s)
    ensures Valid(rev, Vacate(rev, s, oldChannel).rooms)
    ensures Vacate(rev, s, oldChannel).rooms.managedChannels <= s.managedChannels
  {
    if oldChannel.Some? && VacateFires(rev, s, oldChannel.value) {
      DestroyPreservesValid(rev, s, oldChannel.value.id);
    }
  }

  lemma JoinKeepsConsistencyAndCeiling(rev: Revision, cfg: RoomConfig, s: Rooms, ev: VoiceStateUpdate, replies: GuildReplies)
    requires GetConfig(rev) == Some(cfg)
    requires Valid(rev, s)
    ensures var r := HandleJoin(rev, cfg, s, ev, replies).rooms;
      Consistent(r) && WithinCeiling(rev, r)
  {
    var j := HandleJoin(rev, cfg, s, ev, replies);
    if ev.newChannelId != Some(cfg.hubChannelId) || ev.member.None? || ev.member.value.bot {
      assert j.rooms == s;
    } else {
      var m := ev.member.value.id;
      if HasRecordedRoom(s, m) && Resolves(replies.cache, s.memberRooms[m]) {
        assert j.rooms == s;
      } else {
        PurgePreservesValid(rev, s, m);
        var purged := PurgeRecordedRoom(s, m);
        var room := CreatedRoomId(replies.create);
        if room.Some? && !CeilingBlocks(cfg, |purged.managedChannels|) {
          assert j.rooms == Register(purged, m, room.value);
          RegisterKeepsConsistency(rev, cfg, purged, m, room.value);
        } else {
          assert j.rooms == purged;
        }
      }
    }
  }

  lemma JoinPreservesValid(rev: Revision, cfg: RoomConfig, s: Rooms, ev: VoiceStateUpdate, replies: GuildReplies)
    requires GetConfig(rev) == Some(cfg)
    requires Valid(rev, s) && FreshReply(s, replies)
    ensures Valid(rev, HandleJoin(rev, cfg, s, ev, replies).rooms)
  {
    var j := HandleJoin(rev, cfg, s, ev, replies);
    if ev.newChannelId != Some(cfg.hubChannelId) || ev.member.None? || ev.member.value.bot {
      assert j.rooms == s;
    } else {
      var m := ev.member.value.id;
      if HasRecordedRoom(s, m) && Resolves(replies.cache, s.memberRooms[m]) {
        assert j.rooms == s;
      } else {
        PurgePreservesValid(rev, s, m);
        var purged := PurgeRecordedRoom(s, m);
        var room := CreatedRoomId(replies.create);
        if room.Some? && !CeilingBlocks(cfg, |purged.managedChannels|) {
          assert j.rooms == Register(purged, m, room.value);
          assert purged.managedChannels <= s.managedChannels;
          RegisterFreshPreservesValid(rev, cfg, purged, m, room.value);
        } else {
          assert j.rooms == purged;
        }
      }
    }
  }

  /**
   * Every event keeps the recorded rooms inside the managed set and the
   * number of managed rooms within the ceiling, whatever the platform answers.
   */
  lemma EventKeepsConsistencyAndCeiling(rev: Revision, s: Rooms, ev: VoiceStateUpdate, replies: GuildReplies)
    requires Valid(rev, s)
    ensures var r := OnVoiceStateUpdate(rev, s, ev, replies).rooms;
      Consistent(r) && WithinCeiling(rev, r)
  {
    if GetConfig(rev).Some? {
      VacatePreservesValid(rev, s, ev.oldChannel);
      JoinKeepsConsistencyAndCeiling(rev, GetConfig(rev).value,
        Vacate(rev, s, ev.oldChannel).rooms, ev, replies);
    }
  }

  /**
   * With fresh channel ids from the platform, every event preserves the whole
   * invariant: recorded rooms are managed, no room has two owners, and the
   * ceiling holds.
   */
  lemma EventPreservesValid(rev: Revision, s: Rooms, ev: VoiceStateUpdate, replies: GuildReplies)
    requires Valid(rev, s) && FreshReply(s, replies)
    ensures Valid(rev, OnVoiceStateUpdate(rev, s, ev, replies).rooms)
  {
    if GetConfig(rev).Some? {
      VacatePreservesValid(rev, s, ev.oldChannel);
      JoinPreservesValid(rev, GetConfig(rev).value,
        Vacate(rev, s, ev.oldChannel).rooms, ev, replies);
    }
  }

  /**
   * Joining the hub twice in a row without leaving the assigned room moves
   * the member back into the same room instead of creating a second one.
   */
  lemma RepeatedJoinReusesRoom(rev: Revision, s: Rooms,
                               ev1: VoiceStateUpdate, replies1: GuildReplies,
                               ev2: VoiceStateUpdate, replies2: GuildReplies)
    requires HubJoin(rev, ev1) && HubJoin(rev, ev2) && ev2.member == ev1.member
    requires var r1 := OnVoiceStateUpdate(rev, s, ev1, replies1);
      r1.action.joined.CreatedAndMoved? && r1.action.joined.room != ""
    requires var room := OnVoiceStateUpdate(rev, s, ev1, replies1).action.joined.room;
      !(ev2.oldChannel.Some? && ev2.oldChannel.value.id == room && ev2.oldChannel.value.memberCount == 0) &&
      Resolves(replies2.cache, room)
    ensures var r1 := OnVoiceStateUpdate(rev, s, ev1, replies1);
      var r2 := OnVoiceStateUpdate(rev, r1.rooms, ev2, replies2);
      r2.action.joined == MovedToExisting(r1.action.joined.room) &&
      r2.rooms == Vacate(rev, r1.rooms, ev2.oldChannel).rooms
  {
    var r1 := OnVoiceStateUpdate(rev, s, ev1, replies1);
    var m := ev1.member.value.id;
    var room := r1.action.joined.room;
    OnlyConfirmedRoomsAreRegistered(rev, s, ev1, replies1);
    var v := Vacate(rev, r1.rooms, ev2.oldChannel).rooms;
    assert m in v.memberRooms && v.memberRooms[m] == room;
    assert HandleJoin(rev, GetConfig(rev).value, v, ev2, replies2) == Step(v, MovedToExisting(room));
  }

  // ---- the worked scenario ----

  const ScenarioRevision: Revision := Current(Some(RoomConfig("H", None, None, None, Some(1))))

  function JoinHub(member: Member, create: CreateReply): (VoiceStateUpdate, GuildReplies) {
    (VoiceStateUpdate(None, Some("H"), Some(member)), GuildReplies(map[], None, create))
  }

  lemma ScenarioFirstJoin(letterOrNumber: char -> bool)
    ensures var (ev, replies) := JoinHub(Member("a", "A", false), Created("1", GuildVoice));
      var r := OnVoiceStateUpdate(ScenarioRevision, EmptyRooms, ev, replies);
      r.rooms == Rooms({"1"}, map["a" := "1"]) &&
      r.action.joined.CreatedAndMoved? && r.action.joined.request == CreateRequest("A", None, None, None) &&
      (letterOrNumber('A') ==> r.action.joined.request.Name(letterOrNumber) == "A's Room")
  {
    if letterOrNumber('A') {
      ScenarioRoomName(letterOrNumber);
    }
  }

  /** The request of the first join names its room "A's Room". */
  lemma ScenarioRoomName(letterOrNumber: char -> bool)
    requires letterOrNumber('A')
    ensures CreateRequest("A", None, None, None).Name(letterOrNumber) == "A's Room"
  {
    SingleLetterName("A", letterOrNumber);
  }

  lemma ScenarioSecondJoinRefused()
    ensures var (ev, replies) := JoinHub(Member("b", "B", false), Created("2", GuildVoice));
      var s := Rooms({"1"}, map["a" := "1"]);
      OnVoiceStateUpdate(ScenarioRevision, s, ev, replies) == Step(s, Handled(NotVacated, RoomLimitReached))
  {
  }

  lemma ScenarioOwnerLeaves()
    ensures var ev := VoiceStateUpdate(Some(ChannelView("1", "A's Room", 0, true)), None, Some(Member("a", "A", false)));
      var s := Rooms({"1"}, map["a" := "1"]);
      OnVoiceStateUpdate(ScenarioRevision, s, ev, GuildReplies(map[], None, CreateThrew))
        == Step(EmptyRooms, Handled(Destroyed("1", true), NotHubJoin))
  {
    assert WithoutRoom(map["a" := "1"], "1") == map[];
  }

  lemma ScenarioLastJoin()
    ensures var (ev, replies) := JoinHub(Member("b", "B", false), Created("2", GuildVoice));
      var r := OnVoiceStateUpdate(ScenarioRevision, EmptyRooms, ev, replies);
      r.rooms == Rooms({"2"}, map["b" := "2"]) &&
      r.action.joined.CreatedAndMoved? && r.action.joined.request == CreateRequest("B", None, None, None)
  {
  }

  /** A one-letter display name gives "<letter>'s Room", as in the scenario. */
  lemma SingleLetterName(displayName: string, letterOrNumber: char -> bool)
    requires |displayName| == 1 && letterOrNumber(displayName[0]) && !ChannelName.IsJsWhitespace(displayName[0])
    ensures ChannelName.BuildChannelName(displayName, letterOrNumber) == displayName + ChannelName.RoomSuffix
  {
    var c := displayName[0];
    assert !ChannelName.IsLineBreak(c);
    assert ChannelName.CollapseLineBreaks(displayName) == displayName;
    assert ChannelName.StripDisallowed(displayName, letterOrNumber) == displayName;
    assert ChannelName.LeadingWhitespace(displayName, 0) == 0;
    assert ChannelName.TrailingWhitespace(displayName, 0, 1) == 1;
    assert ChannelName.Sanitise(displayName, letterOrNumber) == displayName;
  }
}
