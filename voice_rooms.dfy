/**
 * The voice room lifecycle manager as a state machine over its two
 * collections. One voice-state update is one atomic step: the vacate check,
 * then (for a member joining the hub) reuse of the member's room, or purge of a
 * stale reference, the room ceiling, creation and registration.
 *
 * The two revisions are two configurations of the same machine:
 * `Current` reads its settings from the bot's configuration and treats the
 * room ceiling as optional; `Compiled` is the older compiled revision with
 * hard-coded settings, an always-enforced ceiling of 15, no bitrate clamping,
 * and a vacate check that also fires for untracked channels named "...'s Room".
 *
 * Every call into the chat platform is an input here: the channel cache the
 * manager consults, the guild's maximum bitrate, and the reply to the create
 * call (a channel with a fresh id and a type, or an exception).
 */
module VoiceRooms {
  import opened Wrappers
  import ChannelName
  import ChannelNameProperties

  type Id = string

  datatype ChannelKind = GuildVoice | OtherKind

  /** A guild member as the manager sees it. */
  datatype Member = Member(id: Id, displayName: string, bot: bool)

  /** The voice channel a member left, as it is after they left. */
  datatype ChannelView = ChannelView(id: Id, name: string, memberCount: nat, deletable: bool)

  /** A voice-state transition: where the member was, where they are now. */
  datatype VoiceStateUpdate = VoiceStateUpdate(
    oldChannel: Option<ChannelView>,
    newChannelId: Option<Id>,
    member: Option<Member>)

  /** The reply to `guild.channels.create`. */
  datatype CreateReply = CreateThrew | Created(id: Id, kind: ChannelKind)

  /** What the platform answers during one event. */
  datatype GuildReplies = GuildReplies(
    cache: map<Id, ChannelKind>,
    maximumBitrate: Option<int>,
    create: CreateReply)

  /** The `voiceRooms` section of the configuration. */
  datatype RoomConfig = RoomConfig(
    hubChannelId: Id,
    categoryId: Option<Id>,
    bitrate: Option<int>,
    userLimit: Option<int>,
    maxRooms: Option<int>)

  datatype Revision = Current(voiceRooms: Option<RoomConfig>) | Compiled

  /**
   * The arguments of the create call: the channel's name and the audit reason
   * both derive from the member's display name.
   */
  datatype CreateRequest = CreateRequest(
    displayName: string,
    parent: Option<Id>,
    userLimit: Option<int>,
    bitrate: Option<int>)
  {
    /** The channel name, `buildChannelName(displayName)`. */
    function Name(letterOrNumber: char -> bool): (name: string)
      ensures |name| <= ChannelName.MaxNameLength
      ensures name == ChannelName.FallbackName <==> ChannelName.Sanitise(displayName, letterOrNumber) == []
    {
      ChannelNameProperties.FallbackExactlyWhenBaseEmpty(displayName, letterOrNumber);
      ChannelName.BuildChannelName(displayName, letterOrNumber)
    }

    /** The audit-log reason. */
    function Reason(): (reason: string)
      ensures |reason| == |ReasonPrefix| + |displayName| && reason[..|ReasonPrefix|] == ReasonPrefix && reason[|ReasonPrefix|..] == displayName
    {
      ReasonPrefix + displayName
    }
  }

  const ReasonPrefix: string := "Auto-generated voice room for "

  datatype VacateAction = NotVacated | Destroyed(id: Id, deleteIssued: bool)

  datatype JoinAction =
    | NotHubJoin
    | NoEligibleMember
    | MovedToExisting(room: Id)
    | RoomLimitReached
    | CreateFailed(request: CreateRequest)
    | CreatedAndMoved(request: CreateRequest, room: Id)

  datatype VoiceOutcome = Disabled | Handled(vacated: VacateAction, joined: JoinAction)

  /** The manager's two collections. */
  datatype Rooms = Rooms(managedChannels: set<Id>, memberRooms: map<Id, Id>)

  /** The collections after a step, with what the step did. */
  datatype Step<A> = Step(rooms: Rooms, action: A)

  const EmptyRooms: Rooms := Rooms({}, map[])

  /** The hard-coded settings of the compiled revision. */
  const CompiledConfig: RoomConfig := RoomConfig(
    "1432852656765796393", Some("1432852416566661220"), Some(64000), Some(15), Some(15))

  /**
   * `getConfig`: the configured settings, or nothing when the hub channel id is
   * missing (absent section or empty id). The compiled revision always has its
   * constants.
   */
  function GetConfig(rev: Revision): (cfg: Option<RoomConfig>)
    ensures cfg.None? <==> rev.Current? && (rev.voiceRooms.None? || rev.voiceRooms.value.hubChannelId == "")
    ensures cfg.Some? ==> cfg.value.hubChannelId != ""
    ensures rev.Current? && cfg.Some? ==> rev.voiceRooms == cfg
    ensures rev.Compiled? ==> cfg == Some(CompiledConfig)
  {
    match rev
    case Compiled => Some(CompiledConfig)
    case Current(voiceRooms) =>
      if voiceRooms.None? || voiceRooms.value.hubChannelId == "" then None else voiceRooms
  }

  /**
   * `resolveBitrate`: no bitrate for a missing or zero request; otherwise the
   * request capped at the guild's maximum (the request itself when the guild
   * reports none).
   */
  function ResolveBitrate(maximumBitrate: Option<int>, requested: Option<int>): (r: Option<int>)
    ensures r.None? <==> requested.None? || requested.value == 0
    ensures r.Some? ==> r.value <= requested.value
    ensures r.Some? && maximumBitrate.Some? ==> r.value <= maximumBitrate.value
    ensures r.Some? ==> r.value == requested.value || (maximumBitrate.Some? && r.value == maximumBitrate.value)
  {
    if requested.None? || requested.value == 0 then None
    else
      var maximum := maximumBitrate.GetOr(requested.value);
      Some(if requested.value <= maximum then requested.value else maximum)
  }

  /** `isVoiceChannel` applied to a possibly missing channel. */
  predicate IsVoiceChannel(channel: Option<ChannelKind>) {
    channel == Some(GuildVoice)
  }

  /** `guild.channels.cache.get(id)`, reduced to the channel's type. */
  function CacheGet(cache: map<Id, ChannelKind>, id: Id): Option<ChannelKind> {
    if id in cache then Some(cache[id]) else None
  }

  /** Whether a recorded room still resolves to a voice channel. */
  predicate Resolves(cache: map<Id, ChannelKind>, id: Id) {
    IsVoiceChannel(CacheGet(cache, id))
  }

  /**
   * The result of `createVoiceRoom`: the new channel's id only when the call
   * returned and the channel is a voice channel.
   */
  function CreatedRoomId(reply: CreateReply): (r: Option<Id>)
    ensures r.Some? <==> reply.Created? && reply.kind == GuildVoice
    ensures r.Some? ==> r.value == reply.id
  {
    if reply.Created? && IsVoiceChannel(Some(reply.kind)) then Some(reply.id) else None
  }

  /**
   * The create call's arguments. The current revision clamps the configured
   * bitrate to the guild's maximum; the compiled one passes its constant.
   */
  function CreateRequestFor(rev: Revision, cfg: RoomConfig, displayName: string,
                            maximumBitrate: Option<int>): (req: CreateRequest)
    ensures req.displayName == displayName
    ensures req.parent == cfg.categoryId && req.userLimit == cfg.userLimit
    ensures rev.Current? ==> req.bitrate == ResolveBitrate(maximumBitrate, cfg.bitrate)
    ensures rev.Compiled? ==> req.bitrate == cfg.bitrate
  {
    CreateRequest(
      displayName,
      cfg.categoryId,
      cfg.userLimit,
      if rev.Current? then ResolveBitrate(maximumBitrate, cfg.bitrate) else cfg.bitrate)
  }

  predicate EndsWith(s: string, suffix: string) {
    |suffix| <= |s| && s[|s| - |suffix|..] == suffix
  }

  /** The map without the entries whose value is `room`. */
  function WithoutRoom(memberRooms: map<Id, Id>, room: Id): (r: map<Id, Id>)
    ensures forall member :: member in r <==> member in memberRooms && memberRooms[member] != room
    ensures forall member :: member in r ==> r[member] == memberRooms[member]
  {
    map member | member in memberRooms && memberRooms[member] != room :: memberRooms[member]
  }

  /** `destroyVoiceRoom`'s effect on the collections. */
  function Destroy(s: Rooms, id: Id): Rooms {
    Rooms(s.managedChannels - {id}, WithoutRoom(s.memberRooms, id))
  }

  /**
   * When the vacate check destroys the channel a member left: it is empty, and
   * it is tracked (or, in the compiled revision, merely named like a room).
   */
  predicate VacateFires(rev: Revision, s: Rooms, channel: ChannelView) {
    && (channel.id in s.managedChannels || (rev.Compiled? && EndsWith(channel.name, ChannelName.RoomSuffix)))
    && channel.memberCount == 0
  }

  /** `handleVacatedChannel`. */
  function Vacate(rev: Revision, s: Rooms, oldChannel: Option<ChannelView>): Step<VacateAction> {
    if oldChannel.Some? && VacateFires(rev, s, oldChannel.value) then
      Step(Destroy(s, oldChannel.value.id), Destroyed(oldChannel.value.id, oldChannel.value.deletable))
    else Step(s, NotVacated)
  }

  /** The member's recorded room, when there is one (a non-empty id). */
  predicate HasRecordedRoom(s: Rooms, member: Id) {
    member in s.memberRooms && s.memberRooms[member] != ""
  }

  /** The stale-reference cleanup: forget the member's room and the room itself. */
  function PurgeRecordedRoom(s: Rooms, member: Id): Rooms {
    if HasRecordedRoom(s, member) then
      Rooms(s.managedChannels - {s.memberRooms[member]}, s.memberRooms - {member})
    else s
  }

  /** `config.maxRooms && size >= config.maxRooms`. */
  predicate CeilingBlocks(cfg: RoomConfig, size: nat) {
    cfg.maxRooms.Some? && cfg.maxRooms.value != 0 && size >= cfg.maxRooms.value
  }

  /** Registration of a newly created room. */
  function Register(s: Rooms, member: Id, room: Id): Rooms {
    Rooms(s.managedChannels + {room}, s.memberRooms[member := room])
  }

  /** What `Execute` does after the vacate check. */
  function HandleJoin(rev: Revision, cfg: RoomConfig, s: Rooms, ev: VoiceStateUpdate, replies: GuildReplies): Step<JoinAction>
  {
    if ev.newChannelId != Some(cfg.hubChannelId) then Step(s, NotHubJoin)
    else if ev.member.None? || ev.member.value.bot then Step(s, NoEligibleMember)
    else
      var member := ev.member.value;
      if HasRecordedRoom(s, member.id) && Resolves(replies.cache, s.memberRooms[member.id]) then
        Step(s, MovedToExisting(s.memberRooms[member.id]))
      else
        var purged := PurgeRecordedRoom(s, member.id);
        if CeilingBlocks(cfg, |purged.managedChannels|) then Step(purged, RoomLimitReached)
        else
          var request := CreateRequestFor(rev, cfg, member.displayName, replies.maximumBitrate);
          match CreatedRoomId(replies.create)
          case None => Step(purged, CreateFailed(request))
          case Some(room) => Step(Register(purged, member.id, room), CreatedAndMoved(request, room))
  }

  /** `Execute`: one voice-state update. */
  function OnVoiceStateUpdate(rev: Revision, s: Rooms, ev: VoiceStateUpdate, replies: GuildReplies): Step<VoiceOutcome>
  {
    match GetConfig(rev)
    case None => Step(s, Disabled)
    case Some(cfg) =>
      var vacated := Vacate(rev, s, ev.oldChannel);
      var joined := HandleJoin(rev, cfg, vacated.rooms, ev, replies);
      Step(joined.rooms, Handled(vacated.action, joined.action))
  }

  // ---- the invariant of the two collections ----

  /** Every recorded room is a managed room. */
  ghost predicate Consistent(s: Rooms) {
    forall member :: member in s.memberRooms ==> s.memberRooms[member] in s.managedChannels
  }

  /** No two members share a recorded room. */
  ghost predicate OneOwnerPerRoom(s: Rooms) {
    forall a, b :: a in s.memberRooms && b in s.memberRooms && a != b ==> s.memberRooms[a] != s.memberRooms[b]
  }

  /**
   * The effective room ceiling: none when `maxRooms` is missing or zero; a
   * negative setting blocks every creation, which is a ceiling of zero.
   */
  function RoomCap(cfg: RoomConfig): (cap: Option<nat>)
    ensures cap.Some? <==> cfg.maxRooms.Some? && cfg.maxRooms.value != 0
    ensures cap.Some? ==> forall size: nat :: CeilingBlocks(cfg, size) <==> size >= cap.value
  {
    if cfg.maxRooms.None? || cfg.maxRooms.value == 0 then None
    else if cfg.maxRooms.value < 0 then Some(0)
    else Some(cfg.maxRooms.value)
  }

  ghost predicate WithinCeiling(rev: Revision, s: Rooms) {
    GetConfig(rev).Some? && RoomCap(GetConfig(rev).value).Some? ==>
      |s.managedChannels| <= RoomCap(GetConfig(rev).value).value
  }

  ghost predicate Valid(rev: Revision, s: Rooms) {
    Consistent(s) && OneOwnerPerRoom(s) && WithinCeiling(rev, s)
  }

  /**
   * The platform hands out fresh channel ids: a created channel's id is not one
   * the manager already tracks.
   */
  predicate FreshReply(s: Rooms, replies: GuildReplies) {
    replies.create.Created? ==> replies.create.id !in s.managedChannels
  }
}
