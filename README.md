# Voice rooms and cooldown-gated commands, modelled in Dafny

This project models the two stateful parts of a chat-platform bot and proves
properties about them.

**The ephemeral voice room manager** (`VoiceRoomManager`) reacts to
voice-state updates. It keeps a set of managed room ids and a map from member
to room. It processes each update in this order:

1. The vacate check. If the channel a member left is a managed room and is now
   empty, the manager destroys it.
2. For a human member joining the hub channel:
   - If the member's recorded room still resolves to a voice channel, the
     manager moves the member there.
   - Otherwise it forgets the stale reference.
3. The manager enforces the room ceiling.
4. It creates a room named after the member's display name
   (`"<name>'s Room"`, or "Private Room", at most 100 characters).
5. It registers that room before moving the member in.

Two revisions of the manager exist, and both are modelled as configurations of
one state machine (`VoiceRooms.Revision`):

- **`Current`** (the TypeScript source) reads its settings from the bot's
  configuration. It is disabled without a hub id. Its ceiling is optional, and
  it clamps the bitrate to the guild's maximum.
- **`Compiled`** (the compiled JavaScript) uses hard-coded ids and limits. Its
  ceiling of 15 is always enforced and it does not clamp the bitrate. Its
  vacate check also fires for untracked channels whose name ends in
  `"'s Room"`.

**The command dispatcher** (`CommandHandler`) handles slash-command
interactions:

- An unknown command gets a "not found" reply and is removed from the
  registry.
- A known command is gated by a per-command, per-user cooldown ledger,
  `(cooldown || 3) * 1000` ms long.
- An accepted invocation records `now` and is routed to the sub-command
  registered under `name[.group].sub` when there is one, and to the command
  otherwise.
- The TypeScript and compiled revisions of the dispatcher behave identically.
  One model covers both.

Layout:

| file | module | contents |
|---|---|---|
| `wrappers.dfy` | `Wrappers` | `Option` |
| `channel_name.dfy` | `ChannelName`, `ChannelNameProperties` | the room naming pipeline, stage by stage, and its properties |
| `voice_rooms.dfy` | `VoiceRooms` | the manager's state machine (one event = one atomic step) and its invariant |
| `voice_room_properties.dfy` | `VoiceRoomProperties` | what the manager promises, proved about the state machine |
| `voice_room_manager.dfy` | `VoiceRoomManagerEvent` | the manager as a class with in-place collections; every method proved equal to the state machine |
| `commands.dfy` | `Commands` | the dispatcher as a function of the registry and ledger |
| `command_properties.dfy` | `CommandProperties` | the cooldown gate, isolation, routing, the sub-command key |
| `command_handler.dfy` | `CommandHandlerEvent` | the dispatcher as a class updating its maps in place, proved equal to `Dispatch` |
| `cooldown_timers.dfy` | `CooldownTimers` | the scheduled removal of cooldown entries, as written and corrected (see Findings) |

Every call into the chat platform becomes an input of the step that makes it.
For the manager these inputs are:

- the channel cache it looks recorded rooms up in;
- the guild's maximum bitrate;
- the reply to the create call: a channel with an id and a type, or an
  exception.

For the dispatcher, the clock reading `now` is a parameter. The Unicode letter
and number classes used by the naming rule are a parameter `letterOrNumber`.

Points where the code behaves differently from what one might expect:

- The current revision reads its configuration before the vacate check.
  Without a hub id it does not run the vacate check either.
- The sub-command key always carries a trailing `.` segment, which is empty
  when there is no sub-command.
- A `maxRooms` of 0 means "no ceiling".
- No member→room injectivity holds unconditionally. It holds when the platform
  hands out fresh channel ids (`VoiceRooms.FreshReply`).

## Model

| member | source | states |
|---|---|---|
| ChannelName.IsJsWhitespace | src/events/guild/VoiceRoomManager.ts:157-158 | definition of ECMAScript whitespace and line terminators, the set of `\s` and `trim()`; properties in Trim, Sanitise |
| ChannelName.IsLineBreak | src/events/guild/VoiceRoomManager.ts:156 | definition of `[\n\r]`; properties in CollapseLineBreaks, CollapseOneRun |
| ChannelName.Kept | src/events/guild/VoiceRoomManager.ts:157 | definition of the class `[\p{L}\p{N}\s'-]`; properties in StripDisallowed, StripOne, StripDisallowedCounts |
| ChannelName.LineBreakRunEnd | src/events/guild/VoiceRoomManager.ts:156 | the end of a line-break run: everything skipped is CR/LF and the character it stops at is not |
| ChannelName.CollapseLineBreaks | src/events/guild/VoiceRoomManager.ts:156 | `replace(/[\n\r]+/g, " ")` leaves no CR/LF and never lengthens the string |
| ChannelNameProperties.CollapseOneRun | src/events/guild/VoiceRoomManager.ts:156 | a maximal CR/LF run after a break-free prefix becomes exactly one space, and the replacement continues after it |
| ChannelNameProperties.CollapseRunAtStart | src/events/guild/VoiceRoomManager.ts:156 | a CR/LF run at the start becomes one space and the replacement continues after it |
| ChannelNameProperties.CollapseKeepsHead | src/events/guild/VoiceRoomManager.ts:156 | a character that is no CR/LF passes the replacement unchanged |
| ChannelNameProperties.RunEndsAtRest | src/events/guild/VoiceRoomManager.ts:156 | a run of CR/LF followed by anything else ends exactly where the run does |
| ChannelNameProperties.CollapseWithoutLineBreaks | src/events/guild/VoiceRoomManager.ts:156 | a string with no CR/LF is unchanged by the replacement |
| ChannelNameProperties.CollapseExample | src/events/guild/VoiceRoomManager.ts:156 | `"a/b\n<c>"` becomes `"a/b <c>"` |
| ChannelName.StripDisallowed | src/events/guild/VoiceRoomManager.ts:157 | every remaining character is a letter, number, whitespace, `'` or `-`; the string does not grow; no line break appears |
| ChannelName.StripOne | src/events/guild/VoiceRoomManager.ts:157 | a single character stays exactly when it is a letter, number, whitespace, `'` or `-` |
| ChannelName.StripConcat | src/events/guild/VoiceRoomManager.ts:157 | stripping distributes over concatenation, so the kept characters stay in their original order |
| ChannelName.StripDisallowedCounts | src/events/guild/VoiceRoomManager.ts:157 | each allowed character keeps its number of occurrences and each other character has none; with StripConcat and StripOne, exactly the disallowed ones are removed and the rest keep their order |
| ChannelNameProperties.StripExampleTail | src/events/guild/VoiceRoomManager.ts:157 | the tail `" <c>"` of `"a/b <c>"` keeps `" c"` when `<` and `>` are not letters |
| ChannelNameProperties.StripExample | src/events/guild/VoiceRoomManager.ts:157 | `"a/b <c>"` keeps `"ab c"` when `/`, `<`, `>` are not letters |
| ChannelName.LeadingWhitespace | src/events/guild/VoiceRoomManager.ts:158 | the end of the leading whitespace: everything before it is ECMAScript whitespace and the character at it is not |
| ChannelName.TrailingWhitespace | src/events/guild/VoiceRoomManager.ts:158 | the start of the trailing whitespace: everything from it to the end is whitespace and the character before it is not |
| ChannelName.Trim | src/events/guild/VoiceRoomManager.ts:158 | a contiguous slice of the input with no whitespace at either edge, everything cut on both sides being whitespace |
| ChannelName.SliceKeeps | src/events/guild/VoiceRoomManager.ts:155-158 | a property of every character of a string carries over to every contiguous slice of it |
| ChannelNameProperties.TrimExample | src/events/guild/VoiceRoomManager.ts:158 | `"ab c"` is already trimmed |
| ChannelName.Sanitise | src/events/guild/VoiceRoomManager.ts:155-158 | the base name has only allowed characters, no line break, no whitespace at its edges, and is no longer than the display name |
| ChannelNameProperties.SanitiseExample | src/events/guild/VoiceRoomManager.ts:155-158 | `"a/b\n<c>"` sanitises to `"ab c"` |
| ChannelName.Truncate | src/events/guild/VoiceRoomManager.ts:162 | `substring(0, n)`: the first `min(len, n)` characters |
| ChannelName.BuildChannelName | src/events/guild/VoiceRoomManager.ts:154-163 | at most 100 characters; "Private Room" when the base is empty; otherwise the longest prefix of base + "'s Room" within the limit |
| ChannelNameProperties.FallbackExactlyWhenBaseEmpty | src/events/guild/VoiceRoomManager.ts:160 | the name is "Private Room" if and only if the sanitised base is empty |
| ChannelNameProperties.ShortBaseKeepsSuffix | src/events/guild/VoiceRoomManager.ts:160-162 | a base of at most 93 characters keeps the whole "'s Room" suffix |
| ChannelNameProperties.ExampleBaseName | src/events/guild/VoiceRoomManager.ts:160-162 | base `"ab c"` gives the room `"ab c's Room"` |
| ChannelNameProperties.RoomNameExample | src/events/guild/VoiceRoomManager.ts:154-163 | display name `"a/b\n<c>"` gives the room `"ab c's Room"` |
| VoiceRooms.OnVoiceStateUpdate | src/events/guild/VoiceRoomManager.ts:36-81 | definition of one event: settings, vacate check, join part; properties in EventKeepsConsistencyAndCeiling, EventPreservesValid, MissingHubIsNoOp, OnlyConfirmedRoomsAreRegistered |
| VoiceRooms.HandleJoin | src/events/guild/VoiceRoomManager.ts:42-80 | definition of the join part; properties in JoinKeepsConsistencyAndCeiling, JoinPreservesValid, JoinRegistersOnlyConfirmed, ReuseChangesNothing, StaleRoomIsPurged, CeilingBlocksCreation |
| VoiceRooms.Vacate | src/events/guild/VoiceRoomManager.ts:92-101 | definition of the vacate check; properties in VacateDestroysExactlyEmptyRooms, VacatePreservesValid |
| VoiceRooms.VacateFires | build/events/guild/VoiceRoomManager.js:75-88 | definition of when the vacate check destroys (tracked, or in the compiled revision named like a room, and empty); properties in CurrentDestroysOnlyTracked, CompiledDestroysRoomLookalike |
| VoiceRooms.Destroy | src/events/guild/VoiceRoomManager.ts:129-137 | definition of `destroyVoiceRoom` on the collections; properties in DestroyForgetsRoom, DestroyPreservesValid, DestroyUntrackedIsNoOp |
| VoiceRooms.HasRecordedRoom | src/events/guild/VoiceRoomManager.ts:47-48 | definition of a truthy recorded room; properties in ReuseChangesNothing, StaleRoomIsPurged |
| VoiceRooms.PurgeRecordedRoom | src/events/guild/VoiceRoomManager.ts:59-60 | definition of the stale-reference cleanup; properties in PurgePreservesValid, StaleRoomIsPurged |
| VoiceRooms.CeilingBlocks | src/events/guild/VoiceRoomManager.ts:63 | definition of the ceiling test; properties in RoomCap, CeilingBlocksCreation, CompiledCeilingIsFifteen |
| VoiceRooms.Register | src/events/guild/VoiceRoomManager.ts:73-74 | definition of the registration; properties in RegisterKeepsConsistency, RegisterFreshPreservesValid |
| VoiceRooms.IsVoiceChannel | src/events/guild/VoiceRoomManager.ts:165-167 | definition of `isVoiceChannel`; properties in CreatedRoomId |
| VoiceRooms.CacheGet | src/events/guild/VoiceRoomManager.ts:49 | definition of the cache lookup; properties in ReuseChangesNothing |
| VoiceRooms.Resolves | src/events/guild/VoiceRoomManager.ts:49-50 | definition of a recorded room that still resolves to a voice channel; properties in ReuseChangesNothing, StaleRoomIsPurged |
| VoiceRooms.EndsWith | build/events/guild/VoiceRoomManager.js:81 | definition of `endsWith`; properties in CompiledDestroysRoomLookalike |
| VoiceRooms.GetConfig | src/events/guild/VoiceRoomManager.ts:83-90 | no settings exactly when the section or its hub id is missing; the compiled revision always has its constants |
| VoiceRooms.ResolveBitrate | src/events/guild/VoiceRoomManager.ts:147-152 | none for a missing or zero request; otherwise the minimum of the request and the guild's maximum |
| VoiceRooms.CreatedRoomId | src/events/guild/VoiceRoomManager.ts:112-126 | a room id only when the create call returned a voice channel; none on an exception or another type |
| VoiceRooms.CreateRequest.Name | src/events/guild/VoiceRoomManager.ts:108 | the create call's name: at most 100 characters, "Private Room" exactly when the sanitised display name is empty |
| VoiceRooms.CreateRequest.Reason | src/events/guild/VoiceRoomManager.ts:119 | the audit reason: the fixed prefix followed by the display name, unchanged; see ReasonDeterminesDisplayName |
| VoiceRoomProperties.ReasonDeterminesDisplayName | src/events/guild/VoiceRoomManager.ts:119 | two create requests with the same audit reason were made for the same display name |
| VoiceRooms.CreateRequestFor | src/events/guild/VoiceRoomManager.ts:103-120 | the request carries the member's display name (from which name and reason derive), parent and user limit from the settings, the bitrate clamped in the current revision and passed through in the compiled one |
| VoiceRooms.WithoutRoom | src/events/guild/VoiceRoomManager.ts:132-136 | exactly the entries that do not point at the room remain, with their values |
| VoiceRooms.RoomCap | src/events/guild/VoiceRoomManager.ts:63 | the ceiling `config.maxRooms && size >= maxRooms`: a ceiling exactly when maxRooms is set and non-zero, blocking exactly the sizes at or above it |
| VoiceRoomProperties.SubsetSize | src/events/guild/VoiceRoomManager.ts:130 | removing rooms never increases the room count |
| VoiceRoomProperties.DestroyForgetsRoom | src/events/guild/VoiceRoomManager.ts:129-137 | after a destroy the room is neither managed nor anyone's room; every other room and entry is untouched |
| VoiceRoomProperties.DestroyPreservesValid | src/events/guild/VoiceRoomManager.ts:129-137 | destroying a room keeps the invariant |
| VoiceRoomProperties.DestroyUntrackedIsNoOp | build/events/guild/VoiceRoomManager.js:109-116 | destroying an untracked room leaves consistent collections unchanged |
| VoiceRoomProperties.VacateDestroysExactlyEmptyRooms | src/events/guild/VoiceRoomManager.ts:92-101 | the left channel is destroyed if and only if it is empty and tracked (compiled: or named like a room); otherwise nothing changes |
| VoiceRoomProperties.CurrentDestroysOnlyTracked | src/events/guild/VoiceRoomManager.ts:96 | the current revision never destroys an untracked channel |
| VoiceRoomProperties.CompiledDestroysRoomLookalike | build/events/guild/VoiceRoomManager.js:81-85 | the compiled revision destroys an empty untracked "...'s Room" channel and its collections stay as they were |
| VoiceRoomProperties.MissingHubIsNoOp | src/events/guild/VoiceRoomManager.ts:37-38 | without a hub id the event changes nothing, not even by the vacate check |
| VoiceRoomProperties.IneligibleJoinStopsAfterVacate | src/events/guild/VoiceRoomManager.ts:40-43 | a non-hub destination or a missing or bot member ends the event after the vacate check |
| VoiceRoomProperties.ReuseChangesNothing | src/events/guild/VoiceRoomManager.ts:47-57 | a recorded room that resolves to a voice channel is reused: the member is moved there and nothing changes |
| VoiceRoomProperties.StaleRoomIsPurged | src/events/guild/VoiceRoomManager.ts:59-60 | a stale recorded room is removed from both collections before the ceiling; the member then has no room or the new one |
| VoiceRoomProperties.StaleRoomIsReplaced | src/events/guild/VoiceRoomManager.ts:59-74 | after a successful creation the member's entry names the new room and the stale one is no longer managed |
| VoiceRoomProperties.CeilingBlocksCreation | src/events/guild/VoiceRoomManager.ts:63-68 | at or above the ceiling nothing is created and nothing changes beyond the stale cleanup |
| VoiceRoomProperties.CompiledCeilingIsFifteen | build/events/guild/VoiceRoomManager.js:59-62 | the compiled revision refuses creation once 15 rooms are managed |
| VoiceRoomProperties.FailedCreationRegistersNothing | src/events/guild/VoiceRoomManager.ts:70-71 | a create exception or a non-voice reply registers nothing |
| VoiceRoomProperties.OnlyConfirmedRoomsAreRegistered | src/events/guild/VoiceRoomManager.ts:70-74 | a room becomes managed only when the platform confirmed its creation, and it is the only one that can; otherwise no room or member is added |
| VoiceRoomProperties.JoinRegistersOnlyConfirmed | src/events/guild/VoiceRoomManager.ts:42-74 | the join part adds a managed room only when the platform confirmed it, and records it for the member; otherwise it adds no room and no member |
| VoiceRoomProperties.PurgePreservesValid | src/events/guild/VoiceRoomManager.ts:59-60 | the stale cleanup keeps the invariant |
| VoiceRoomProperties.RegisterKeepsConsistency | src/events/guild/VoiceRoomManager.ts:63-74 | registration below the ceiling keeps recorded rooms managed and the count within the ceiling |
| VoiceRoomProperties.RegisterFreshPreservesValid | src/events/guild/VoiceRoomManager.ts:73-74 | registering a fresh room keeps the whole invariant, one owner per room included |
| VoiceRoomProperties.VacatePreservesValid | src/events/guild/VoiceRoomManager.ts:92-101 | the vacate check keeps the invariant and never adds a room |
| VoiceRoomProperties.JoinKeepsConsistencyAndCeiling | src/events/guild/VoiceRoomManager.ts:42-80 | the join part keeps consistency and the ceiling whatever the platform answers |
| VoiceRoomProperties.JoinPreservesValid | src/events/guild/VoiceRoomManager.ts:42-80 | with a fresh id, the join part keeps the whole invariant |
| VoiceRoomProperties.EventKeepsConsistencyAndCeiling | src/events/guild/VoiceRoomManager.ts:36-81 | every event keeps recorded rooms managed and the number of managed rooms within `maxRooms` |
| VoiceRoomProperties.EventPreservesValid | src/events/guild/VoiceRoomManager.ts:36-81 | with fresh ids, every event keeps at most one room per member and one owner per room |
| VoiceRoomProperties.RepeatedJoinReusesRoom | src/events/guild/VoiceRoomManager.ts:47-57 | a second hub join by the same member reuses the room the first created, unless that join empties the room on the way |
| VoiceRoomProperties.ScenarioFirstJoin | src/events/guild/VoiceRoomManager.ts:70-74 | hub "H", ceiling 1: A joins, room "1" is created from the request for display name "A", named "A's Room" when `A` is a letter, and recorded for A |
| VoiceRoomProperties.ScenarioRoomName | src/events/guild/VoiceRoomManager.ts:108 | the first join's request names its room "A's Room" |
| VoiceRoomProperties.ScenarioSecondJoinRefused | src/events/guild/VoiceRoomManager.ts:63-68 | B joining while A's room exists is refused and nothing changes |
| VoiceRoomProperties.ScenarioOwnerLeaves | src/events/guild/VoiceRoomManager.ts:92-101 | A leaving the empty room destroys it and empties both collections |
| VoiceRoomProperties.ScenarioLastJoin | src/events/guild/VoiceRoomManager.ts:70-74 | B joining again gets room "2", requested for display name "B" |
| VoiceRoomProperties.SingleLetterName | src/events/guild/VoiceRoomManager.ts:154-163 | a one-letter display name gives `"<letter>'s Room"` |
| VoiceRoomManagerEvent.VoiceRoomManager.constructor | src/events/guild/VoiceRoomManager.ts:24-34 | both collections start empty and the invariant holds |
| VoiceRoomManagerEvent.VoiceRoomManager.DestroyVoiceRoom | src/events/guild/VoiceRoomManager.ts:129-145 | the loop over the map leaves the collections as `Destroy` says; a delete is issued exactly when the channel is deletable |
| VoiceRoomManagerEvent.VoiceRoomManager.HandleVacatedChannel | build/events/guild/VoiceRoomManager.js:75-88 | the collections and the action are those of `Vacate` for the manager's revision |
| VoiceRoomManagerEvent.VoiceRoomManager.Execute | src/events/guild/VoiceRoomManager.ts:36-81 | the in-place updates give the state and action of `OnVoiceStateUpdate`; from collections meeting the invariant, consistency and the ceiling hold afterwards, and the whole invariant again under a fresh id |
| VoiceRoomManagerEvent.VoiceRoomManager.HandleHubJoin | src/events/guild/VoiceRoomManager.ts:42-80 | the reuse, stale cleanup, ceiling, creation and registration in place give the state and action of `HandleJoin` |
| Commands.Dispatch | src/events/guild/CommandHandler.ts:21-86 | definition of one interaction; properties in OtherInteractionsIgnored, UnknownCommandIsRejected, RejectedExactlyWithinCooldown, RejectionChangesNothing, AcceptanceRecordsNow, CooldownsAreIsolated, RoutePrefersSubCommand |
| Commands.LastUse | src/events/guild/CommandHandler.ts:45-48 | definition of the recorded last use; properties in Record, EnsureBucketKeepsEntries |
| Commands.InCooldown | src/events/guild/CommandHandler.ts:45-48 | definition of the gate; properties in RejectedExactlyWithinCooldown, RecordedEntryGatesForCooldown, GuardedRemovalKeepsGate |
| Commands.Truthy | src/events/guild/CommandHandler.ts:72-74 | definition of JavaScript truthiness of an optional string; properties in SubCommandKeyParts |
| Commands.SubCommandKey | src/events/guild/CommandHandler.ts:72-74 | definition of the key `name[.group].sub`; properties in SubCommandKeyParts, SubCommandKeyInjective |
| Commands.CooldownAmount | src/events/guild/CommandHandler.ts:43 | `(cooldown || 3) * 1000`: 3000 ms for a missing or zero cooldown, never zero, a whole number of seconds |
| Commands.EnsureBucket | src/events/guild/CommandHandler.ts:37-39 | a bucket for the command exists afterwards, a new one is empty, an existing one is kept |
| Commands.Record | src/events/guild/CommandHandler.ts:67 | the user's last use of the command becomes `now`; every other (command, user) entry is unchanged |
| Commands.SelectRoute | src/events/guild/CommandHandler.ts:75-80 | the sub-command handler exactly when one is registered under the key, otherwise the command |
| CommandProperties.OtherInteractionsIgnored | src/events/guild/CommandHandler.ts:23 | an interaction that is no chat-input command changes nothing |
| CommandProperties.UnknownCommandIsRejected | src/events/guild/CommandHandler.ts:28-35 | an unknown command gets "not found", is absent from the registry afterwards, and the ledger is unchanged |
| CommandProperties.EnsureBucketKeepsEntries | build/events/guild/CommandHandler.js:38-40 | creating a bucket changes no recorded use |
| CommandProperties.RejectedExactlyWithinCooldown | src/events/guild/CommandHandler.ts:45-65 | a known command is refused if and only if the user has an entry and `now < entry + cooldown`; otherwise it runs |
| CommandProperties.RejectionChangesNothing | src/events/guild/CommandHandler.ts:45-65 | a refusal leaves registry and ledger exactly as they were and runs no handler |
| CommandProperties.AcceptedWhenCooldownEnds | src/events/guild/CommandHandler.ts:47 | at `now == entry + cooldown` the invocation is accepted |
| CommandProperties.RemainingWaitBounded | src/events/guild/CommandHandler.ts:54-59 | the reported wait is `entry + cooldown - now` ms, positive, and at most the cooldown when the entry is not in the future |
| CommandProperties.AcceptanceRecordsNow | src/events/guild/CommandHandler.ts:67 | acceptance records `now` for (command, user) and no other entry changes |
| CommandProperties.RecordedEntryGatesForCooldown | src/events/guild/CommandHandler.ts:45-68 | after acceptance at `now`, the same user and command is refused exactly before `now + cooldown` |
| CommandProperties.CooldownsAreIsolated | build/events/guild/CommandHandler.js:38-59 | a dispatch changes the gate of no other (command, user) pair, at any time |
| CommandProperties.ExpiredEntryActsAbsent | src/events/guild/CommandHandler.ts:68 | deleting an entry whose cooldown is over changes no dispatch |
| CommandProperties.RoutePrefersSubCommand | src/events/guild/CommandHandler.ts:71-80 | an accepted invocation runs exactly one handler: the sub-command under the key if registered, the command otherwise |
| CommandProperties.FirstDot | src/events/guild/CommandHandler.ts:72-74 | the position of the first `.`, with none before it |
| CommandProperties.FirstDotAfterPrefix | src/events/guild/CommandHandler.ts:72-74 | after a dot-free part, the first `.` is the separator |
| CommandProperties.SplitDotFree | src/events/guild/CommandHandler.ts:72-74 | a dot-free part splits into itself |
| CommandProperties.SplitTwo | src/events/guild/CommandHandler.ts:72-74 | `a.b` with dot-free parts splits into `[a, b]` |
| CommandProperties.SplitThree | src/events/guild/CommandHandler.ts:72-74 | `a.b.c` with dot-free parts splits into `[a, b, c]` |
| CommandProperties.SplitAfterPrefix | src/events/guild/CommandHandler.ts:72-74 | splitting `a + "." + b` gives `a` followed by the parts of `b` |
| CommandProperties.SubCommandKeyParts | src/events/guild/CommandHandler.ts:72-74 | the key splits back into command name, the group when present, and the sub-command (empty when absent) |
| CommandProperties.SubCommandKeyInjective | src/events/guild/CommandHandler.ts:72-74 | dot-free invocations share a key only with the same command, group and sub-command |
| CommandProperties.PingCooldownScenario | src/events/guild/CommandHandler.ts:41-68 | a 3 s cooldown: use at 0 runs, at 1.5 s is refused with 1500 ms to wait, at 3.1 s runs |
| CommandProperties.IsolationScenario | build/events/guild/CommandHandler.js:38-60 | one user's cooldown on one command blocks neither another user nor another command |
| CommandHandlerEvent.CommandHandler.constructor | src/base/classes/CustomClient.ts:23-25 | the registries are the given ones and the ledger starts empty |
| CommandHandlerEvent.CommandHandler.Execute | src/events/guild/CommandHandler.ts:21-86 | the in-place deletion, bucket creation and `set` give the registry and outcome of `Dispatch` |
| CooldownTimers.TimerDelay | src/events/guild/CommandHandler.ts:68 | the timer's actual delay: the requested one if and only if it is within 1 .. 2^31 - 1 ms, otherwise 1 ms |
| CooldownTimers.Schedule | src/events/guild/CommandHandler.ts:68 | the removal is due at `now + cooldown` if and only if the cooldown is within Node's range; always within 2^31 - 1 ms |
| CooldownTimers.FireAsWritten | src/events/guild/CommandHandler.ts:68 | the removal as written deletes the entry whatever it holds and nothing else |
| CooldownTimers.LongCooldownAsWritten | src/events/guild/CommandHandler.ts:68 | a 2147484 s cooldown: the entry goes after 1 ms and a use 2 ms in is accepted inside the cooldown |
| CooldownTimers.LeftoverRemovalAsWritten | src/events/guild/CommandHandler.ts:67-68 | the removal of an earlier use deletes a later use's entry, and the user is accepted inside the new cooldown |
| CooldownTimers.FireIfExpired | src/events/guild/CommandHandler.ts:68 | the corrected removal keeps the entry while its cooldown lasts and deletes it after; nothing else changes |
| CooldownTimers.GuardedRemovalKeepsGate | src/events/guild/CommandHandler.ts:45-68 | a corrected removal changes no gate decision from then on |
| CooldownTimers.GuardedRemovalKeepsDispatch | src/events/guild/CommandHandler.ts:45-68 | the next dispatch, whenever it comes after the corrected removal, answers the same as without the removal |
| CooldownTimers.SameUsesStep | src/events/guild/CommandHandler.ts:21-86 | registries with the same registries and recorded uses answer a dispatch alike and stay alike |
| CooldownTimers.FiredStep | src/events/guild/CommandHandler.ts:45-68 | one dispatch no earlier than the corrected removal answers as without it, and afterwards the two registries again agree or differ only by that removal |
| CooldownTimers.FiredStepOwnEntry | src/events/guild/CommandHandler.ts:45-68 | a use by the removed entry's user and command is accepted on both sides and leaves them agreeing |
| CooldownTimers.FiredStepOtherEntry | src/events/guild/CommandHandler.ts:45-68 | a use by anyone else answers alike and leaves the removed entry the only difference |
| CooldownTimers.Replay | src/events/guild/CommandHandler.ts:21-86 | the outcomes of a sequence of dispatches, one per event, the first being that event's dispatch |
| CooldownTimers.ReplayRelated | src/events/guild/CommandHandler.ts:45-68 | two registries that agree, or differ only by a corrected removal, give the same outcomes for every sequence of later dispatches |
| CooldownTimers.GuardedRemovalKeepsLaterDispatches | src/events/guild/CommandHandler.ts:45-68 | a corrected removal changes the outcome of no later dispatch, over any sequence of dispatches from then on |
| CooldownTimers.LeftoverRemovalCorrected | src/events/guild/CommandHandler.ts:67-68 | in the leftover-removal example the corrected removal keeps the entry and the use at 3001 ms is refused |

## Left out

- I/O: the reply embeds, console logging, the `toFixed(1)` seconds text, the
  move calls and the delete call. The failures of the move and delete calls
  are swallowed. A failed `interaction.reply` is not caught and rejects the
  dispatcher's `Execute`. The collections still end as the model says: the
  "not found" reply comes before deleting a key that is absent anyway, and the
  cooldown reply comes after the bucket is created and before anything is
  recorded, where the model's refusal stops too. The wait is stated in integer
  milliseconds.
- Concurrency across `await` points. Each voice-state update is one atomic
  step, so the ceiling and consistency proofs assume no interleaving, for
  example between the ceiling check and the registration.
- The Unicode `\p{L}` and `\p{N}` tables. They are the parameter
  `letterOrNumber` of the naming functions. The create request holds the
  display name, and `CreateRequest.Name(letterOrNumber)` and
  `CreateRequest.Reason()` derive the channel name and the audit reason from
  it.
- ChannelName.Truncate / ChannelName.BuildChannelName: strings are sequences
  of Unicode scalar values, not UTF-16 code units, so `substring(0, 100)` is
  modelled on characters. A letter outside the Basic Multilingual Plane (such
  as U+1D400, which is in `\p{L}`) is two code units in the source, so the
  source's `substring(0, 100)` can keep fewer characters than the model does
  and can cut such a surrogate pair in half. The "93 characters" of
  `ShortBaseKeepsSuffix` likewise counts code points.
- Fractional and non-finite numbers (`NaN`, fractional cooldowns, bitrates or
  limits). All settings and timestamps are integers.
- Start-up and wiring: `src/index.ts`, `Ready.ts` command registration, the
  client's login and configuration loading, and the command classes beyond
  their name and cooldown. `src/base/classes/CustomClient.ts` is cited only for
  the three collections it creates.
- Commands.Dispatch: the main model expires ledger entries by timestamp and has
  no timers. An expired entry gates nothing. The `setTimeout` removal is in
  `CooldownTimers` on its own, with `ExpiredEntryActsAbsent`,
  `GuardedRemovalKeepsDispatch` and `GuardedRemovalKeepsLaterDispatches`
  relating the two.
- VoiceRoomManagerEvent.VoiceRoomManager.Execute: its invariant clauses hold
  only from collections that meet the invariant, and the full invariant again
  only when the platform's reply carries a fresh channel id (`FreshReply`).
  One owner per room cannot hold without that, and over several events
  consistency rests on it too: once two members share a room, the stale
  cleanup for one leaves the other pointing at an unmanaged room.
- What the invoked handler does, and exceptions it throws. Running a handler
  is the outcome `Invoked(route)`.

## Findings

| source | as written | input that shows it | evidently intended | confidence | as-written member | corrected member |
|---|---|---|---|---|---|---|
| src/events/guild/CommandHandler.ts:68 | `setTimeout(() => timestamps.delete(user), cooldownAmount)`; Node runs a delay above 2^31 - 1 ms after 1 ms | a command with `cooldown` 2147484 s, used at 0 and again at 2 ms | the entry gates the user for the whole cooldown | not executed | CooldownTimers.LongCooldownAsWritten | CooldownTimers.GuardedRemovalKeepsLaterDispatches |
| src/events/guild/CommandHandler.ts:67-68 | the scheduled removal deletes the entry whatever it holds | 3 s cooldown; use at 0, use again at 3000 before the first removal has run, use at 3001 | a removal deletes only the entry of the use that scheduled it, once that use's cooldown is over | not executed | CooldownTimers.LeftoverRemovalAsWritten | CooldownTimers.FireIfExpired |
