/**
 * The cooldown-gated command dispatcher as a function of the bot's three
 * collections: the command registry, the sub-command registry and the
 * cooldown ledger (command name, then user id, to the time of the last
 * accepted invocation in milliseconds).
 *
 * Expiry is by timestamp: an entry whose cooldown has run out gates nothing,
 * which is what the scheduled removal of the entry achieves (VoiceRooms has
 * nothing to do with this module; the two components share no state).
 */
module Commands {
  import opened Wrappers

  /** The fields of a command the dispatcher uses. */
  datatype Command = Command(name: string, cooldown: Option<int>)

  datatype SubCommand = SubCommand(name: string)

  /** A chat-input interaction, or some other kind of interaction. */
  datatype Interaction = Interaction(
    isChatInputCommand: bool,
    commandName: string,
    userId: string,
    subcommandGroup: Option<string>,
    subcommand: Option<string>)

  type Ledger = map<string, map<string, int>>

  datatype Registry = Registry(
    commands: map<string, Command>,
    subCommands: map<string, SubCommand>,
    cooldowns: Ledger)

  /** Which handler receives an accepted invocation. */
  datatype Route = ToSubCommand(key: string) | ToCommand(name: string)

  datatype DispatchOutcome =
    | NotChatInput
    | CommandNotFound
    | OnCooldown(remainingMs: int)
    | Invoked(route: Route)

  datatype DispatchStep = DispatchStep(registry: Registry, outcome: DispatchOutcome)

  const DefaultCooldownSeconds: int := 3

  /** `(command.cooldown || 3) * 1000`. */
  function CooldownAmount(command: Command): (ms: int)
    ensures command.cooldown.None? || command.cooldown.value == 0 ==> ms == 3000
    ensures command.cooldown.Some? && command.cooldown.value != 0 ==> ms == command.cooldown.value * 1000
    ensures ms != 0 && ms % 1000 == 0
  {
    (if command.cooldown.None? || command.cooldown.value == 0 then DefaultCooldownSeconds
     else command.cooldown.value) * 1000
  }

  /** The ledger with a bucket for `name`, created empty on first use. */
  function EnsureBucket(ledger: Ledger, name: string): (r: Ledger)
    ensures name in r && r.Keys == ledger.Keys + {name}
    ensures name in ledger ==> r == ledger
    ensures name !in ledger ==> r[name] == map[]
  {
    if name in ledger then ledger else ledger[name := map[]]
  }

  /** The recorded time of `user`'s last accepted use of `name`, if any. */
  function LastUse(ledger: Ledger, name: string, user: string): Option<int> {
    if name in ledger && user in ledger[name] then Some(ledger[name][user]) else None
  }

  /** The gate: an entry exists and its cooldown has not run out. */
  predicate InCooldown(ledger: Ledger, name: string, user: string, amount: int, now: int) {
    LastUse(ledger, name, user).Some? && now < LastUse(ledger, name, user).value + amount
  }

  /** `timestamps.set(user, now)` in the bucket of `name`. */
  function Record(ledger: Ledger, name: string, user: string, now: int): (r: Ledger)
    ensures LastUse(r, name, user) == Some(now)
    ensures forall n, u :: (n, u) != (name, user) ==> LastUse(r, n, u) == LastUse(ledger, n, u)
  {
    var bucket := if name in ledger then ledger[name] else map[];
    ledger[name := bucket[user := now]]
  }

  /** A JavaScript truthiness test on an optional string. */
  predicate Truthy(o: Option<string>) {
    o.Some? && o.value != ""
  }

  /** `name[.group].sub`, with an empty sub-command name when there is none. */
  function SubCommandKey(commandName: string, group: Option<string>, sub: Option<string>): string {
    commandName + (if Truthy(group) then "." + group.value else "") + "." + (if Truthy(sub) then sub.value else "")
  }

  /** The sub-command handler under `key` when there is one, the command otherwise. */
  function SelectRoute(subCommands: map<string, SubCommand>, key: string, commandName: string): (route: Route)
    ensures route.ToSubCommand? <==> key in subCommands
    ensures route.ToSubCommand? ==> route.key == key
    ensures route.ToCommand? ==> route.name == commandName
  {
    if key in subCommands then ToSubCommand(key) else ToCommand(commandName)
  }

  /** `CommandHandler.Execute` on one interaction at time `now`. */
  function Dispatch(reg: Registry, interaction: Interaction, now: int): DispatchStep {
    if !interaction.isChatInputCommand then DispatchStep(reg, NotChatInput)
    else if interaction.commandName !in reg.commands then
      DispatchStep(reg.(commands := reg.commands - {interaction.commandName}), CommandNotFound)
    else
      var command := reg.commands[interaction.commandName];
      var ledger := EnsureBucket(reg.cooldowns, command.name);
      var amount := CooldownAmount(command);
      if InCooldown(ledger, command.name, interaction.userId, amount, now) then
        DispatchStep(reg.(cooldowns := ledger),
                     OnCooldown(LastUse(ledger, command.name, interaction.userId).value + amount - now))
      else
        var key := SubCommandKey(interaction.commandName, interaction.subcommandGroup, interaction.subcommand);
        DispatchStep(reg.(cooldowns := Record(ledger, command.name, interaction.userId, now)),
                     Invoked(SelectRoute(reg.subCommands, key, interaction.commandName)))
  }
}
