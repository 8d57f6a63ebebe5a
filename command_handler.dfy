/**
 * The interaction handler as the object it is: it owns the command registry,
 * the sub-command registry and the two-level cooldown ledger, and updates them
 * in place. `Execute` is proved to do what Commands.Dispatch says.
 */
module CommandHandlerEvent {
  import opened Wrappers
  import opened Commands

  class CommandHandler {
    var commands: map<string, Command>
    var subCommands: map<string, SubCommand>
    var cooldowns: Ledger

    ghost function State(): Registry
      reads this
    {
      Registry(commands, subCommands, cooldowns)
    }

    constructor (commands: map<string, Command>, subCommands: map<string, SubCommand>)
      ensures State() == Registry(commands, subCommands, map[])
    {
      this.commands := commands;
      this.subCommands := subCommands;
      cooldowns := map[];
    }

    /**
     * `Execute` for one interaction at time `now`: look the command up (and
     * drop an unknown name), create the command's bucket on first use, gate
     * on the last accepted use, record `now`, pick the handler.
     */
    method Execute(interaction: Interaction, now: int) returns (outcome: DispatchOutcome)
      modifies this
      ensures var r := Dispatch(old(State()), interaction, now);
        State() == r.registry && outcome == r.outcome
    {
      if !interaction.isChatInputCommand {
        return NotChatInput;
      }
      if interaction.commandName !in commands {
        commands := commands - {interaction.commandName};
        return CommandNotFound;
      }
      var command := commands[interaction.commandName];

      if command.name !in cooldowns {
        cooldowns := cooldowns[command.name := map[]];
      }
      assert cooldowns == EnsureBucket(old(cooldowns), command.name);
      var timestamps := cooldowns[command.name];
      var cooldownAmount := (if command.cooldown.None? || command.cooldown.value == 0 then DefaultCooldownSeconds
                             else command.cooldown.value) * 1000;
      assert cooldownAmount == CooldownAmount(command);

      if interaction.userId in timestamps && now < timestamps[interaction.userId] + cooldownAmount {
        assert InCooldown(cooldowns, command.name, interaction.userId, cooldownAmount, now);
        return OnCooldown(timestamps[interaction.userId] + cooldownAmount - now);
      }
      assert !InCooldown(cooldowns, command.name, interaction.userId, cooldownAmount, now);

      cooldowns := cooldowns[command.name := timestamps[interaction.userId := now]];
      assert cooldowns == Record(EnsureBucket(old(cooldowns), command.name), command.name, interaction.userId, now);

      var subCommandGroup := interaction.subcommandGroup;
      var key := interaction.commandName
        + (if subCommandGroup.Some? && subCommandGroup.value != "" then "." + subCommandGroup.value else "")
        + "." + (if interaction.subcommand.Some? && interaction.subcommand.value != "" then interaction.subcommand.value else "");
      assert key == SubCommandKey(interaction.commandName, interaction.subcommandGroup, interaction.subcommand);
      if key in subCommands {
        return Invoked(ToSubCommand(key));
      }
      return Invoked(ToCommand(interaction.commandName));
    }
  }
}
