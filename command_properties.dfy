/** What the command dispatcher promises, proved about Dispatch. */
module CommandProperties {
  import opened Wrappers
  import opened Commands

  /** The command an interaction names, when it is registered. */
  predicate Known(reg: Registry, interaction: Interaction) {
    interaction.isChatInputCommand && interaction.commandName in reg.commands
  }

  /** An interaction that is not a chat-input command changes nothing. */
  lemma OtherInteractionsIgnored(reg: Registry, interaction: Interaction, now: int)
    requires !interaction.isChatInputCommand
    ensures Dispatch(reg, interaction, now) == DispatchStep(reg, NotChatInput)
  {
  }

  /**
   * An unknown command gets the "not found" reply, is removed from the
   * registry, and leaves the cooldown ledger alone.
   */
  lemma UnknownCommandIsRejected(reg: Registry, interaction: Interaction, now: int)
    requires interaction.isChatInputCommand && interaction.commandName !in reg.commands
    ensures var r := Dispatch(reg, interaction, now);
      && r.outcome == CommandNotFound
      && interaction.commandName !in r.registry.commands
      && r.registry.commands == reg.commands - {interaction.commandName}
      && r.registry.cooldowns == reg.cooldowns
      && r.registry.subCommands == reg.subCommands
  {
  }

  /**
   * The gate: a known command is refused exactly when the user has an entry
   * for it and `now < entry + cooldown`; otherwise it runs.
   */
  lemma RejectedExactlyWithinCooldown(reg: Registry, interaction: Interaction, now: int)
    requires Known(reg, interaction)
    ensures var command := reg.commands[interaction.commandName];
      var r := Dispatch(reg, interaction, now);
      && (r.outcome.OnCooldown? <==>
            LastUse(reg.cooldowns, command.name, interaction.userId).Some? &&
            now < LastUse(reg.cooldowns, command.name, interaction.userId).value + CooldownAmount(command))
      && (r.outcome.OnCooldown? || r.outcome.Invoked?)
  {
    var command := reg.commands[interaction.commandName];
    EnsureBucketKeepsEntries(reg.cooldowns, command.name);
  }

  lemma EnsureBucketKeepsEntries(ledger: Ledger, name: string)
    ensures forall n, u :: LastUse(EnsureBucket(ledger, name), n, u) == LastUse(ledger, n, u)
  {
  }

  /** A refused invocation runs no handler and changes neither registry nor ledger. */
  lemma RejectionChangesNothing(reg: Registry, interaction: Interaction, now: int)
    requires Dispatch(reg, interaction, now).outcome.OnCooldown?
    ensures Dispatch(reg, interaction, now).registry == reg
  {
    var command := reg.commands[interaction.commandName];
    assert command.name in reg.cooldowns;
  }

  /** Exactly when the cooldown has run out, the invocation is accepted again. */
  lemma AcceptedWhenCooldownEnds(reg: Registry, interaction: Interaction, now: int)
    requires Known(reg, interaction)
    requires var command := reg.commands[interaction.commandName];
      var last := LastUse(reg.cooldowns, command.name, interaction.userId);
      last.Some? && now == last.value + CooldownAmount(command)
    ensures Dispatch(reg, interaction, now).outcome.Invoked?
  {
    RejectedExactlyWithinCooldown(reg, interaction, now);
  }

  /**
   * The wait reported on refusal is positive and, when the entry is not in
   * the future, at most the full cooldown.
   */
  lemma RemainingWaitBounded(reg: Registry, interaction: Interaction, now: int)
    requires Known(reg, interaction)
    requires Dispatch(reg, interaction, now).outcome.OnCooldown?
    ensures var command := reg.commands[interaction.commandName];
      var wait := Dispatch(reg, interaction, now).outcome.remainingMs;
      var last := LastUse(reg.cooldowns, command.name, interaction.userId).value;
      && wait == last + CooldownAmount(command) - now
      && 0 < wait
      && (last <= now ==> wait <= CooldownAmount(command))
  {
    var command := reg.commands[interaction.commandName];
    EnsureBucketKeepsEntries(reg.cooldowns, command.name);
  }

  /**
   * An accepted invocation records `now` for (command, user) before its
   * handler runs, and no other (command, user) entry changes.
   */
  lemma AcceptanceRecordsNow(reg: Registry, interaction: Interaction, now: int)
    requires Known(reg, interaction)
    requires Dispatch(reg, interaction, now).outcome.Invoked?
    ensures var command := reg.commands[interaction.commandName];
      var ledger := Dispatch(reg, interaction, now).registry.cooldowns;
      && LastUse(ledger, command.name, interaction.userId) == Some(now)
      && (forall n, u :: (n, u) != (command.name, interaction.userId) ==>
            LastUse(ledger, n, u) == LastUse(reg.cooldowns, n, u))
  {
    var command := reg.commands[interaction.commandName];
    EnsureBucketKeepsEntries(reg.cooldowns, command.name);
  }

  /**
   * The entry just recorded gates the same user and command for exactly the
   * cooldown: refused before `now + cooldown`, accepted from then on.
   */
  lemma RecordedEntryGatesForCooldown(reg: Registry, interaction: Interaction, now: int, later: int)
    requires Known(reg, interaction)
    requires Dispatch(reg, interaction, now).outcome.Invoked?
    requires now <= later
    ensures var command := reg.commands[interaction.commandName];
      var next := Dispatch(Dispatch(reg, interaction, now).registry, interaction, later);
      next.outcome.OnCooldown? <==> later < now + CooldownAmount(command)
  {
    var command := reg.commands[interaction.commandName];
    AcceptanceRecordsNow(reg, interaction, now);
    var reg' := Dispatch(reg, interaction, now).registry;
    assert reg'.commands == reg.commands;
    RejectedExactlyWithinCooldown(reg', interaction, later);
  }

  /**
   * Isolation: after any dispatch, the gate for every other (command, user)
   * pair decides as it did before, at any time.
   */
  lemma CooldownsAreIsolated(reg: Registry, interaction: Interaction, now: int,
                             name: string, user: string, amount: int, later: int)
    requires Known(reg, interaction)
    requires (name, user) != (reg.commands[interaction.commandName].name, interaction.userId)
    ensures InCooldown(Dispatch(reg, interaction, now).registry.cooldowns, name, user, amount, later)
        == InCooldown(reg.cooldowns, name, user, amount, later)
  {
    var command := reg.commands[interaction.commandName];
    EnsureBucketKeepsEntries(reg.cooldowns, command.name);
  }

  /**
   * Expiry by timestamp: deleting an entry whose cooldown has run out (what
   * the scheduled removal does) changes no later dispatch.
   */
  lemma ExpiredEntryActsAbsent(reg: Registry, interaction: Interaction, now: int)
    requires Known(reg, interaction)
    requires var command := reg.commands[interaction.commandName];
      var last := LastUse(reg.cooldowns, command.name, interaction.userId);
      last.Some? && now >= last.value + CooldownAmount(command)
    ensures var command := reg.commands[interaction.commandName];
      var bucket := reg.cooldowns[command.name];
      var expired := reg.(cooldowns := reg.cooldowns[command.name := bucket - {interaction.userId}]);
      Dispatch(expired, interaction, now) == Dispatch(reg, interaction, now)
  {
    var command := reg.commands[interaction.commandName];
    var bucket := reg.cooldowns[command.name];
    var expired := reg.(cooldowns := reg.cooldowns[command.name := bucket - {interaction.userId}]);
    RejectedExactlyWithinCooldown(reg, interaction, now);
    RejectedExactlyWithinCooldown(expired, interaction, now);
    var l1 := Record(EnsureBucket(reg.cooldowns, command.name), command.name, interaction.userId, now);
    var l2 := Record(EnsureBucket(expired.cooldowns, command.name), command.name, interaction.userId, now);
    assert l1[command.name] == l2[command.name];
    assert l1 == l2;
  }

  /**
   * Routing: an accepted invocation runs exactly one handler, the
   * sub-command registered under `name[.group].sub` when there is one and the
   * top-level command otherwise.
   */
  lemma RoutePrefersSubCommand(reg: Registry, interaction: Interaction, now: int)
    requires Dispatch(reg, interaction, now).outcome.Invoked?
    ensures var key := SubCommandKey(interaction.commandName, interaction.subcommandGroup, interaction.subcommand);
      var route := Dispatch(reg, interaction, now).outcome.route;
      && (key in reg.subCommands ==> route == ToSubCommand(key))
      && (key !in reg.subCommands ==> route == ToCommand(interaction.commandName))
      && interaction.commandName in reg.commands
  {
  }

  // ---- the sub-command key ----

  predicate DotFree(s: string) {
    forall i :: 0 <= i < |s| ==> s[i] != '.'
  }

  /** The index of the first '.', or |s| when there is none. */
  function FirstDot(s: string): (i: nat)
    ensures i <= |s| && (i < |s| ==> s[i] == '.')
    ensures forall k :: 0 <= k < i ==> s[k] != '.'
  {
    if s == [] || s[0] == '.' then 0 else 1 + FirstDot(s[1..])
  }

  /** The key's parts, split at every '.'. */
  function SplitAtDots(s: string): seq<string>
    decreases |s|
  {
    var i := FirstDot(s);
    if i == |s| then [s] else [s[..i]] + SplitAtDots(s[i + 1..])
  }

  lemma {:induction false} FirstDotAfterPrefix(a: string, b: string)
    requires DotFree(a)
    ensures FirstDot(a + "." + b) == |a|
  {
    if a != [] {
      assert (a + "." + b)[1..] == a[1..] + "." + b;
      FirstDotAfterPrefix(a[1..], b);
    }
  }

  lemma SplitDotFree(a: string)
    requires DotFree(a)
    ensures SplitAtDots(a) == [a]
  {
  }

  lemma SplitAfterPrefix(a: string, b: string)
    requires DotFree(a)
    ensures SplitAtDots(a + "." + b) == [a] + SplitAtDots(b)
  {
    var s := a + "." + b;
    FirstDotAfterPrefix(a, b);
    assert s[..|a|] == a;
    assert s[|a| + 1..] == b;
  }

  lemma SplitTwo(a: string, b: string)
    requires DotFree(a) && DotFree(b)
    ensures SplitAtDots(a + "." + b) == [a, b]
  {
    SplitAfterPrefix(a, b);
    SplitDotFree(b);
  }

  lemma SplitThree(a: string, b: string, c: string)
    requires DotFree(a) && DotFree(b) && DotFree(c)
    ensures SplitAtDots(a + "." + (b + "." + c)) == [a, b, c]
  {
    SplitAfterPrefix(a, b + "." + c);
    SplitTwo(b, c);
  }

  // KeyWithGroup and KeyWithoutGroup only unfold SubCommandKey; proved apart
  // from the DotFree quantifiers, they keep SubCommandKeyParts cheap.

  lemma KeyWithGroup(commandName: string, group: Option<string>, sub: Option<string>)
    requires Truthy(group)
    ensures SubCommandKey(commandName, group, sub)
         == commandName + "." + (group.value + "." + (if Truthy(sub) then sub.value else ""))
  {
  }

  lemma KeyWithoutGroup(commandName: string, group: Option<string>, sub: Option<string>)
    requires !Truthy(group)
    ensures SubCommandKey(commandName, group, sub) == commandName + "." + (if Truthy(sub) then sub.value else "")
  {
  }

  /** The key read back: its dot-separated parts are the command, the group if present, the sub-command. */
  lemma SubCommandKeyParts(commandName: string, group: Option<string>, sub: Option<string>)
    requires DotFree(commandName)
    requires group.Some? ==> DotFree(group.value)
    requires sub.Some? ==> DotFree(sub.value)
    ensures SplitAtDots(SubCommandKey(commandName, group, sub))
         == var last := if Truthy(sub) then sub.value else "";
            if Truthy(group) then [commandName, group.value, last] else [commandName, last]
  {
    var last := if Truthy(sub) then sub.value else "";
    if Truthy(group) {
      KeyWithGroup(commandName, group, sub);
      SplitThree(commandName, group.value, last);
    } else {
      KeyWithoutGroup(commandName, group, sub);
      SplitTwo(commandName, last);
    }
  }

  /**
   * Two invocations with dot-free names share a sub-command key only when
   * they name the same command, the same group (or both none) and the same
   * sub-command.
   */
  lemma SubCommandKeyInjective(n1: string, g1: Option<string>, s1: Option<string>,
                               n2: string, g2: Option<string>, s2: Option<string>)
    requires DotFree(n1) && (g1.Some? ==> DotFree(g1.value)) && (s1.Some? ==> DotFree(s1.value))
    requires DotFree(n2) && (g2.Some? ==> DotFree(g2.value)) && (s2.Some? ==> DotFree(s2.value))
    requires SubCommandKey(n1, g1, s1) == SubCommandKey(n2, g2, s2)
    ensures n1 == n2
    ensures Truthy(g1) == Truthy(g2) && (Truthy(g1) ==> g1.value == g2.value)
    ensures (if Truthy(s1) then s1.value else "") == (if Truthy(s2) then s2.value else "")
  {
    SubCommandKeyParts(n1, g1, s1);
    SubCommandKeyParts(n2, g2, s2);
    var parts := SplitAtDots(SubCommandKey(n1, g1, s1));
    assert |parts| == if Truthy(g1) then 3 else 2;
    assert |parts| == if Truthy(g2) then 3 else 2;
    assert parts[0] == n1 && parts[0] == n2;
    if Truthy(g1) {
      assert parts[1] == g1.value && parts[1] == g2.value;
    }
    assert parts[|parts| - 1] == if Truthy(s2) then s2.value else "";
  }

  // ---- worked examples ----

  const Ping: Command := Command("ping", Some(3))
  const Pong: Command := Command("pong", None)
  const Bot: Registry := Registry(map["ping" := Ping, "pong" := Pong], map[], map[])

  function Invoke(name: string, user: string): Interaction {
    Interaction(true, name, user, None, None)
  }

  /**
   * Cooldown 3 s: "ping" at 0 runs, again at 1.5 s is refused with 1.5 s to
   * wait, and at 3.1 s runs again.
   */
  lemma PingCooldownScenario()
    ensures var r1 := Dispatch(Bot, Invoke("ping", "alice"), 0);
      var r2 := Dispatch(r1.registry, Invoke("ping", "alice"), 1500);
      var r3 := Dispatch(r2.registry, Invoke("ping", "alice"), 3100);
      && r1.outcome == Invoked(ToCommand("ping"))
      && r2.outcome == OnCooldown(1500) && r2.registry == r1.registry
      && r3.outcome == Invoked(ToCommand("ping"))
      && LastUse(r3.registry.cooldowns, "ping", "alice") == Some(3100)
  {
  }

  /** Alice's cooldown on "ping" blocks neither Bob on "ping" nor Alice on "pong". */
  lemma IsolationScenario()
    ensures var r1 := Dispatch(Bot, Invoke("ping", "alice"), 0);
      && Dispatch(r1.registry, Invoke("ping", "bob"), 1).outcome.Invoked?
      && Dispatch(r1.registry, Invoke("pong", "alice"), 1).outcome.Invoked?
  {
  }
}
