/**
 * The scheduled removal of cooldown entries. After accepting an invocation the
 * handler schedules, with Node's `setTimeout`, a callback that deletes the
 * user's entry from the command's bucket `cooldownAmount` milliseconds later.
 *
 * As written the callback deletes unconditionally. Two inputs then let a user
 * in before the cooldown is over:
 *   - a cooldown above 2147483 s: Node runs any delay above 2^31 - 1 ms
 *     after 1 ms instead;
 *   - a removal left over from a previous use: the user is accepted again the
 *     moment the cooldown ends, before that use's removal has run, and the
 *     old removal then deletes the new entry.
 * The corrected removal deletes the entry only when its cooldown is over, and
 * then it never changes what the gate decides. That is the expiry-by-timestamp
 * behaviour Commands.Dispatch has, where an expired entry gates nothing.
 */
module CooldownTimers {
  import opened Wrappers
  import opened Commands
  import CommandProperties

  /** The largest delay Node's timers honour: 2^31 - 1 ms. */
  const MaxTimerDelay: int := 0x7FFF_FFFF

  /** The delay Node actually uses: anything outside 1 .. 2^31 - 1 ms becomes 1 ms. */
  function TimerDelay(ms: int): (delay: int)
    ensures 1 <= delay <= MaxTimerDelay
    ensures delay == ms <==> 1 <= ms <= MaxTimerDelay
    ensures !(1 <= ms <= MaxTimerDelay) ==> delay == 1
  {
    if 1 <= ms <= MaxTimerDelay then ms else 1
  }

  /** A pending removal of `user`'s entry under `name`, scheduled with the command's cooldown. */
  datatype Removal = Removal(dueAt: int, name: string, user: string, amount: int)

  /** The removal scheduled when `command` is accepted for `user` at `now`. */
  function Schedule(command: Command, user: string, now: int): (t: Removal)
    ensures t.name == command.name && t.user == user && t.amount == CooldownAmount(command)
    ensures now < t.dueAt <= now + MaxTimerDelay
    ensures t.dueAt == now + t.amount <==> 1 <= t.amount <= MaxTimerDelay
  {
    Removal(now + TimerDelay(CooldownAmount(command)), command.name, user, CooldownAmount(command))
  }

  /** `timestamps.delete(user)` as written: the entry goes, whatever it now holds. */
  function FireAsWritten(ledger: Ledger, t: Removal): (r: Ledger)
    ensures LastUse(r, t.name, t.user) == None
    ensures forall n, u :: (n, u) != (t.name, t.user) ==> LastUse(r, n, u) == LastUse(ledger, n, u)
  {
    if t.name in ledger then ledger[t.name := ledger[t.name] - {t.user}] else ledger
  }

  /** The corrected removal: the entry goes only once its cooldown is over at `now`. */
  function FireIfExpired(ledger: Ledger, t: Removal, now: int): (r: Ledger)
    ensures var last := LastUse(ledger, t.name, t.user);
      LastUse(r, t.name, t.user) == if last.Some? && now < last.value + t.amount then last else None
    ensures forall n, u :: (n, u) != (t.name, t.user) ==> LastUse(r, n, u) == LastUse(ledger, n, u)
  {
    var last := LastUse(ledger, t.name, t.user);
    if last.Some? && last.value + t.amount <= now then ledger[t.name := ledger[t.name] - {t.user}]
    else ledger
  }

  // ---- as written: the two inputs ----

  const Vault: Command := Command("vault", Some(2147484))
  const Ping: Command := Command("ping", Some(3))

  function Use(name: string): Interaction {
    Interaction(true, name, "alice", None, None)
  }

  /**
   * A cooldown of 2147484 s: the removal runs after 1 ms, and at 2 ms, well
   * inside the cooldown, a second use is accepted.
   */
  lemma LongCooldownAsWritten()
    ensures var reg := Registry(map["vault" := Vault], map[], map[]);
      var r1 := Dispatch(reg, Use("vault"), 0);
      var t := Schedule(Vault, "alice", 0);
      var fired := r1.registry.(cooldowns := FireAsWritten(r1.registry.cooldowns, t));
      && r1.outcome.Invoked?
      && t.dueAt == 1
      && InCooldown(r1.registry.cooldowns, "vault", "alice", CooldownAmount(Vault), 2)
      && Dispatch(fired, Use("vault"), 2).outcome.Invoked?
  {
  }

  /**
   * A 3 s cooldown: use at 0, use again at 3000 (accepted, the cooldown is
   * over), then the removal scheduled at 0 runs and deletes the entry of the
   * use at 3000, so a use at 3001 is accepted inside the new cooldown.
   */
  lemma LeftoverRemovalAsWritten()
    ensures var reg := Registry(map["ping" := Ping], map[], map[]);
      var r1 := Dispatch(reg, Use("ping"), 0);
      var t := Schedule(Ping, "alice", 0);
      var r2 := Dispatch(r1.registry, Use("ping"), 3000);
      var fired := r2.registry.(cooldowns := FireAsWritten(r2.registry.cooldowns, t));
      && r1.outcome.Invoked? && r2.outcome.Invoked?
      && t.dueAt == 3000
      && InCooldown(r2.registry.cooldowns, "ping", "alice", CooldownAmount(Ping), 3001)
      && Dispatch(fired, Use("ping"), 3001).outcome.Invoked?
  {
  }

  // ---- corrected ----

  /**
   * A corrected removal that runs at `now` leaves every gate decision from
   * `now` on as it was, for the cooldown the removal was scheduled with.
   */
  lemma GuardedRemovalKeepsGate(ledger: Ledger, t: Removal, now: int,
                                name: string, user: string, amount: int, later: int)
    requires now <= later
    requires (name, user) == (t.name, t.user) ==> amount == t.amount
    ensures InCooldown(FireIfExpired(ledger, t, now), name, user, amount, later)
        == InCooldown(ledger, name, user, amount, later)
  {
  }

  /**
   * The next dispatch, whenever it comes after `now`, answers the same whether
   * or not a corrected removal ran at `now`, when the removal carries the
   * cooldown of its command. GuardedRemovalKeepsLaterDispatches extends this
   * to every dispatch that follows.
   */
  lemma {:induction false} GuardedRemovalKeepsDispatch(reg: Registry, t: Removal, now: int,
                                                      interaction: Interaction, later: int)
    requires now <= later
    requires CommandProperties.Known(reg, interaction)
    requires t.name == reg.commands[interaction.commandName].name ==>
               t.amount == CooldownAmount(reg.commands[interaction.commandName])
    ensures Dispatch(reg.(cooldowns := FireIfExpired(reg.cooldowns, t, now)), interaction, later).outcome
         == Dispatch(reg, interaction, later).outcome
  {
    var command := reg.commands[interaction.commandName];
    var fired := reg.(cooldowns := FireIfExpired(reg.cooldowns, t, now));
    if fired.cooldowns != reg.cooldowns {
      if (t.name, t.user) == (command.name, interaction.userId) {
        CommandProperties.ExpiredEntryActsAbsent(reg, interaction, later);
      } else {
        CommandProperties.EnsureBucketKeepsEntries(reg.cooldowns, command.name);
        CommandProperties.EnsureBucketKeepsEntries(fired.cooldowns, command.name);
        assert LastUse(fired.cooldowns, command.name, interaction.userId)
            == LastUse(reg.cooldowns, command.name, interaction.userId);
      }
    }
  }

  // ---- corrected: every later dispatch ----

  /** The registry after a corrected removal at `now`. */
  function Fired(reg: Registry, t: Removal, now: int): Registry {
    reg.(cooldowns := FireIfExpired(reg.cooldowns, t, now))
  }

  /** Every command named like the removal's has the removal's cooldown. */
  predicate AmountsMatch(reg: Registry, t: Removal) {
    forall key :: key in reg.commands && reg.commands[key].name == t.name ==>
      CooldownAmount(reg.commands[key]) == t.amount
  }

  /** Two registries no dispatch can tell apart: the same registries and the same recorded uses. */
  ghost predicate SameUses(x: Registry, y: Registry) {
    && x.commands == y.commands && x.subCommands == y.subCommands
    && forall n, u :: LastUse(x.cooldowns, n, u) == LastUse(y.cooldowns, n, u)
  }

  /** The outcomes of dispatching `events` (interaction, time) one after the other. */
  function Replay(reg: Registry, events: seq<(Interaction, int)>): (outcomes: seq<DispatchOutcome>)
    ensures |outcomes| == |events|
    ensures events != [] ==> outcomes[0] == Dispatch(reg, events[0].0, events[0].1).outcome
    decreases |events|
  {
    if events == [] then []
    else
      var step := Dispatch(reg, events[0].0, events[0].1);
      [step.outcome] + Replay(step.registry, events[1..])
  }

  /** Registries with the same recorded uses answer alike and stay alike. */
  lemma SameUsesStep(x: Registry, y: Registry, interaction: Interaction, later: int)
    requires SameUses(x, y)
    ensures var dx := Dispatch(x, interaction, later);
      var dy := Dispatch(y, interaction, later);
      dx.outcome == dy.outcome && SameUses(dx.registry, dy.registry)
  {
    if CommandProperties.Known(y, interaction) {
      var command := y.commands[interaction.commandName];
      CommandProperties.EnsureBucketKeepsEntries(x.cooldowns, command.name);
      CommandProperties.EnsureBucketKeepsEntries(y.cooldowns, command.name);
    }
  }

  /** The removal deleted an entry: its cooldown was over at `now`. */
  predicate Removes(y: Registry, t: Removal, now: int) {
    var last := LastUse(y.cooldowns, t.name, t.user);
    last.Some? && last.value + t.amount <= now
  }

  /**
   * One dispatch at a time no earlier than `now`: a registry that differs from
   * `y` only by a corrected removal at `now` answers as `y` does, and after the
   * dispatch it is again either alike to `y`'s successor or differs from it
   * only by that removal.
   */
  lemma FiredStep(x: Registry, y: Registry, t: Removal, now: int, interaction: Interaction, later: int)
    requires now <= later && AmountsMatch(y, t)
    requires SameUses(x, Fired(y, t, now))
    ensures var dx := Dispatch(x, interaction, later);
      var dy := Dispatch(y, interaction, later);
      && dx.outcome == dy.outcome
      && (SameUses(dx.registry, dy.registry) || SameUses(dx.registry, Fired(dy.registry, t, now)))
      && AmountsMatch(dy.registry, t)
  {
    assert Dispatch(y, interaction, later).registry.commands == y.commands;
    if !Removes(y, t, now) {
      assert SameUses(x, y);
      SameUsesStep(x, y, interaction, later);
    } else if !CommandProperties.Known(y, interaction) {
      assert Dispatch(y, interaction, later).registry.cooldowns == y.cooldowns;
      assert Dispatch(x, interaction, later).registry.cooldowns == x.cooldowns;
    } else if (y.commands[interaction.commandName].name, interaction.userId) == (t.name, t.user) {
      FiredStepOwnEntry(x, y, t, now, interaction, later);
    } else {
      FiredStepOtherEntry(x, y, t, now, interaction, later);
    }
  }

  /** The user and command of the removed entry: both sides accept and record `later`. */
  lemma FiredStepOwnEntry(x: Registry, y: Registry, t: Removal, now: int, interaction: Interaction, later: int)
    requires now <= later && AmountsMatch(y, t) && Removes(y, t, now)
    requires SameUses(x, Fired(y, t, now))
    requires CommandProperties.Known(y, interaction)
    requires (y.commands[interaction.commandName].name, interaction.userId) == (t.name, t.user)
    ensures var dx := Dispatch(x, interaction, later);
      var dy := Dispatch(y, interaction, later);
      dx.outcome == dy.outcome && SameUses(dx.registry, dy.registry)
  {
    var command := y.commands[interaction.commandName];
    var amount := CooldownAmount(command);
    assert amount == t.amount;
    var lx := EnsureBucket(x.cooldowns, command.name);
    var ly := EnsureBucket(y.cooldowns, command.name);
    CommandProperties.EnsureBucketKeepsEntries(x.cooldowns, command.name);
    CommandProperties.EnsureBucketKeepsEntries(y.cooldowns, command.name);
    assert !InCooldown(lx, command.name, interaction.userId, amount, later);
    assert !InCooldown(ly, command.name, interaction.userId, amount, later);
    var rx := Record(lx, command.name, interaction.userId, later);
    var ry := Record(ly, command.name, interaction.userId, later);
    assert Dispatch(x, interaction, later).registry.cooldowns == rx;
    assert Dispatch(y, interaction, later).registry.cooldowns == ry;
    forall n, u ensures LastUse(rx, n, u) == LastUse(ry, n, u) {
      if (n, u) != (t.name, t.user) {
        assert LastUse(x.cooldowns, n, u) == LastUse(y.cooldowns, n, u);
      }
    }
  }

  /** Another user or command: both sides answer alike and the removed entry stays removed. */
  lemma FiredStepOtherEntry(x: Registry, y: Registry, t: Removal, now: int, interaction: Interaction, later: int)
    requires now <= later && Removes(y, t, now)
    requires SameUses(x, Fired(y, t, now))
    requires CommandProperties.Known(y, interaction)
    requires (y.commands[interaction.commandName].name, interaction.userId) != (t.name, t.user)
    ensures var dx := Dispatch(x, interaction, later);
      var dy := Dispatch(y, interaction, later);
      dx.outcome == dy.outcome && SameUses(dx.registry, Fired(dy.registry, t, now))
  {
    var command := y.commands[interaction.commandName];
    var lx := EnsureBucket(x.cooldowns, command.name);
    var ly := EnsureBucket(y.cooldowns, command.name);
    CommandProperties.EnsureBucketKeepsEntries(x.cooldowns, command.name);
    CommandProperties.EnsureBucketKeepsEntries(y.cooldowns, command.name);
    assert LastUse(lx, command.name, interaction.userId) == LastUse(ly, command.name, interaction.userId);
    var dx := Dispatch(x, interaction, later);
    var dy := Dispatch(y, interaction, later);
    assert LastUse(dy.registry.cooldowns, t.name, t.user) == LastUse(y.cooldowns, t.name, t.user);
  }

  lemma {:induction false} ReplayRelated(x: Registry, y: Registry, t: Removal, now: int,
                                         events: seq<(Interaction, int)>)
    requires AmountsMatch(y, t)
    requires SameUses(x, y) || SameUses(x, Fired(y, t, now))
    requires forall k :: 0 <= k < |events| ==> now <= events[k].1
    ensures Replay(x, events) == Replay(y, events)
    decreases |events|
  {
    if events != [] {
      var (interaction, later) := events[0];
      var dx := Dispatch(x, interaction, later);
      var dy := Dispatch(y, interaction, later);
      if SameUses(x, y) {
        SameUsesStep(x, y, interaction, later);
        assert dy.registry.commands == y.commands;
      } else {
        FiredStep(x, y, t, now, interaction, later);
      }
      ReplayRelated(dx.registry, dy.registry, t, now, events[1..]);
    }
  }

  /**
   * Every dispatch from `now` on answers the same whether or not a corrected
   * removal ran at `now`, however many dispatches follow and in whatever
   * order, when the removal carries the cooldown of its command.
   */
  lemma GuardedRemovalKeepsLaterDispatches(reg: Registry, t: Removal, now: int,
                                           events: seq<(Interaction, int)>)
    requires AmountsMatch(reg, t)
    requires forall k :: 0 <= k < |events| ==> now <= events[k].1
    ensures Replay(Fired(reg, t, now), events) == Replay(reg, events)
  {
    ReplayRelated(Fired(reg, t, now), reg, t, now, events);
  }

  /** With the corrected removal, the leftover removal of the example changes nothing. */
  lemma LeftoverRemovalCorrected()
    ensures var reg := Registry(map["ping" := Ping], map[], map[]);
      var r1 := Dispatch(reg, Use("ping"), 0);
      var t := Schedule(Ping, "alice", 0);
      var r2 := Dispatch(r1.registry, Use("ping"), 3000);
      var fired := r2.registry.(cooldowns := FireIfExpired(r2.registry.cooldowns, t, 3000));
      && fired == r2.registry
      && Dispatch(fired, Use("ping"), 3001).outcome.OnCooldown?
  {
  }
}
