/**
 * The bot base: per-command statistics kept by the application-command hooks, and the
 * configuration a cog selects from the bot's configuration.
 */
module SimpleBot {
  import opened Wrappers
  import Decimal

  // ----- Counters as values -----

  /** The three counters of one command. */
  datatype Counters = Counters(received: nat, completed: nat, errors: nat)

  const Zero := Counters(0, 0, 0)

  /** The hook that fired. */
  datatype Event = Received | Completed | Errored

  /** One hook call: raise the counter of that event by one, leave the others. */
  function Bump(c: Counters, e: Event): (d: Counters)
    ensures d.received == c.received + (if e == Received then 1 else 0)
    ensures d.completed == c.completed + (if e == Completed then 1 else 0)
    ensures d.errors == c.errors + (if e == Errored then 1 else 0)
  {
    match e
    case Received => c.(received := c.received + 1)
    case Completed => c.(completed := c.completed + 1)
    case Errored => c.(errors := c.errors + 1)
  }

  /** The counters of command, zero when it has no entry yet. */
  function CountersOf(stats: map<string, Counters>, command: string): Counters {
    if command in stats then stats[command] else Zero
  }

  /** The statistics map after one hook call for command: get-or-create, then bump. */
  function Tally(stats: map<string, Counters>, command: string, e: Event): (m: map<string, Counters>)
    ensures m.Keys == stats.Keys + {command}
    ensures forall k :: k in stats && k != command ==> m[k] == stats[k]
    ensures m[command] == Bump(CountersOf(stats, command), e)
  {
    stats[command := Bump(CountersOf(stats, command), e)]
  }

  /** The statistics after a run of hook calls, starting from no statistics. */
  function Replay(events: seq<(string, Event)>): map<string, Counters> {
    if events == [] then map[]
    else var last := events[|events| - 1];
      Tally(Replay(events[..|events| - 1]), last.0, last.1)
  }

  /** How many hook calls of kind e there were for command. */
  function Occurrences(events: seq<(string, Event)>, command: string, e: Event): nat {
    if events == [] then 0
    else Occurrences(events[..|events| - 1], command, e) + (if events[|events| - 1] == (command, e) then 1 else 0)
  }

  /** A history of hook calls, counted event by event. */
  function Histogram(events: seq<(string, Event)>, command: string): Counters {
    Counters(Occurrences(events, command, Received), Occurrences(events, command, Completed),
             Occurrences(events, command, Errored))
  }

  /** A command no hook fired for has all counters at zero. */
  lemma {:induction false} HistogramOfUnseen(events: seq<(string, Event)>, command: string)
    requires forall i :: 0 <= i < |events| ==> events[i].0 != command
    ensures Histogram(events, command) == Zero
  {
    if events != [] {
      HistogramOfUnseen(events[..|events| - 1], command);
    }
  }

  /**
   * The statistics hold an entry exactly for the commands some hook fired for, and each
   * entry counts exactly the hook calls of each kind for that command.
   */
  lemma {:induction false} ReplayCounts(events: seq<(string, Event)>)
    ensures forall c :: c in Replay(events) <==> exists i :: 0 <= i < |events| && events[i].0 == c
    ensures forall c :: c in Replay(events) ==> Replay(events)[c] == Histogram(events, c)
  {
    if events != [] {
      var init, last := events[..|events| - 1], events[|events| - 1];
      ReplayCounts(init);
      forall c ensures c in Replay(events) <==> exists i :: 0 <= i < |events| && events[i].0 == c {
        if c in Replay(init) {
          var i :| 0 <= i < |init| && init[i].0 == c;
          assert events[i] == init[i];
        }
        if exists i :: 0 <= i < |events| && events[i].0 == c {
          var i :| 0 <= i < |events| && events[i].0 == c;
          if i < |init| {
            assert init[i] == events[i];
          }
        }
      }
      forall c | c in Replay(events) ensures Replay(events)[c] == Histogram(events, c) {
        if c == last.0 {
          if c !in Replay(init) {
            HistogramOfUnseen(init, c);
          }
          assert CountersOf(Replay(init), c) == Histogram(init, c);
        }
      }
    }
  }

  /** Counters only grow: no hook call lowers any counter of any command. */
  lemma TallyNeverDecreases(stats: map<string, Counters>, command: string, e: Event, k: string)
    requires k in stats
    ensures var after := Tally(stats, command, e)[k];
      after.received >= stats[k].received && after.completed >= stats[k].completed && after.errors >= stats[k].errors
  {
  }

  /** The end of a `cmdstats` line, from the completed count on. */
  function CompletedTail(completed: nat, errors: nat): string {
    " completed=" + (Decimal.NatToString(completed) + (" errors=" + Decimal.NatToString(errors)))
  }

  /** The `cmdstats` line logged for a command. */
  function StatsLine(command: string, c: Counters): string {
    "cmdstats command=" + command + " received=" + (Decimal.NatToString(c.received) + CompletedTail(c.completed, c.errors))
  }

  lemma PrefixCancel(p: string, x: string, y: string)
    requires p + x == p + y
    ensures x == y
  {
    assert x == (p + x)[|p|..];
    assert y == (p + y)[|p|..];
  }

  /** For a given command, the logged line determines all three counters. */
  lemma StatsLineDeterminesCounters(command: string, x: Counters, y: Counters)
    requires StatsLine(command, x) == StatsLine(command, y)
    ensures x == y
  {
    var tx, ty := CompletedTail(x.completed, x.errors), CompletedTail(y.completed, y.errors);
    PrefixCancel("cmdstats command=" + command + " received=",
                 Decimal.NatToString(x.received) + tx, Decimal.NatToString(y.received) + ty);
    Decimal.DigitRunCancel(x.received, tx, y.received, ty);
    var ex, ey := " errors=" + Decimal.NatToString(x.errors), " errors=" + Decimal.NatToString(y.errors);
    PrefixCancel(" completed=", Decimal.NatToString(x.completed) + ex, Decimal.NatToString(y.completed) + ey);
    Decimal.DigitRunCancel(x.completed, ex, y.completed, ey);
    PrefixCancel(" errors=", Decimal.NatToString(x.errors), Decimal.NatToString(y.errors));
    Decimal.NatToStringInjective(x.errors, y.errors);
  }

  /** The line of a command nobody has called yet. */
  lemma StatsLineOfNewCommand()
    ensures StatsLine("club", Zero) == "cmdstats command=club received=0 completed=0 errors=0"
  {
  }

  // ----- The objects -----

  /** `SimpleBot.CommandStats`. */
  class CommandStats {
    const command: string
    var received: nat
    var completed: nat
    var errors: nat

    function Counts(): Counters
      reads this
    {
      Counters(received, completed, errors)
    }

    constructor (command: string)
      ensures this.command == command && Counts() == Zero
    {
      this.command := command;
      received, completed, errors := 0, 0, 0;
    }

    method IncrCompleted()
      modifies this
      ensures Counts() == Bump(old(Counts()), Completed)
    {
      completed := completed + 1;
    }

    method IncrReceived()
      modifies this
      ensures Counts() == Bump(old(Counts()), Received)
    {
      received := received + 1;
    }

    method IncrErrors()
      modifies this
      ensures Counts() == Bump(old(Counts()), Errored)
    {
      errors := errors + 1;
    }

    /** `__str__`. */
    function ToString(): string
      reads this
    {
      StatsLine(command, Counts())
    }
  }

  /** The statistics part of `SimpleBot`. */
  class Bot {
    var commandStats: map<string, CommandStats>

    /** Every entry is keyed by its own command, and no two keys share a stats object. */
    ghost predicate Valid()
      reads this, commandStats.Values
    {
      && (forall c :: c in commandStats ==> commandStats[c].command == c)
      && (forall c, d :: c in commandStats && d in commandStats && c != d ==> commandStats[c] != commandStats[d])
    }

    ghost function Counts(): map<string, Counters>
      reads this, commandStats.Values
    {
      map c | c in commandStats :: commandStats[c].Counts()
    }

    constructor ()
      ensures Valid() && commandStats == map[] && Counts() == map[]
    {
      commandStats := map[];
    }

    /** `__get_command_stats`: the existing stats of command, or a new zeroed one stored under it. */
    method GetCommandStats(command: string) returns (stats: CommandStats)
      requires Valid()
      modifies this
      ensures Valid()
      ensures stats.command == command && commandStats == old(commandStats)[command := stats]
      ensures command in old(commandStats) ==> stats == old(commandStats)[command]
      ensures command !in old(commandStats) ==> fresh(stats)
      ensures Counts() == old(Counts())[command := CountersOf(old(Counts()), command)]
    {
      if command in commandStats {
        stats := commandStats[command];
      } else {
        stats := new CommandStats(command);
        commandStats := commandStats[command := stats];
      }
    }

    /** `on_application_command`. */
    method OnApplicationCommand(command: string)
      requires Valid()
      modifies this, commandStats.Values
      ensures Valid() && Counts() == Tally(old(Counts()), command, Received)
      ensures fresh(commandStats.Values - old(commandStats.Values))
    {
      var stats := GetCommandStats(command);
      ghost var before := Counts();
      ghost var start := CountersOf(old(Counts()), command);
      assert before == old(Counts())[command := start];
      assert commandStats[command] == stats && command in commandStats;
      assert before[command] == start;
      stats.IncrReceived();
      assert stats.Counts() == Bump(start, Received);
      forall c | c in commandStats ensures Counts()[c] == before[command := stats.Counts()][c] {
        assert c != command ==> commandStats[c] != stats;
      }
      assert Counts() == before[command := stats.Counts()];
      assert before[command := stats.Counts()] == Tally(old(Counts()), command, Received);
    }

    /** `on_application_command_completion`. */
    method OnApplicationCommandCompletion(command: string)
      requires Valid()
      modifies this, commandStats.Values
      ensures Valid() && Counts() == Tally(old(Counts()), command, Completed)
      ensures fresh(commandStats.Values - old(commandStats.Values))
    {
      var stats := GetCommandStats(command);
      ghost var before := Counts();
      ghost var start := CountersOf(old(Counts()), command);
      assert before == old(Counts())[command := start];
      assert commandStats[command] == stats && command in commandStats;
      assert before[command] == start;
      stats.IncrCompleted();
      assert stats.Counts() == Bump(start, Completed);
      forall c | c in commandStats ensures Counts()[c] == before[command := stats.Counts()][c] {
        assert c != command ==> commandStats[c] != stats;
      }
      assert Counts() == before[command := stats.Counts()];
      assert before[command := stats.Counts()] == Tally(old(Counts()), command, Completed);
    }

    /** `on_application_command_error`; the logging of the exception is not modelled. */
    method OnApplicationCommandError(command: string)
      requires Valid()
      modifies this, commandStats.Values
      ensures Valid() && Counts() == Tally(old(Counts()), command, Errored)
      ensures fresh(commandStats.Values - old(commandStats.Values))
    {
      var stats := GetCommandStats(command);
      ghost var before := Counts();
      ghost var start := CountersOf(old(Counts()), command);
      assert before == old(Counts())[command := start];
      assert commandStats[command] == stats && command in commandStats;
      assert before[command] == start;
      stats.IncrErrors();
      assert stats.Counts() == Bump(start, Errored);
      forall c | c in commandStats ensures Counts()[c] == before[command := stats.Counts()][c] {
        assert c != command ==> commandStats[c] != stats;
      }
      assert Counts() == before[command := stats.Counts()];
      assert before[command := stats.Counts()] == Tally(old(Counts()), command, Errored);
    }
  }

  /** A run of hooks on a new bot: the error of "club" is counted, "pota" gets its own entry. */
  method StatsScenario() {
    var bot := new Bot();
    bot.OnApplicationCommand("club");
    bot.OnApplicationCommandError("club");
    ghost var afterClub := bot.Counts();
    assert afterClub == map["club" := Counters(1, 0, 1)];
    bot.OnApplicationCommand("pota");
    assert bot.Counts() == afterClub["pota" := Counters(1, 0, 0)];
  }

  // ----- Cog configuration -----

  /** A value of the bot's YAML configuration. */
  datatype Value = Null | Bool(b: bool) | Int(i: int) | Str(s: string) | List(items: seq<Value>) | Dict(entries: map<string, Value>)

  /** `SimpleCog`'s configuration: the bot's entry for a non-empty configName it holds, else `{}`. */
  function SelectConfig(botConfig: map<string, Value>, configName: Option<string>): (r: Value)
    ensures (exists n :: configName == Some(n) && n != "" && n in botConfig) ==> r == botConfig[configName.value]
    ensures !(exists n :: configName == Some(n) && n != "" && n in botConfig) ==> r == Dict(map[])
  {
    if configName.Some? && configName.value != "" && configName.value in botConfig then botConfig[configName.value]
    else Dict(map[])
  }

  /** Selecting a configuration never fails: a missing or empty name gives the empty dictionary. */
  lemma SelectConfigDefaults(botConfig: map<string, Value>, name: string)
    ensures SelectConfig(botConfig, None) == Dict(map[])
    ensures SelectConfig(botConfig, Some("")) == Dict(map[])
    ensures name !in botConfig ==> SelectConfig(botConfig, Some(name)) == Dict(map[])
  {
  }

  /** The parts of a cog taken from the bot's configuration. */
  datatype Cog = Cog(config: Value, embedConfig: Value)

  /** The cog constructor reads `bot.config['embeds']`, which raises a KeyError when absent. */
  datatype CogError = MissingKey(key: string)

  function NewCog(botConfig: map<string, Value>, configName: Option<string>): (r: Result<Cog, CogError>)
    ensures r.Success? <==> "embeds" in botConfig
    ensures r.Failure? ==> r.error == MissingKey("embeds")
    ensures r.Success? ==> r.value == Cog(SelectConfig(botConfig, configName), botConfig["embeds"])
  {
    if "embeds" in botConfig then Success(Cog(SelectConfig(botConfig, configName), botConfig["embeds"]))
    else Failure(MissingKey("embeds"))
  }
}
