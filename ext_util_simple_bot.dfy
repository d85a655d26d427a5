/**
 * The legacy copy of the bot base: the same per-command statistics and cog configuration
 * rules, stated over the value-level functions of SimpleBot.
 */
module ExtUtilSimpleBot {
  import opened Wrappers
  import SimpleBot

  /** `SimpleBot.CommandStats`. */
  class CommandStats {
    const command: string
    var received: nat
    var completed: nat
    var errors: nat

    function Counts(): SimpleBot.Counters
      reads this
    {
      SimpleBot.Counters(received, completed, errors)
    }

    constructor (command: string)
      ensures this.command == command && Counts() == SimpleBot.Zero
    {
      this.command := command;
      received, completed, errors := 0, 0, 0;
    }

    method IncrCompleted()
      modifies this
      ensures Counts() == SimpleBot.Bump(old(Counts()), SimpleBot.Completed)
    {
      completed := completed + 1;
    }

    method IncrReceived()
      modifies this
      ensures Counts() == SimpleBot.Bump(old(Counts()), SimpleBot.Received)
    {
      received := received + 1;
    }

    method IncrErrors()
      modifies this
      ensures Counts() == SimpleBot.Bump(old(Counts()), SimpleBot.Errored)
    {
      errors := errors + 1;
    }

    /** `__str__`. */
    function ToString(): string
      reads this
    {
      SimpleBot.StatsLine(command, Counts())
    }
  }

  /** The statistics part of `SimpleBot`. */
  class Bot {
    var commandStats: map<string, CommandStats>

    /** Every entry is keyed by its own command, and no two keys share a stats object. */
    ghost predicate Valid()
      reads this, commandStats.Values
    {
      && (forall c :: c in commandStats ==> commandStats[c].command == c)
      && (forall c, d :: c in commandStats && d in commandStats && c != d ==> commandStats[c] != commandStats[d])
    }

    ghost function Counts(): map<string, SimpleBot.Counters>
      reads this, commandStats.Values
    {
      map c | c in commandStats :: commandStats[c].Counts()
    }

    constructor ()
      ensures Valid() && commandStats == map[] && Counts() == map[]
    {
      commandStats := map[];
    }

    /** `__get_command_stats`: the existing stats of command, or a new zeroed one stored under it. */
    method GetCommandStats(command: string) returns (stats: CommandStats)
      requires Valid()
      modifies this
      ensures Valid()
      ensures stats.command == command && commandStats == old(commandStats)[command := stats]
      ensures command in old(commandStats) ==> stats == old(commandStats)[command]
      ensures command !in old(commandStats) ==> fresh(stats)
      ensures Counts() == old(Counts())[command := SimpleBot.CountersOf(old(Counts()), command)]
    {
      if command in commandStats {
        stats := commandStats[command];
      } else {
        stats := new CommandStats(command);
        commandStats := commandStats[command := stats];
      }
    }

    /** `on_application_command`. */
    method OnApplicationCommand(command: string)
      requires Valid()
      modifies this, commandStats.Values
      ensures Valid() && Counts() == SimpleBot.Tally(old(Counts()), command, SimpleBot.Received)
      ensures fresh(commandStats.Values - old(commandStats.Values))
    {
      var stats := GetCommandStats(command);
      ghost var before := Counts();
      ghost var start := SimpleBot.CountersOf(old(Counts()), command);
      assert before == old(Counts())[command := start];
      assert commandStats[command] == stats && command in commandStats;
      assert before[command] == start;
      stats.IncrReceived();
      assert stats.Counts() == SimpleBot.Bump(start, SimpleBot.Received);
      forall c | c in commandStats ensures Counts()[c] == before[command := stats.Counts()][c] {
        assert c != command ==> commandStats[c] != stats;
      }
      assert Counts() == before[command := stats.Counts()];
      assert before[command := stats.Counts()] == SimpleBot.Tally(old(Counts()), command, SimpleBot.Received);
    }

    /** `on_application_command_completion`. */
    method OnApplicationCommandCompletion(command: string)
      requires Valid()
      modifies this, commandStats.Values
      ensures Valid() && Counts() == SimpleBot.Tally(old(Counts()), command, SimpleBot.Completed)
      ensures fresh(commandStats.Values - old(commandStats.Values))
    {
      var stats := GetCommandStats(command);
      ghost var before := Counts();
      ghost var start := SimpleBot.CountersOf(old(Counts()), command);
      assert before == old(Counts())[command := start];
      assert commandStats[command] == stats && command in commandStats;
      assert before[command] == start;
      stats.IncrCompleted();
      assert stats.Counts() == SimpleBot.Bump(start, SimpleBot.Completed);
      forall c | c in commandStats ensures Counts()[c] == before[command := stats.Counts()][c] {
        assert c != command ==> commandStats[c] != stats;
      }
      assert Counts() == before[command := stats.Counts()];
      assert before[command := stats.Counts()] == SimpleBot.Tally(old(Counts()), command, SimpleBot.Completed);
    }

    /** `on_application_command_error`; the logging of the exception is not modelled. */
    method OnApplicationCommandError(command: string)
      requires Valid()
      modifies this, commandStats.Values
      ensures Valid() && Counts() == SimpleBot.Tally(old(Counts()), command, SimpleBot.Errored)
      ensures fresh(commandStats.Values - old(commandStats.Values))
    {
      var stats := GetCommandStats(command);
      ghost var before := Counts();
      ghost var start := SimpleBot.CountersOf(old(Counts()), command);
      assert before == old(Counts())[command := start];
      assert commandStats[command] == stats && command in commandStats;
      assert before[command] == start;
      stats.IncrErrors();
      assert stats.Counts() == SimpleBot.Bump(start, SimpleBot.Errored);
      forall c | c in commandStats ensures Counts()[c] == before[command := stats.Counts()][c] {
        assert c != command ==> commandStats[c] != stats;
      }
      assert Counts() == before[command := stats.Counts()];
      assert before[command := stats.Counts()] == SimpleBot.Tally(old(Counts()), command, SimpleBot.Errored);
    }
  }

  /** `SimpleCog`'s configuration in this copy: the bot's entry for a non-empty name it holds, else `{}`. */
  function SelectConfig(botConfig: map<string, SimpleBot.Value>, configName: Option<string>): (r: SimpleBot.Value)
    ensures configName.Some? && configName.value in botConfig && configName.value != "" ==> r == botConfig[configName.value]
    ensures configName == None || configName == Some("") ==> r == SimpleBot.Dict(map[])
  {
    match configName
    case None => SimpleBot.Dict(map[])
    case Some(name) => if name == "" || name !in botConfig then SimpleBot.Dict(map[]) else botConfig[name]
  }

  /** Both copies select the same configuration. */
  lemma SelectConfigAgrees(botConfig: map<string, SimpleBot.Value>, configName: Option<string>)
    ensures SelectConfig(botConfig, configName) == SimpleBot.SelectConfig(botConfig, configName)
  {
  }
}
