/**
 * The first `SimpleCog`, at the top of the repository: it indexes the bot's configuration
 * with the name it is given, without first asking whether the name is there.
 */
module RootSimpleBot {
  import opened Wrappers
  import SimpleBot

  /** `bot.config[config_name]` for a truthy name, `{}` otherwise; an unknown name raises KeyError. */
  function SelectConfig(botConfig: map<string, SimpleBot.Value>, configName: Option<string>): (r: Result<SimpleBot.Value, SimpleBot.CogError>)
    ensures r.Failure? <==> configName.Some? && configName.value != "" && configName.value !in botConfig
    ensures r.Failure? ==> r.error == SimpleBot.MissingKey(configName.value)
    ensures configName == None || configName == Some("") ==> r == Success(SimpleBot.Dict(map[]))
    ensures configName.Some? && configName.value in botConfig && configName.value != "" ==> r == Success(botConfig[configName.value])
  {
    match configName
    case None => Success(SimpleBot.Dict(map[]))
    case Some(name) =>
      if name == "" then Success(SimpleBot.Dict(map[]))
      else if name in botConfig then Success(botConfig[name])
      else Failure(SimpleBot.MissingKey(name))
  }

  /**
   * The constructor: the named configuration is read first, then `bot.config['embeds']`,
   * so an unknown name is the KeyError reported even when the embeds entry is missing too.
   */
  function NewCog(botConfig: map<string, SimpleBot.Value>, configName: Option<string>): (r: Result<SimpleBot.Cog, SimpleBot.CogError>)
    ensures r.Success? <==> SelectConfig(botConfig, configName).Success? && "embeds" in botConfig
    ensures SelectConfig(botConfig, configName).Failure? ==> r == Failure(SelectConfig(botConfig, configName).error)
    ensures SelectConfig(botConfig, configName).Success? && "embeds" !in botConfig ==> r == Failure(SimpleBot.MissingKey("embeds"))
    ensures r.Success? ==> r.value == SimpleBot.Cog(SelectConfig(botConfig, configName).value, botConfig["embeds"])
  {
    match SelectConfig(botConfig, configName)
    case Failure(e) => Failure(e)
    case Success(config) =>
      if "embeds" in botConfig then Success(SimpleBot.Cog(config, botConfig["embeds"]))
      else Failure(SimpleBot.MissingKey("embeds"))
  }

  /**
   * The first rule and the packaged one differ only on a non-empty name the bot does not
   * hold: there the first raises, the packaged one falls back to `{}`.
   */
  lemma StrictSelectionAgrees(botConfig: map<string, SimpleBot.Value>, configName: Option<string>)
    ensures SelectConfig(botConfig, configName).Success? ==>
      SelectConfig(botConfig, configName).value == SimpleBot.SelectConfig(botConfig, configName)
    ensures SelectConfig(botConfig, configName).Failure? ==>
      SimpleBot.SelectConfig(botConfig, configName) == SimpleBot.Dict(map[])
    ensures SelectConfig(botConfig, configName).Success? ==>
      NewCog(botConfig, configName) == SimpleBot.NewCog(botConfig, configName)
  {
  }
}
