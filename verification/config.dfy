/** Configuration of the crosslink plugin (plugins/crosslink.py): the three
    service tokens, looked up first in the plugin's own configuration and then
    among the attributes of the bot's global configuration. */
module Config {
  import opened Wrappers

  /** The configuration values the plugin handles: Python `None` or a string. */
  datatype Value = Null | Str(s: string)

  /** Python truthiness of a value: `None` and `''` are false. */
  predicate Truthy(v: Value) {
    v.Str? && |v.s| > 0
  }

  /** A configuration mapping from key to value; for the bot configuration
      the keys are the attributes it has. */
  type Settings = map<string, Value>

  const GitHubTokenKey: string := "CROSSLINK_GITHUB_TOKEN"
  const GitLabTokenKey: string := "CROSSLINK_GITLAB_TOKEN"
  const OpenHubTokenKey: string := "CROSSLINK_OPENHUB_TOKEN"

  /** The keys the plugin's configuration template offers. */
  const TokenKeys: set<string> := {GitHubTokenKey, GitLabTokenKey, OpenHubTokenKey}

  /** Whether the plugin's own configuration (`None` or a dict) supplies `key`;
      a missing or empty configuration is falsy and supplies nothing. */
  predicate PluginSupplies(plugin: Option<Settings>, key: string) {
    plugin.Some? && |plugin.value| > 0 && key in plugin.value
  }

  /** `_get_config`: the plugin's own setting wins; otherwise the bot
      configuration's attribute of that name, or `None` when it has none. */
  function GetConfig(plugin: Option<Settings>, bot: Settings, key: string): (v: Value)
    ensures PluginSupplies(plugin, key) ==> v == plugin.value[key]
    ensures !PluginSupplies(plugin, key) && key in bot ==> v == bot[key]
    ensures !PluginSupplies(plugin, key) && key !in bot ==> v == Null
  {
    if plugin.Some? && |plugin.value| > 0 && key in plugin.value then plugin.value[key]
    else if key in bot then bot[key]
    else Null
  }

  /** A key the plugin's configuration holds makes the bot configuration
      irrelevant for that key. */
  lemma PluginSettingOverridesBot(plugin: Settings, bot1: Settings, bot2: Settings, key: string)
    requires key in plugin
    ensures GetConfig(Some(plugin), bot1, key) == GetConfig(Some(plugin), bot2, key) == plugin[key]
  {
  }

  /** An empty plugin configuration behaves exactly like none at all. */
  lemma EmptyPluginConfigFallsThrough(bot: Settings, key: string)
    ensures GetConfig(Some(map[]), bot, key) == GetConfig(None, bot, key)
  {
  }

  /** `get_configuration_template`: every token key, preset to the bot
      configuration's attribute when it has one and to `''` otherwise. */
  function ConfigurationTemplate(bot: Settings): (t: Settings)
    ensures t.Keys == TokenKeys
    ensures forall k :: k in t && k in bot ==> t[k] == bot[k]
    ensures forall k :: k in t && k !in bot ==> t[k] == Str("")
  {
    map k | k in TokenKeys :: if k in bot then bot[k] else Str("")
  }

  /** Using the template as the plugin configuration changes no token's
      truthiness and keeps every truthy token as it was. */
  lemma TemplateAgreesWithFallback(bot: Settings, key: string)
    requires key in TokenKeys
    ensures Truthy(GetConfig(Some(ConfigurationTemplate(bot)), bot, key))
        <==> Truthy(GetConfig(None, bot, key))
    ensures Truthy(GetConfig(None, bot, key))
        ==> GetConfig(Some(ConfigurationTemplate(bot)), bot, key) == GetConfig(None, bot, key)
  {
  }
}
