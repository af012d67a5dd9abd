/** The identity services the crosslink plugin consults, selected by which
    tokens are configured (the `services` property of plugins/crosslink.py). */
module Services {
  import opened Wrappers
  import opened Config

  datatype ServiceKind = Gravatar | Libravatar | Keybase | GitHub | GitLab | OpenHub

  /** What a service is constructed with: nothing, a token, or (for GitHub)
      the two halves of a `user:token` pair. */
  datatype Credential = Anonymous | Token(token: string) | UserToken(user: string, token: string)

  datatype Service = Service(kind: ServiceKind, credential: Credential)

  /** `s.split(c, 1)` on a string containing `c`: the text before the first
      `c` and everything after it. */
  function SplitFirst(s: string, c: char): (parts: (string, string))
    requires c in s
    ensures c !in parts.0
    ensures parts.0 + [c] + parts.1 == s
  {
    if s[0] == c then ("", s[1..])
    else
      var tail := SplitFirst(s[1..], c);
      assert s == [s[0]] + s[1..];
      ([s[0]] + tail.0, tail.1)
  }

  /** The split at the first occurrence is the only split whose first part
      does not contain the separator. */
  lemma SplitFirstUnique(s: string, c: char, before: string, after: string)
    requires c !in before
    requires before + [c] + after == s
    ensures SplitFirst(s, c) == (before, after)
  {
    var (x, y) := SplitFirst(s, c);
    assert s[|x|] == c && s[|before|] == c;
    assert |x| == |before|;
    assert x == s[..|x|] && before == s[..|before|];
    assert y == s[|x| + 1..] && after == s[|before| + 1..];
  }

  /** A GitHub token is used only when it is truthy and of the form `user:token`. */
  predicate GitHubTokenAccepted(token: Value) {
    Truthy(token) && ':' in token.s
  }

  /** The services built from the current configuration: the three
      token-free ones always, and each token service when its token allows. */
  function BuildServices(plugin: Option<Settings>, bot: Settings): (services: map<ServiceKind, Service>)
    ensures Gravatar in services && Libravatar in services && Keybase in services
    ensures GitHub in services <==> GitHubTokenAccepted(GetConfig(plugin, bot, GitHubTokenKey))
    ensures GitLab in services <==> Truthy(GetConfig(plugin, bot, GitLabTokenKey))
    ensures OpenHub in services <==> Truthy(GetConfig(plugin, bot, OpenHubTokenKey))
    ensures forall k :: k in services ==> services[k].kind == k
    ensures forall k :: k in services && k in {Gravatar, Libravatar, Keybase} ==> services[k].credential == Anonymous
    ensures GitHub in services ==>
      var cred := services[GitHub].credential;
      && cred.UserToken?
      && ':' !in cred.user
      && cred.user + ":" + cred.token == GetConfig(plugin, bot, GitHubTokenKey).s
    ensures GitLab in services ==> services[GitLab].credential == Token(GetConfig(plugin, bot, GitLabTokenKey).s)
    ensures OpenHub in services ==> services[OpenHub].credential == Token(GetConfig(plugin, bot, OpenHubTokenKey).s)
  {
    var always := map[
      Gravatar := Service(Gravatar, Anonymous),
      Libravatar := Service(Libravatar, Anonymous),
      Keybase := Service(Keybase, Anonymous)];
    var github := GetConfig(plugin, bot, GitHubTokenKey);
    var withGitHub :=
      if GitHubTokenAccepted(github) then
        var (user, token) := SplitFirst(github.s, ':');
        always[GitHub := Service(GitHub, UserToken(user, token))]
      else always;
    var gitlab := GetConfig(plugin, bot, GitLabTokenKey);
    var withGitLab :=
      if Truthy(gitlab) then withGitHub[GitLab := Service(GitLab, Token(gitlab.s))] else withGitHub;
    var openhub := GetConfig(plugin, bot, OpenHubTokenKey);
    if Truthy(openhub) then withGitLab[OpenHub := Service(OpenHub, Token(openhub.s))] else withGitLab
  }

  /** The `services` property. The result is also the new value of the
      cache: a truthy (non-empty) cache is returned as is, an empty (falsy)
      one is rebuilt from the configuration, and the rebuilt one is truthy. */
  function CachedServices(cache: map<ServiceKind, Service>, plugin: Option<Settings>, bot: Settings)
    : (services: map<ServiceKind, Service>)
    ensures |services| > 0
    ensures |cache| > 0 ==> services == cache
    ensures |cache| == 0 ==> services == BuildServices(plugin, bot)
  {
    if |cache| > 0 then cache
    else
      var built := BuildServices(plugin, bot);
      assert Gravatar in built;
      built
  }

  /** Once built, the services never change, whatever later happens to the
      configuration. */
  lemma ServicesBuiltOnce(
    plugin1: Option<Settings>, bot1: Settings, plugin2: Option<Settings>, bot2: Settings)
    ensures
      var first := CachedServices(map[], plugin1, bot1);
      CachedServices(first, plugin2, bot2) == first == BuildServices(plugin1, bot1)
  {
  }

  /** Seeding the plugin configuration with its template selects the same
      services as leaving it unset. */
  lemma TemplateSelectsSameServices(bot: Settings)
    ensures BuildServices(Some(ConfigurationTemplate(bot)), bot) == BuildServices(None, bot)
  {
    TemplateAgreesWithFallback(bot, GitHubTokenKey);
    TemplateAgreesWithFallback(bot, GitLabTokenKey);
    TemplateAgreesWithFallback(bot, OpenHubTokenKey);
  }
}
