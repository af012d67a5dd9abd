# corobo: crosslink nicknames and reports, and merge readiness

This project models two pieces of decision logic from the corobo chat-bot
plugins.

1. **The crosslink plugin** (`plugins/crosslink.py`). It looks up a person's
   email address on identity services and does four things with the result:
   - it reads its three service tokens from its own configuration, falling
     back to the bot's global configuration;
   - it selects the services to query from those tokens;
   - it picks a nickname for a chat user and caches it per email address;
   - it formats the `crosslink <email>` report, listing verified accounts
     before other evidence.
2. **The `!mergable <repository>` command** of the git_stats plugin. It
   decides which pull/merge requests of a known repository are ready to
   merge: open, labelled `process/approved`, and based on the current head
   of the repository. The plugin's own source, `plugins/git_stats.py`, is not
   part of this model. Its behaviour is taken from the assertions of
   `test_pr_list` in `tests/git_stats_test.py`.

The external identity-resolution library (`crosslink.resolve`) is taken as
given. What it returns is an input: a sequence of items, some of them
identities, each carrying its rendered `str()` text (module `Resolved`).
Python's `None`-or-string configuration values are `Config.Value`, and Python
truthiness of them is `Config.Truthy`.

Modules, one per file:
- `Wrappers`: Option and Result.
- `Seqs`: reversal, join and split.
- `Config`: configuration lookup and template.
- `Services`: service selection.
- `Resolved`: what the resolver returns.
- `Nicks`: nickname selection and cache.
- `Report`: the crosslink report.
- `Mergable`: merge readiness.

## Model

| member | source | states |
|---|---|---|
| Config.GetConfig | plugins/crosslink.py:42-45 | A key held by a non-empty plugin configuration yields the plugin's value. Otherwise the bot configuration's attribute is used, or `None` when it has none. |
| Config.PluginSettingOverridesBot | plugins/crosslink.py:43-44 | Once the plugin configuration holds a key, the bot configuration has no influence on that key. |
| Config.EmptyPluginConfigFallsThrough | plugins/crosslink.py:43 | An empty plugin configuration behaves exactly like an absent one. |
| Config.ConfigurationTemplate | plugins/crosslink.py:29-40 | The template has exactly the three token keys. Each is preset to the bot configuration's attribute when it exists, and to `''` otherwise. |
| Config.TemplateAgreesWithFallback | plugins/crosslink.py:29-45 | With the template installed as plugin configuration, a token is truthy exactly when it is truthy with no plugin configuration. A truthy token is the same value either way. |
| Services.SplitFirst | plugins/crosslink.py:57 | The GitHub token is split at its first colon. The first part contains no colon. Joining the parts with `:` gives back the token. |
| Services.SplitFirstUnique | plugins/crosslink.py:57 | That split is the only one whose first part has no colon, so it is the `split(':', 1)` result. |
| Services.BuildServices | plugins/crosslink.py:50-64 | Gravatar, Libravatar and Keybase are always present, without credentials. GitHub is present iff its token is truthy and contains `:`, and it gets the two halves of the first-colon split. GitLab and OpenHub are each present iff their token is truthy, and they get that token. Each entry is the service for its key. |
| Services.CachedServices | plugins/crosslink.py:47-68 | A non-empty cached service map is returned unchanged. An empty one is rebuilt from the configuration. The result, which becomes the new cache, is never empty. |
| Services.ServicesBuiltOnce | plugins/crosslink.py:49-68 | After the first build, later calls return the same services even if the configuration has changed. |
| Services.TemplateSelectsSameServices | plugins/crosslink.py:29-64 | Installing the template as plugin configuration selects exactly the services that no plugin configuration selects. |
| Nicks.LastNick | plugins/crosslink.py:83-94 | The nickname is the preferred username of the last result item that is an identity of a configured GitHub, GitLab or OpenHub service. It is `None` when there is no such item. |
| Nicks.SelectNick | plugins/crosslink.py:74-94 | The nested loop returns what `LastNick` defines. The inner `break` leaves only the key loop, so a later matching item overrides an earlier one. |
| Nicks.LookupNickAsWritten | plugins/crosslink.py:76-81 | As written, a rejected email address raises `UnboundLocalError` for `start`, and nothing else raises. A resolved address yields the `LastNick` choice. |
| Nicks.RejectedEmailRaises | plugins/crosslink.py:76-81 | The as-written lookup of a rejected address raises. |
| Nicks.LookupNick | plugins/crosslink.py:70-94 | The corrected lookup gives no nickname (`None`) for a rejected address. Otherwise it gives the `LastNick` choice. |
| Nicks.LookupNickCorrectsOnlyTheRejectedCase | plugins/crosslink.py:74-94 | The corrected lookup agrees with the as-written one whenever that one returns. For a rejected address it yields a falsy nickname instead of raising. |
| Nicks.AddNick | plugins/crosslink.py:104-113 | A sender with a truthy nick is left alone and the cache is unchanged. Otherwise the sender gets the cached nick for the first email address. A truthy cache entry is reused as is. A missing or falsy entry is recomputed with the corrected lookup and overwritten. No other cache entry changes, and the only key that can be added is that address. |
| Nicks.AddNickAsWritten | plugins/crosslink.py:104-113 | As written, the filter raises `UnboundLocalError` for `start` exactly when the sender has no truthy nick, the cache holds no truthy entry for the address, and `Email` rejects the address. Nothing is cached or attached then. In every other case it returns what `Nicks.AddNick` returns. |
| Nicks.TruthyNickNeverRecomputed | plugins/crosslink.py:107-110 | Once the cache holds a truthy nick for an address, a later message gives the same cache and nick, whatever resolution would now return. |
| Nicks.FalsyNickRecomputedEachTime | plugins/crosslink.py:107-110 | A falsy cached nick is looked up again on the next message and replaced by the new result of the corrected lookup. |
| Report.Identities | plugins/crosslink.py:133-136 | The identities are drawn from the result items, and there are no more of them than items. |
| Report.IdentitiesAppend | plugins/crosslink.py:133-136 | Identities keep their result order: collecting them distributes over concatenation. |
| Report.NoIdentitiesIffNoIdentityItem | plugins/crosslink.py:133-139 | The identity list is empty exactly when no result item is an identity. |
| Report.OfKindAppend | plugins/crosslink.py:144-149 | Selecting the verified accounts, or the other fragments, distributes over concatenation. |
| Report.OfKindPartition | plugins/crosslink.py:144-149 | The verified accounts and the other fragments together are exactly the fragments. |
| Report.Arrange | plugins/crosslink.py:144-149 | The `insert(0, …)`/`append` loop keeps the number of fragments. Its full shape is stated by `Report.ArrangeIsReversedVerifiedThenRest`. |
| Report.ArrangeIsReversedVerifiedThenRest | plugins/crosslink.py:144-149 | The arrangement built by `insert(0, …)` and `append` is the verified accounts in reverse order, followed by the other fragments in their original order. |
| Report.ArrangeVerifiedFirst | plugins/crosslink.py:144-149 | In the arrangement, no verified account comes after a fragment that is not one. |
| Report.ArrangeKeepsEachKindInOrder | plugins/crosslink.py:144-149 | Among themselves, the verified accounts come out reversed, and the other fragments keep their order. |
| Report.ArrangeIsPermutation | plugins/crosslink.py:144-149 | The arrangement is a permutation of `get_fragments()`. |
| Report.FragmentLine | plugins/crosslink.py:151-158 | A verified account's line is ` + ` followed by the bare account when the identity's own service verified it, and by its full rendering otherwise. Any other fragment's line is three spaces followed by its rendering. |
| Report.FragmentLineMarksVerified | plugins/crosslink.py:151-158 | A line's first three characters show which kind of fragment it came from: ` + ` exactly for verified accounts, three spaces exactly for the rest. |
| Report.IdentityLines | plugins/crosslink.py:142-158 | Each identity contributes 1 + (number of fragments) lines, the first being its rendering. |
| Report.IdentityLinesFollowArrangement | plugins/crosslink.py:143-158 | Line 1 + k of an identity's block is the line for its k-th arranged fragment. |
| Report.MarkedLinesFirst | plugins/crosslink.py:144-158 | Within one identity's block, no ` + ` line comes after a line without that marker. |
| Report.IdentityBlocks | plugins/crosslink.py:142-158 | The blocks of all identities together have one line per identity plus one per fragment. They start with the first identity's rendering. A single identity's block is exactly its `IdentityLines`. |
| Report.IdentityBlocksAppend | plugins/crosslink.py:142-158 | Blocks follow the identities' order: the blocks of `a + b` are those of `a` followed by those of `b`. With `IdentityBlocks`, each identity contributes exactly its own `IdentityLines`, in order. |
| Report.ReportLines | plugins/crosslink.py:141-158 | The first line is ``Identities for `<email>`:``, and every line after it is the identity blocks. That makes one line more than the blocks, with the first identity's rendering second. |
| Report.Crosslink | plugins/crosslink.py:125-160 | A rejected address gives `Exception <repr>`. With no error, the reply is ``no identities found for `<email>`!`` exactly when no result item is an identity. Otherwise it is the report lines joined by newlines. |
| Report.CrosslinkLines | plugins/crosslink.py:141-160 | When no line contains a newline, splitting the reply at newlines gives back exactly the report lines. |
| Seqs.SplitJoin | plugins/crosslink.py:160 | Splitting `'\n'.join(lines)` at newlines gives back `lines` when no line contains a newline. |
| Mergable.ReadyRequests | tests/git_stats_test.py:64-111 | Every selected request is ready, and no more requests are selected than listed. |
| Mergable.ReadyRequestsMembership | tests/git_stats_test.py:64-111 | A request is selected exactly when it is listed and is open, labelled `process/approved`, and based on the clone's head sha. |
| Mergable.ReadyRequestsAppend | tests/git_stats_test.py:56-79 | Selection keeps the listing order: it distributes over concatenation. |
| Mergable.NoneSelectedIffNoneReady | tests/git_stats_test.py:81-111 | Nothing is selected exactly when no listed request is ready. |
| Mergable.MergableReply | tests/git_stats_test.py:58-111 | An unregistered name gives exactly `Repository doesn't exist.`, and only then. For a known repository the reply is exactly `No merge-ready PRs!` iff no request is ready. Otherwise it is `PRs ready to be merged:\n ` followed by the ready URLs. |
| Mergable.SingleRequestReply | tests/git_stats_test.py:56-111 | With one listed request, the reply is the header and its URL when it is ready, and `No merge-ready PRs!` otherwise. |
| Mergable.OnlyApprovalLabelMatters | tests/git_stats_test.py:65-66 | Readiness depends only on whether `process/approved` is among the labels. Extra labels such as `difficulty/newcomer` do not block it. |
| Mergable.UnknownRepositoryScenario | tests/git_stats_test.py:58-62 | `!mergable b` gives `Repository doesn't exist.` |
| Mergable.ReadyScenario | tests/git_stats_test.py:64-79 | An open, approved request based on head `1` gives the header followed by `http://www.example.com/`. |
| Mergable.WrongLabelsScenario | tests/git_stats_test.py:81-89 | The labels `process/wip` and `difficulty/newcomer` give `No merge-ready PRs!`. |
| Mergable.NeedsRebaseScenario | tests/git_stats_test.py:93-100 | A clone head of `2` against base `1` gives `No merge-ready PRs!`. |
| Mergable.ClosedScenario | tests/git_stats_test.py:103-111 | A closed request gives `No merge-ready PRs!` even though its labels and sha match. |

## Left out

- `crosslink.resolve`, the service constructors and `Email(...)` parsing (plugins/crosslink.py:3-16, 77, 126, 131): this is an external library making network lookups. Its results are inputs: the `Resolution` or `parseError` a call would give, and the items with their `str()` texts.
- The errbot framework: `@cmdfilter`, `@re_botcmd`, regex command dispatch, logging, and plugin-config persistence.
- The choice of email in `crosslink_cmd` (plugins/crosslink.py:120-123): the command's pattern always captures group 1, so the `else` branch is never taken. The model takes the captured address as its input.
- Nicks.AddNick: uses the corrected lookup, so for an address `Email` rejects it caches and attaches `None`. The source raises `UnboundLocalError` out of the filter and leaves the cache untouched. That behaviour is `Nicks.AddNickAsWritten`.
- Report.FragmentLine: `item.verifier != identity.service` compares two service objects of the external library. The model compares service kinds instead. The two agree only if the library hands back the one service object per kind that the plugin passes to `crosslink.resolve` at plugins/crosslink.py:131.
- `msg.frm.emails[0]` on a sender with no email address raises `IndexError`. `Nicks.AddNick` takes the first address as a parameter.
- The runtime replacement of the sender class's `nick` property (plugins/crosslink.py:98-102, 111). This is dynamic class mutation. `AddNick` returns the nickname that would be attached instead. Note that `get_user_nick` tests `hasattr(self, '_nick')` on the plugin rather than on the person, so the patched property as written would usually return `None`.
- `isinstance(item, service._identity_cls)` is modelled as "the item is an identity whose service is that key". An item is an `Identity` iff it is an identity item.
- The nickname cache is unbounded process-wide state. It is modelled as a map that is passed in and returned.
- Mergable.MergableReply: the separator between several ready URLs is not pinned down by the tests, which only ever list one request. The model joins them with `"\n "`, and its contract commits to that separator. The reply for more than one ready request is therefore a modelling choice, not a property of the source.
- Merge request states are modelled as an enumeration (open, closed, merged) rather than the strings the tests assign.
- Clone acquisition and disposal, temporary directories, and the hosting-API objects are I/O. Only the clone's head sha and the listed requests are inputs.
- The spam filter (tests/spam_test.py): its implementation is not part of this model, and its tests do not settle whether the limits are strict or inclusive.

## Findings

| source | as written | input that shows it | evidently intended | confidence | as-written member | corrected member |
|---|---|---|---|---|---|---|
| plugins/crosslink.py:76-81 | When `Email(email)` raises, the exception is only logged. The next line then reads `start`, which was never assigned, and raises `UnboundLocalError`. | Any sender email address that `Email` rejects, on a message from a sender without a nick. | The failure is logged and the lookup yields no nickname (`nick` stays `None`), as the surrounding `try`/`log.exception` suggests. | not executed; high | Nicks.LookupNickAsWritten (shown by Nicks.RejectedEmailRaises; raised out of the filter by Nicks.AddNickAsWritten) | Nicks.LookupNick (proved by Nicks.LookupNickCorrectsOnlyTheRejectedCase; used by Nicks.AddNick) |
