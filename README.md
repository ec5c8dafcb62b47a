# Plugin dashboard core, modelled in Dafny

This project models the logic of a Nuxt dashboard for a Discord bot's
plugins and logs:

- **Configuration endpoint** (`server/api/plugins/config.ts`).
  - Registry lookup: finds a plugin's latest non-deprecated version in the
    registry index and reads the environment and settings defaults from that
    version's metadata document.
  - The four write paths on the stored `config.plugins` map:
    - add-plugin, with its dependency installation;
    - the full-configuration replace;
    - the per-field PUT update;
    - DELETE with its one-level cascade.
  - The configuration file is the class `PluginConfig.ConfigFile`, whose
    handlers update `plugins` and `metadata` in place.
- **Client registry helpers** (`assets/modules/api.ts`, git-registry
  branch):
  - the same latest-version selection;
  - the per-plugin metadata fetch;
  - the merge of registry entry and metadata into a listed plugin, with its
    fallback record;
  - the search filter;
  - tag collection.
- **Log parsing**:
  - `parseLogLine`: timestamp, level and message of a bot log line
    (`composables/useParseLogLine.ts`);
  - the server log endpoint's bracket-pattern scan, level filter, limit and
    reversal, and its query parsing (`server/api/logs.ts`);
  - the client log store, a per-date cache filled once from the
    split → parse → filter pipeline (`stores/logs.ts`).

Modules, one per file:

| file | module | models |
|---|---|---|
| `wrappers.dfy` | `Wrappers` | `Option` and `Result` |
| `json.dfy` | `Json` | parsed JSON values and JavaScript truthiness |
| `js_text.dfy` | `JsText` | JavaScript string built-ins the code relies on: `trim`, one-character `split`, `parseInt` with and without a radix, `\w`, ASCII `toLowerCase`, `includes`, and a code-point order of strings standing in for the default sort order |
| `versions.dfy` | `Versions` | the segment-wise version comparator, the stable ascending sort, and the pick of its last element |
| `registry.dfy` | `Registry` | registry index and metadata documents, the latest-version lookup both files share |
| `registry_view.dfy` | `RegistryView` | `assets/modules/api.ts` |
| `plugin_config.dfy` | `PluginConfig` | `server/api/plugins/config.ts` |
| `log_line.dfy` | `LogLine` | `composables/useParseLogLine.ts` |
| `log_endpoint.dfy` | `LogEndpoint` | `server/api/logs.ts` |
| `log_store.dfy` | `LogStore` | `stores/logs.ts` |

Inputs from the outside world are parameters:

- The registry and every metadata document are one value,
  `Registry.Remote`. Its `registry` is `None` when `plugins.json` cannot be
  fetched or parsed. Its `documents` map holds the metadata documents that
  can be fetched, by plugin name and version.
- In the add-plugin path, the registry lookup is a function parameter
  `lookup`. `PluginConfig.Lookup(remote)` is the real lookup, and every
  statement about add-plugin holds for any lookup.
- The current time (`new Date().toISOString()`) is a `now` string.
- The log file is a sequence of lines, or `None` when it does not exist.
- The answer to the store's request is a `LogStore.FetchResult`.

Where the code's behaviour is easy to misread, the model follows the code:

- A version segment that does not parse as a number counts as 0 (through
  `|| 0`); it is not an error.
- add-plugin does not tag the dependencies it installs with `isDependency`
  or `dependentPlugin`. DELETE's cascade therefore never removes them
  (`PluginConfig.AddedDependenciesOutliveRemoval`).
- The settings found in the registry's metadata are never stored by
  add-plugin; only the request's settings are. The environment defaults are
  the metadata's `environment` object itself.
- PUT replaces `settings` wholesale; only `environment` is merged.

## Model

| member | source | states |
|---|---|---|
| Versions.Segments | server/api/plugins/config.ts:107-108 | a version has one segment per `.`-separated piece, and each segment is that piece's `parseInt(…, 10)`, 0 when it is `NaN` |
| Versions.CompareVersions | server/api/plugins/config.ts:106-119 | the comparator loop returns zero exactly when the two versions agree at every segment, missing segments read as 0, and it is antisymmetric |
| Versions.CompareFromZeroIff | server/api/plugins/config.ts:110-118 | the comparison is zero iff all segments from the given one on agree |
| Versions.CompareFromAntisymmetric | server/api/plugins/config.ts:110-118 | swapping the operands negates the result |
| Versions.CompareFromTransitive | server/api/plugins/config.ts:110-118 | "not after" is transitive |
| Versions.PaddingIsIgnored | server/api/plugins/config.ts:111-112 | trailing zero segments do not change the order |
| Versions.CompareReflexive | assets/modules/api.ts:158-173 | every version compares equal to itself |
| Versions.CompareTransitive | assets/modules/api.ts:158-173 | the comparator is transitive on version strings |
| Versions.CompareFlip | assets/modules/api.ts:158-173 | the comparator is antisymmetric on version strings |
| Versions.CompareIsTotalPreorder | assets/modules/api.ts:158-173 | the comparator is a total preorder, so sorting by it is well defined |
| Versions.Available | server/api/plugins/config.ts:100 | the filter keeps exactly the non-deprecated versions |
| Versions.AvailableCounts | server/api/plugins/config.ts:100 | each non-deprecated version is kept as often as it is listed, each deprecated one never |
| Versions.AvailableAppend | server/api/plugins/config.ts:100 | filtering a concatenation is concatenating the filtered parts, so the kept versions stay in registry order |
| Versions.Insert | server/api/plugins/config.ts:106 | one insertion step of the stable sort keeps every element |
| Versions.StableSort | server/api/plugins/config.ts:106 | the sort is a permutation of its input |
| Versions.AllNotAfterInsert | server/api/plugins/config.ts:106 | inserting an element not after a bound keeps every element not after it |
| Versions.InsertAscending | server/api/plugins/config.ts:106 | insertion keeps a sorted list sorted |
| Versions.StableSortAscending | server/api/plugins/config.ts:106-119 | the sort's result is ascending under the comparator |
| Versions.LatestIsUnique | assets/modules/api.ts:177 | at most one position is the last among the greatest versions |
| Versions.LatestIndex | assets/modules/api.ts:177 | the latest position is within the list |
| Versions.LatestIndexIsLatest | assets/modules/api.ts:177 | that position holds a greatest version, and no later position holds an equal one |
| Versions.LastIsLatest | assets/modules/api.ts:177 | a last entry not older than the latest before it becomes the latest |
| Versions.EarlierStaysLatest | assets/modules/api.ts:177 | a last entry older than the latest before it leaves that one the latest |
| Versions.LastOfSortIsLatest | server/api/plugins/config.ts:122 | the last element of the stable sort is the greatest version that comes last in registry order |
| Versions.LastOfSortStep | server/api/plugins/config.ts:106-122 | sorting one more entry puts it last exactly when it becomes the latest |
| Versions.InsertLast | server/api/plugins/config.ts:106 | an insertion leaves the new element last iff the old last is not after it |
| Versions.SelectLatestNone | server/api/plugins/config.ts:100-103 | there is no latest version exactly when every version is deprecated |
| Versions.LatestIsMaximal | assets/modules/api.ts:177-178 | the latest version is not exceeded by any other |
| Versions.SelectLatestSome | server/api/plugins/config.ts:100-126 | the selected version is listed, not deprecated, and not exceeded by any non-deprecated version |
| Versions.SegmentsOfRender | server/api/plugins/config.ts:107 | splitting and parsing a dotted list of counts gives the counts back |
| Versions.TenIsAfterNine | server/api/plugins/config.ts:110-116 | segments compare as numbers, not as text: 1.9.9 comes before 1.10.0 |
| Registry.Find | server/api/plugins/config.ts:89-93 | the lookup finds an entry by name, or reports that none has the name |
| Registry.LookupFindsEntry | server/api/plugins/config.ts:93 | with distinct keys, the lookup of any entry's name returns that entry |
| Registry.LatestVersionSpec | server/api/plugins/config.ts:89-126 | no version iff the registry is missing, the plugin is absent, it has no version list, or all versions are deprecated; otherwise a listed, non-deprecated, maximal version |
| Registry.TrailingZerosCompareEqual | server/api/plugins/config.ts:110-118 | "1.0" and "1.0.0" compare equal |
| RegistryView.FetchPluginMetadataSpec | assets/modules/api.ts:310-325 | a fetched document is the one stored under a listed, non-deprecated, non-empty version that no other available version exceeds; there is none when the lookup finds no version or finds the empty string |
| RegistryView.EmptyVersionFallsBack | assets/modules/api.ts:313-316 | a plugin whose latest version is the empty string is listed with the fallback record |
| RegistryView.RecordSources | assets/modules/api.ts:368-421 | description, update time and deprecation reason come from the registry entry when it has a non-empty one and from the metadata otherwise; deprecated is either side's flag; authors, tags and dependencies come from the metadata, defaulting to []; license, links, environment and settings come from the metadata; without metadata the fallback's fixed values |
| RegistryView.FetchAvailable | assets/modules/api.ts:363-425 | one record per registry entry, in registry order, built by the merge or the fallback; nothing when the registry fails |
| RegistryView.AvailableKeepsOrder | assets/modules/api.ts:368-421 | the listing names the registry's plugins in order, each once |
| RegistryView.SubsequenceSkip | assets/modules/api.ts:644-670 | a kept order survives an element added in front |
| RegistryView.SubsequenceDropFirst | assets/modules/api.ts:644-670 | dropping the first kept element keeps the order |
| RegistryView.SubsequenceKeep | assets/modules/api.ts:644-670 | keeping the first element of both keeps the order |
| RegistryView.SubsequenceTransitive | assets/modules/api.ts:644-670 | a filter of a filter keeps the original order |
| RegistryView.SubsequenceMembers | assets/modules/api.ts:644-670 | a filter's result holds only input elements |
| RegistryView.SubsequenceReflexive | assets/modules/api.ts:642 | the unfiltered list keeps its order |
| RegistryView.FilterByTagSpec | assets/modules/api.ts:644-653 | the tag filter keeps, in order, exactly the plugins carrying the tag |
| RegistryView.FilterByQuerySpec | assets/modules/api.ts:655-670 | the query filter throws iff some plugin's name misses the query and it has no description, whatever its tags; otherwise it keeps, in order, exactly the matching plugins |
| RegistryView.SearchPluginsSpec | assets/modules/api.ts:641-679 | a search fails iff the listing fails or the query filter throws; otherwise the count is the result's length and the result is, in order, exactly the listed plugins that pass both filters |
| RegistryView.InsertSorted | assets/modules/api.ts:693-704 | adding a new tag keeps the collection strictly sorted and holds exactly the old tags and the new one |
| RegistryView.FetchTags | assets/modules/api.ts:690-709 | the tags are strictly ascending and are exactly the tags of the listed plugins; [] when the listing fails |
| RegistryView.SortedIsUnique | assets/modules/api.ts:704 | two strictly sorted lists with the same tags are equal, so the tag list is determined |
| PluginConfig.AcceptedEnvironment | server/api/plugins/config.ts:140-142 | environment defaults are taken iff the metadata's value is a non-array object |
| PluginConfig.AcceptedSettings | server/api/plugins/config.ts:144-146 | settings are taken iff the metadata's value is an object (arrays included) |
| PluginConfig.FetchPluginDataSpec | server/api/plugins/config.ts:73-164 | there is a result iff a latest version is selected; its version is that one; without a metadata document, environment and settings are absent; otherwise they are the accepted document values |
| PluginConfig.NextMetadata | server/api/plugins/config.ts:277-280 | the metadata records the time and keeps a non-empty previous version, defaulting to "1.0.0" |
| PluginConfig.Overlay | server/api/plugins/config.ts:232-237 | the merged environment has both sides' keys, the request winning per key |
| PluginConfig.InstallStep | server/api/plugins/config.ts:247-265 | a dependency is installed iff its name is absent from the map and the registry resolves it |
| PluginConfig.AddErrorSpec | server/api/plugins/config.ts:205-223 | 400 iff name or version is missing, else 409 iff the name is installed; the reply names the plugin and counts the declared dependencies |
| PluginConfig.NewPluginRecordSpec | server/api/plugins/config.ts:228-241 | registry version wins; enabled defaults to true; environment present iff either side supplies it, request keys winning; settings stored only when non-empty; no dependency tags |
| PluginConfig.ResolvedSound | server/api/plugins/config.ts:245-268 | every installed dependency is declared, absent from the map and resolved |
| PluginConfig.ResolvedComplete | server/api/plugins/config.ts:245-268 | every declared, absent and resolvable dependency is installed |
| PluginConfig.InsertAllSpec | server/api/plugins/config.ts:270-274 | inserting the resolved dependencies adds exactly their names, a later duplicate winning, and leaves other entries alone |
| PluginConfig.InsertResolvedKeeps | server/api/plugins/config.ts:245-274 | storing the resolved dependencies keeps every present entry as it was |
| PluginConfig.InsertResolvedKeys | server/api/plugins/config.ts:245-274 | it adds exactly the declared names that were absent and that the registry resolves |
| PluginConfig.InsertResolvedRecords | server/api/plugins/config.ts:245-274 | each added entry is the dependency record of what the registry resolved |
| PluginConfig.AfterAddSpec | server/api/plugins/config.ts:243-275 | the new map holds the old entries unchanged, the new record, and exactly the resolvable declared dependencies, each a fresh untagged record |
| PluginConfig.ResolveDependencies | server/api/plugins/config.ts:245-268 | the lookups against the map as it stood before any dependency was stored give the resolved list |
| PluginConfig.AddThenRemove | server/api/plugins/config.ts:491-511 | removing a just-added plugin without dependencies restores the map |
| PluginConfig.AddedDependenciesOutliveRemoval | server/api/plugins/config.ts:254-261 | a dependency installed by add-plugin survives removal of the plugin that brought it, since it is not tagged |
| PluginConfig.EntryError | server/api/plugins/config.ts:319-340 | an entry is rejected iff its name is empty or it is not a record with a non-empty string version |
| PluginConfig.FirstEntryErrorSpec | server/api/plugins/config.ts:319-340 | the reported error is that of the first bad entry, and there is none iff every entry is valid |
| PluginConfig.CheckEntries | server/api/plugins/config.ts:319-340 | the loop returns the first bad entry's error |
| PluginConfig.NumberPluginsAccepted | server/api/plugins/config.ts:304-340 | as written, `plugins: 5` passes validation |
| PluginConfig.ValidateSpec | server/api/plugins/config.ts:304-340 | the corrected validation accepts iff `plugins` is an object whose entries all have names and string versions; it accepts a subset of what the code accepts, differing only on scalars |
| PluginConfig.StoredPluginsKeys | server/api/plugins/config.ts:348-358 | the stored map holds exactly the submitted names |
| PluginConfig.StoredPluginsValues | server/api/plugins/config.ts:348-358 | with distinct names, each name holds its submitted record |
| PluginConfig.StoredPluginsSpec | server/api/plugins/config.ts:348-358 | the stored map holds exactly the submitted names, each with its submitted record |
| PluginConfig.UpdateSpec | server/api/plugins/config.ts:392-446 | other entries are unchanged; version and installedAt are kept; each field follows its keep, clear, merge or replace rule; dependency tags are dropped |
| PluginConfig.UpdateIdempotent | server/api/plugins/config.ts:392-446 | applying the same update twice equals applying it once |
| PluginConfig.EnvironmentUpdateIdempotent | server/api/plugins/config.ts:399-413 | merging the same environment twice equals merging it once |
| PluginConfig.OverlayTwice | server/api/plugins/config.ts:403-408 | overlaying the same keys again changes nothing |
| PluginConfig.RemoveSpec | server/api/plugins/config.ts:496-514 | the plugin and exactly the entries tagged as its dependencies are removed, the rest kept unchanged; removed count is one plus the dependents |
| PluginConfig.RemoveIsFinal | server/api/plugins/config.ts:491-494 | removing the same plugin again gives 404 |
| PluginConfig.ConfigFile.constructor | server/api/plugins/config.ts:212 | a missing configuration file is an empty plugin map |
| PluginConfig.ConfigFile.AddPlugin | server/api/plugins/config.ts:202-295 | errors write nothing; success stores the add-plugin map and new metadata and answers as the response function |
| PluginConfig.ConfigFile.SaveConfig | server/api/plugins/config.ts:297-360 | fails with 400 iff the corrected validation `Validate` (see "## Findings") refuses, writing nothing; otherwise stores the submitted plugins and metadata keeping the submitted version |
| PluginConfig.ConfigFile.UpdatePlugin | server/api/plugins/config.ts:370-464 | 400 without a name, 404 for an absent plugin, writing nothing; otherwise stores the updated map and returns the new record |
| PluginConfig.ConfigFile.RemovePlugin | server/api/plugins/config.ts:474-531 | 400 without a name, 404 for an absent plugin; otherwise stores the cascade-removed map and reports how many dependencies went |
| JsText.Trim | composables/useParseLogLine.ts:13 | the result has no white space at either end |
| JsText.TrimIsMiddle | composables/useParseLogLine.ts:13 | the result is the middle of the input, with only white space before and after it |
| JsText.TrimOfTrimStart | composables/useParseLogLine.ts:24 | trimming what `\s*` left changes nothing more than trimming the whole |
| JsText.JoinSplit | stores/logs.ts:14 | splitting loses nothing: joining the pieces gives the text back |
| JsText.SplitJoin | stores/logs.ts:14 | pieces without the separator split back out of their join |
| JsText.ParseIntOfDecimal | server/api/plugins/config.ts:107 | `parseInt(s, 10)` reads a decimal count as itself |
| JsText.ParseIntAuto | server/api/logs.ts:20 | without a hexadecimal prefix, `parseInt` without a radix reads as radix 10 |
| JsText.ParseIntAutoOfDecimal | server/api/logs.ts:20 | `parseInt` without a radix reads a decimal count as itself |
| LogLine.TimestampLength | composables/useParseLogLine.ts:4-6 | a found timestamp is a prefix of the line of the required form |
| LogLine.TimestampLengthSpec | composables/useParseLogLine.ts:4-11 | whenever the line starts with a timestamp, it is found, and it is the only one |
| LogLine.FirstKeyAt | composables/useParseLogLine.ts:15 | the alternation tries the levels in order and takes the first that fits |
| LogLine.StarsBeforeKeyword | composables/useParseLogLine.ts:15 | the level can only start right after the leading asterisks |
| LogLine.KeywordMatchNone | composables/useParseLogLine.ts:15-19 | the level match fails iff no level follows the leading asterisks |
| LogLine.KeywordMatchSome | composables/useParseLogLine.ts:15-22 | a match is the leading asterisks, the first fitting level, and the trailing asterisks |
| LogLine.KeywordBeforeColon | composables/useParseLogLine.ts:15 | a level followed by a colon is matched as exactly that level |
| LogLine.LevelsShape | composables/useParseLogLine.ts:15 | the five levels hold no asterisk and start with distinct, non-space letters |
| LogLine.ColonIndex | composables/useParseLogLine.ts:24 | the first colon, or none iff there is no colon |
| LogLine.DropLabel | composables/useParseLogLine.ts:24 | without a colon the text is kept; otherwise the result is the text after the first colon with its leading white space removed |
| LogLine.DropLabelOfName | composables/useParseLogLine.ts:24 | a colon-free label goes with its colon and the white space after it, whatever follows |
| LogLine.MessageAfterLabel | composables/useParseLogLine.ts:24 | colons inside the message survive: `[db]: a: b` reads as `a: b` |
| LogLine.MessageOfAfterLevel | composables/useParseLogLine.ts:22-24 | the message is the text after the first colon, trimmed, or the whole text when there is no colon |
| LogLine.DropLabelOfColon | composables/useParseLogLine.ts:24 | for a text opening with a colon, the removal leaves the rest without its leading white space |
| LogLine.TailIsTrimmed | composables/useParseLogLine.ts:22 | the colon-and-message tail of a formatted line has no white space at either end |
| LogLine.DropLabelOfTail | composables/useParseLogLine.ts:24 | removing the label of a formatted line's tail leaves exactly the message |
| LogLine.SpacedMessage | composables/useParseLogLine.ts:24 | the space after the colon goes with the label |
| LogLine.LowerLevels | composables/useParseLogLine.ts:28 | each level lower-cases to its kind |
| LogLine.ParseLogLineSpec | composables/useParseLogLine.ts:3-31 | a line parses iff it starts with a timestamp and its trimmed rest starts with a level; the entry's timestamp is that prefix, its kind the lower-cased level, and its message the trimmed text after the level, cut after the first colon when there is one |
| LogLine.ParsedIsWellFormed | composables/useParseLogLine.ts:3-31 | every parsed entry has a timestamp of the required form, one of the five kinds and a trimmed message |
| LogLine.TimestampOfLine | composables/useParseLogLine.ts:4-12 | a timestamp followed by any text is read as exactly that timestamp |
| LogLine.RemainingOfFormat | composables/useParseLogLine.ts:13 | trimming the rest of a formatted line leaves the level and the message |
| LogLine.MessageOfTail | composables/useParseLogLine.ts:22-24 | the label removal recovers a trimmed message |
| LogLine.ParseLaidOut | composables/useParseLogLine.ts:3-31 | a line in the bot's layout parses to its parts |
| LogLine.ParseFormat | composables/useParseLogLine.ts:3-31 | parsing a formatted well-formed entry gives the entry back |
| LogEndpoint.DotsFrom | server/api/logs.ts:32 | the run `(.*)` takes stops at the first line terminator |
| LogEndpoint.WordsFrom | server/api/logs.ts:32 | the run `(\w+)` takes stops at the first non-word character |
| LogEndpoint.LazyCloseSpec | server/api/logs.ts:32 | the lazy `(.*?)` stops at the nearest position where the rest matches, and fails iff none is reachable |
| LogEndpoint.NoMatchAt | server/api/logs.ts:32 | no match starts where the scan fails |
| LogEndpoint.FirstMatchAt | server/api/logs.ts:32 | where the scan succeeds, it finds the nearest closing bracket of a match |
| LogEndpoint.MatchFromSpec | server/api/logs.ts:32 | the search finds the leftmost match with the shortest first group, and fails iff there is no match |
| LogEndpoint.MatchLineSpec | server/api/logs.ts:32-34 | a line matches iff the pattern occurs in it; the captures are those of the leftmost occurrence |
| LogEndpoint.MatchLineAt | server/api/logs.ts:32-34 | a match opening at the first character whose first group holds no closing position is the one taken |
| LogEndpoint.WordRunIs | server/api/logs.ts:32 | `(\w+)` takes a whole word run, up to the first other character |
| LogEndpoint.DotRunIs | server/api/logs.ts:32 | `(.*)` takes the whole rest of a line without terminators |
| LogEndpoint.CloseOfParts | server/api/logs.ts:32 | `\] (\w+): (.*)` matches where a bracket, a space, a word, a colon and space and a terminator-free rest follow each other, capturing the word and the rest |
| LogEndpoint.CloseOfLayout | server/api/logs.ts:32 | the closing part of a bracketed line matches at its bracket |
| LogEndpoint.OpenOfLayout | server/api/logs.ts:32 | a bracketed line opens with `[` and then its first part |
| LogEndpoint.MatchOfLayout | server/api/logs.ts:32-34 | a bracketed line yields its timestamp, level and message |
| LogEndpoint.QueryOfSpec | server/api/logs.ts:62-69 | the query holds exactly the given keys, each with the last value given for it |
| LogEndpoint.GetQuery | server/api/logs.ts:62-69 | the loop builds that query |
| LogEndpoint.LimitParamSpec | server/api/logs.ts:20 | the limit is never 0; it is 100 when absent, "0" or not starting with a digit after white space and sign; a positive decimal count is read as itself |
| LogEndpoint.WordLimitIsDefault | server/api/logs.ts:20 | `limit=abc` gives 100 |
| LogEndpoint.RecordOf | server/api/logs.ts:33-45 | a line contributes at most one entry |
| LogEndpoint.SelectedAppend | server/api/logs.ts:31-51 | the selection of a file is the selection of its parts, in order |
| LogEndpoint.FlatMapAppend | server/api/logs.ts:31-45 | collecting line by line distributes over splitting the file in two |
| LogEndpoint.SelectedSpec | server/api/logs.ts:31-45 | every selected entry comes from a matching line, has a lower-case level and passes the level filter; no more entries than lines |
| LogEndpoint.TakeOfPrefix | server/api/logs.ts:47-49 | once the limit is reached, later lines do not matter |
| LogEndpoint.Take | server/api/logs.ts:47-49 | a prefix of the selection holding exactly the limit's number of entries, or all of them when there are fewer |
| LogEndpoint.Reversed | server/api/logs.ts:53 | the reversal puts the last entry first |
| LogEndpoint.ReadLogs | server/api/logs.ts:8-53 | no file gives []; otherwise the first selected entries up to the limit (at least one when the limit is below 1), newest first |
| LogEndpoint.HandleLogs | server/api/logs.ts:17-53 | the handler applied to the parsed query |
| LogEndpoint.ReadLogsBound | server/api/logs.ts:19-53 | exactly the smaller of the limit (at least 1) and the number of selected entries, so one when the limit is below 1 and something is selected and at most 100 without a limit; each passes the level filter |
| LogStore.FilterSpec | stores/logs.ts:14 | the blank-line filter keeps exactly the non-blank lines, no more of them than were given, and all of them unchanged when none is blank |
| LogStore.FilterAppend | stores/logs.ts:14 | filtering a concatenation is concatenating the filtered parts, so the kept lines stay in file order |
| LogStore.FilterMapAppend | stores/logs.ts:15-17 | parsing and dropping unparsable lines distributes over concatenation, so entries stay in file order |
| LogStore.FilterMapSpec | stores/logs.ts:15-17 | every kept entry is what some line parses to; when all lines parse, one entry per line in order |
| LogStore.ParseLogTextSpec | stores/logs.ts:14-17 | no more entries than non-blank lines, each well formed |
| LogStore.FormattedLines | stores/logs.ts:14 | one formatted line per entry |
| LogStore.TimestampChars | stores/logs.ts:14 | a timestamp holds no line break |
| LogStore.FormattedLineShape | stores/logs.ts:14 | a formatted entry is one non-blank line |
| LogStore.ParseEmptyText | stores/logs.ts:14-18 | an empty file yields no entries |
| LogStore.LinesOfLogText | stores/logs.ts:14 | the non-blank lines of a log text are its formatted lines |
| LogStore.ParseFormattedLines | stores/logs.ts:15-17 | the formatted lines parse back to the entries |
| LogStore.ParseLogTextOfLogText | stores/logs.ts:14-18 | writing entries one per line and reading the text back gives the entries |
| LogStore.FailureMessage | stores/logs.ts:20-23 | the thrown message, or "Failed to fetch logs" when there is none |
| LogStore.LogsStore.constructor | stores/logs.ts:4-6 | the store starts empty, not loading, without error |
| LogStore.LogsStore.BeginFetch | stores/logs.ts:9-11 | a date already held (even with no entries) changes nothing; otherwise loading starts and the error is cleared |
| LogStore.LogsStore.FinishFetch | stores/logs.ts:12-26 | success stores the parsed entries under the date; failure keeps the logs and sets the error; loading stops |
| LogStore.LogsStore.FetchLogs | stores/logs.ts:8-27 | stored days never change, a held date changes nothing, and the store stays well formed |

## Left out

- HTTP fetches, the file system and YAML/JSON serialisation are not modelled. The registry, the metadata documents, the stored configuration and the log file are input values; a file write is the new state of `ConfigFile`.
- The GET handler of the configuration endpoint (`server/api/plugins/config.ts:170-191`) only reads the file or returns a default. That default has the same empty plugin map as `ConfigFile`'s initial state, but also carries metadata with version "1.0.0" stamped with the current time; the model's initial state has no metadata.
- A YAML string body for the full-configuration replace (`server/api/plugins/config.ts:298-299`) is not parsed; the body arrives as `SubmittedConfig`.
- The 500 answers of the handlers' outer `catch` blocks and the 405 answer for other methods are not modelled. They come from I/O failures and routing, and also from request bodies or stored files whose shape the model's input types cannot express: an add-plugin body without `plugin` (`server/api/plugins/config.ts:203-205`), a PUT body without `updates` (`server/api/plugins/config.ts:400`), a `null` full-configuration body (`server/api/plugins/config.ts:301-306`), and a stored file that parses to `null` or has no `plugins` (`server/api/plugins/config.ts:218`, `387`, `491`). The nearest model inputs, such as an update whose fields are all `Keep`, are answered normally where the code answers 500.
- Plugin records are fixed eight-field values: `enabled` is a boolean, `installedAt` a string and `settings` an object. The code stores whatever record shape the client sends, both in the full-configuration replace (`server/api/plugins/config.ts:317-358`) and in add-plugin, which stores an array `settings` too (`server/api/plugins/config.ts:238-240`). No decision of the modelled handlers depends on these fields.
- `assets/modules/api.ts` holds both sides of an unresolved merge (`configuration-with-registry` and `master`). In every region modelled here the two sides agree, or one side is empty (as for `fetchAvailable`, `assets/modules/api.ts:358-424`), and the line numbers cited above refer to the `master` side.
- The `Promise.all` fan-out over dependencies is modelled sequentially. Every "already present" check is made against the map after the primary plugin is inserted. The resolved dependencies are then inserted in declaration order, so a later duplicate wins.
- Every registry fetch is answered with the same `Remote` value; a registry that changes between fetches is not modelled.
- Registry lookups that throw (bad JSON, no `plugins` object) are folded into `Remote.registry == None`.
- JSON numbers are integers; floating-point values in plugin settings are not modelled.
- The `local` registry branches of `assets/modules/api.ts` are not modelled, since the fixed `"git"` key never reaches them. `fetchPluginDetails`, `checkRegistryHealth` and the `local` copies of `fetchRegistry` are outside the modelled helpers.
- `toLowerCase` is ASCII lower-casing; Unicode case mapping is not modelled.
- The regular expressions are hand-written string predicates. The log endpoint's pattern is modelled as JavaScript runs it: leftmost match, lazy first group, `.` excluding line terminators.
- `parseLogLine`'s `id` field (`Date.now()` and `Math.random()`) and its `console.warn` calls are omitted.
- The log endpoint receives the file already split into lines. `readline`'s splitting (with `crlfDelay`) is not modelled, nor is the error answer of its `catch` block (`server/api/logs.ts:54-60`).
- `getQuery` receives the decoded query pairs; URL parsing and percent-decoding are not modelled.
- LogStore.LogsStore.FetchLogs: composes its two halves with nothing in between. Another call that interleaves at the `await` is not modelled; `BeginFetch` and `FinishFetch` state what each half does on its own.
- The store's request URL (`http://localhost:8080/logs/${date}`) is not modelled; the answer is a parameter.
- PluginConfig.ConfigFile.SaveConfig: uses the corrected `Validate` named under "## Findings", so `{"plugins": 5}` gets 400 here while the code as written stores it; `ValidateAsWritten` models the code's check.
- JsText.StrLess: orders strings by Unicode code point, while `sort()` compares UTF-16 code units; the two orders differ when a character beyond U+FFFF meets one in U+E000–U+FFFF (JavaScript puts "😀" before "ｱ"), so `FetchTags` orders such tags differently.
- Versions.Segments: segments are unbounded integers; `parseInt` yields a double, so digit runs beyond 2^53 lose precision in the code and very long ones become `Infinity`, where the comparator's difference can be `NaN`.
- Plugin names and log dates are looked up as plain map keys. The code looks them up on plain JavaScript objects (`server/api/plugins/config.ts:218`, `247`, `387`, `491`; `stores/logs.ts:9`), where keys such as `constructor`, `toString` and `__proto__` find inherited `Object.prototype` members. Those prototype lookups are not modelled: for such names add-plugin answers 409 in the code and installs in the model, DELETE and PUT pass the 404 guard in the code and answer 404 in the model, and `fetchLogs("constructor")` never fetches in the code but does in the model.
- LogStore.ParseLogTextOfLogText: the round trip is stated only for messages without a line break, since such a message would be split across lines.

## Findings

| source | as written | input that shows it | evidently intended | confidence | as-written member | corrected member |
|---|---|---|---|---|---|---|
| server/api/plugins/config.ts:304-340 | `plugins` set to a non-zero number or `true` passes both guards. `Object.entries` of a scalar is empty, so the loop finds no bad entry and the scalar is saved as the plugin map. | `{"plugins": 5}` | only an object of plugin records is accepted, as the message "plugins object is required" says | not executed | PluginConfig.NumberPluginsAccepted | PluginConfig.ValidateSpec |
