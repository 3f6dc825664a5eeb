# mon: a verified model of its core

mon is a small monitoring system. A **probe** runs on a monitored host. It
discovers **plugins** (executable files that describe themselves when run with
`config` and produce readings when run with `fetch`). It registers the plugins
with the **server** as services, runs them on behalf of the **mapped services**
the server assigns it, and posts the integer readings back. The server stores
the readings. For each reading it matches the reading name against the
threshold patterns of the service and re-evaluates the mapped service's status.
It keeps a history of status changes. It also lets users create and edit
mappings and their option values.

This project models that core in Dafny:

- reading ingestion and threshold resolution (`ReadingsApi`, `ThresholdMatcher`, `Glob`, `Sorting`);
- plugin discovery, configuration parsing and the fetch environment (`PluginService`);
- probe registration on the server (`ProbeApi`);
- the probe's payloads (`ProbeServer`);
- the mapping endpoints (`ServicesQuery`, `OptionValues`, `ServicesUpdate`, `ServicesPatch`, `ServicesStore`);
- the JSON-Schema serialiser (`JsonSchema`);
- the API client (`ApiClient`);
- column selection (`SelectBuilder`);
- the cached constant tables (`Constants`).

The shared pieces are these:

- `Dicts` models insertion-ordered Python dictionaries.
- `Text` models the string functions of the Python library that the core uses.
- `Entities` holds the stored rows.

Code that updates objects in place becomes a class whose methods are proved
against a function of the old state:

- `Readings`, the ingestion tables;
- `Service`, a plugin being read;
- `Server`, the probe's view of the server;
- `ProbeStore`, the probe rows on the server;
- `MappingStore`, the mapped services;
- `Const`, the lazy constant cache.

Loops are methods whose invariants tie them to those functions. Code that only
computes becomes functions and lemmas.

## Model

| member | source | states |
|---|---|---|
| Text.Split | probe/src/service.py:120 | `str.split` gives at least one part, and no part holds the separator |
| Text.JoinSplit | probe/src/service.py:120-123 | joining the parts of a split with the same separator gives the text back |
| Text.SplitJoin | probe/src/service.py:150-158 | splitting joined parts that hold no separator gives the parts back |
| Text.Strip | server/api/services.py:245 | `strip()` leaves no surrounding whitespace, and is empty exactly for all-whitespace text |
| Text.StripIsSlice | server/api/services.py:245 | `strip()` is the inner slice of the text, with only whitespace cut off either end |
| Text.Upper | probe/src/service.py:183 | upper-casing (ASCII letters only) leaves no lower-case letter a-z and keeps every other character in place |
| Text.UpperIdempotent | probe/src/service.py:183 | upper-casing twice changes nothing |
| Text.IntToString | server/api/services.py:236 | `str(n)` is never empty |
| Text.IntStringRoundTrip | server/api/services.py:236 | `int(str(n)) == n` |
| Text.CanonicalIntIdempotent | server/api/services.py:236 | canonicalising an integer text twice changes nothing |
| Text.Basename | probe/src/service.py:35 | the base name holds no "/" and is no longer than the path |
| Text.BasenameSuffix | probe/src/service.py:35 | the base name is the part of the path after its last "/", or the whole path when it has none |
| Text.BasenameOfChild | probe/src/service.py:35 | the base name of `dir/name` is `name` |
| Text.JoinPath | probe/src/service.py:58-68 | the path of a directory entry starts with its directory and ends with its name, with one "/" between them unless the directory is empty or already ends in "/" |
| Text.BasenameOfJoin | probe/src/service.py:35 | the base name of an entry's path is the entry's name, whatever the directory |
| Text.StripExtension | probe/src/service.py:35 | the root is a prefix of the name |
| Text.StripExtensionSpec | probe/src/service.py:35 | `splitext(b)[0]`: the name is cut just before its last "." when something other than dots precedes that "."; otherwise it comes back whole |
| Text.StripExtensionOfName | probe/src/service.py:35 | the root of `stem.ext` is `stem`, for a dotless extension and a stem that is not all dots |
| Glob.LiteralMatch | server/api/readings.py:99 | a pattern without wildcards matches exactly the equal name |
| Glob.StarMatchesAll | server/api/readings.py:99 | `*` matches every name |
| Glob.PrefixStarMatch | server/api/readings.py:99 | `prefix*` matches exactly the names starting with the prefix |
| Sorting.SortBySpec | server/api/db/const.py:60 | the sort is ordered by the key and is a permutation of its input |
| ThresholdMatcher.RulesOfService | server/api/readings.py:56-61 | the rules selected are exactly the service's rows |
| ThresholdMatcher.QueryRulesSpec | server/api/readings.py:56-61 | the threshold query gives the service's rules, ordered by status id |
| ThresholdMatcher.GroupByPatternSpec | server/api/readings.py:62-65 | each pattern's group holds exactly its rules in arrival order, and no pattern repeats |
| ThresholdMatcher.GroupRules | server/api/readings.py:62-65 | the setdefault/append loop builds that grouping |
| ThresholdMatcher.PatternCandidates | server/api/readings.py:101-102 | every rule of a matching pattern is a candidate with the pattern's length as priority |
| ThresholdMatcher.CandidatesFromMatches | server/api/readings.py:98-101 | every candidate comes from a matching pattern and carries its length |
| ThresholdMatcher.MatchesAreCandidates | server/api/readings.py:98-102 | every rule of every matching group becomes a candidate |
| ThresholdMatcher.CombineSpec | server/api/readings.py:103-105 | the combined map has an entry exactly for the statuses present, and each entry is that status's winner (longest pattern, earliest on ties) |
| ThresholdMatcher.WinnerUnique | server/api/readings.py:103-105 | the winner of a status is unique |
| ThresholdMatcher.CombineMatches | server/api/readings.py:95-105 | the matching and combining loops compute the combined map |
| ThresholdMatcher.MinOf | server/api/readings.py:109 | the least element of a non-empty set |
| ThresholdMatcher.SortedKeys | server/api/readings.py:109 | `sorted(keys)` is strictly ascending and holds exactly the keys |
| ThresholdMatcher.LastViolatedSpec | server/api/readings.py:108-113 | visiting keys in order leaves the last violated key, or "ok" when none is violated |
| ThresholdMatcher.ResolveSpec | server/api/readings.py:108-113 | the status is the highest violated status id, or "ok" |
| ThresholdMatcher.ResolveStatus | server/api/readings.py:108-113 | the resolution loop computes that status |
| ThresholdMatcher.NoMatchIsOk | server/api/readings.py:90-113 | a service whose rules do not match the reading resolves to "ok", not to null |
| ThresholdMatcher.PingCombined | server/api/readings.py:95-105 | a warning and an error rule on one pattern are both kept |
| ThresholdMatcher.PingScenario | server/api/readings.py:95-113 | for latency values 10, 50, 150 and 600, the status is ok, ok, warning and error |
| ThresholdMatcher.LongerPatternWins | server/api/readings.py:103-105 | of two patterns matching for one status, the longer one wins |
| ThresholdMatcher.LongerPatternWinsEitherOrder | server/api/readings.py:103-105 | the longer pattern wins in either order |
| ThresholdMatcher.LongerPatternDecides | server/api/readings.py:103-113 | a value that only the shorter pattern forbids resolves to "ok" |
| ReadingsApi.ActiveIds | server/api/readings.py:41-48 | the active ids are among the probe's mapped services |
| ReadingsApi.IngestBatchShape | server/api/readings.py:37-61 | a batch leaves the services, the thresholds and the set of mapped services unchanged |
| ReadingsApi.StatusTransition | server/api/readings.py:89-137 | the new status after one tuple is the resolved status, or null without rules; history grows by one entry exactly when the status changes; the time the status was entered becomes now on a change to a status, null on the change to no status, and is kept otherwise; no other field or service changes |
| ReadingsApi.BatchReadingValues | server/api/readings.py:72-85 | each reading gains exactly the accepted tuples' values, in order, and is created only if it gains one |
| ReadingsApi.BatchInactiveUntouched | server/api/readings.py:72-76 | history is only appended to, only for active services, and inactive services are unchanged |
| ReadingsApi.IngestOneAgrees | server/api/readings.py:115-137 | after a tuple, every service's status agrees with its latest history entry |
| ReadingsApi.IngestBatchAgrees | server/api/readings.py:72-137 | after a batch, every service's status agrees with its latest history entry |
| ReadingsApi.Readings.ThresholdSnapshot | server/api/readings.py:52-65 | the rules loaded are those of the active services in the batch that have rules, grouped by pattern |
| ReadingsApi.Readings.IngestTuple | server/api/readings.py:72-139 | one tuple changes the tables as `IngestOne` says |
| ReadingsApi.Readings.Put | server/api/readings.py:28-148 | an unknown probe changes nothing; otherwise the batch is ingested |
| PluginService.KnownSubItem | probe/src/service.py:126-129 | only type, description, required and default are sub-items |
| PluginService.OptionKeySpec | probe/src/service.py:120-132 | a key is either the whole identifier (the name item) or the identifier, a dot and a sub-item |
| PluginService.OptionKeyOfSubItem | probe/src/service.py:120-132 | `x.required` configures option `x` |
| PluginService.ApplyOptionsSpec | probe/src/service.py:137-141 | an option exists exactly when a key mentions it, and its record is the default record with each mentioned item set last-wins |
| PluginService.UnmentionedIsNew | probe/src/service.py:137-139 | an option no entry configures keeps its starting record |
| PluginService.ThresholdKeySpec | probe/src/service.py:150-158 | a well-formed threshold key is the pattern, the status and the bound joined by dots |
| PluginService.ThresholdKeyRoundTrip | probe/src/service.py:150-158 | a key built from a pattern, a dotless status and a bound reads back as them |
| PluginService.ApplyThresholdsSpec | probe/src/service.py:150-162 | a pattern is present exactly when a key sets it, and each bound is the last value set, the other bound staying None |
| PluginService.SetBoundLookup | probe/src/service.py:160-162 | setting a bound touches only its own (pattern, status) pair |
| PluginService.BadThresholdValueFails | probe/src/service.py:162 | a well-formed key with a non-integer value makes the configuration fail |
| PluginService.ServiceNameOfChild | probe/src/service.py:35 | the service name of the entry `name` in any directory is `name` without its extension |
| PluginService.DuplicateKeepsEmpty | probe/src/service.py:105-110 | a duplicate section or key leaves description, options and thresholds empty |
| PluginService.Service.constructor | probe/src/service.py:31-36 | a new service has its derived name and empty description, options and thresholds |
| PluginService.Service.PopulateOptions | probe/src/service.py:112-141 | the option table becomes the entries applied in order |
| PluginService.Service.PopulateThresholds | probe/src/service.py:143-162 | the threshold table becomes the entries applied in order, or the first bad value fails |
| PluginService.Service.GetConfig | probe/src/service.py:85-110 | reading the configuration gives the description of the service, or its failure |
| PluginService.ExamineFile | probe/src/service.py:75-83 | an executable file becomes a service, any other file is ignored |
| PluginService.ScanDirectory | probe/src/service.py:49-72 | the scan loop, recursing into directories, computes `Scan` |
| PluginService.HiddenEntryIgnored | probe/src/service.py:59-60 | entries whose names start with "." never contribute |
| PluginService.ScanKeysAreNames | probe/src/service.py:63-68 | the scan result has distinct keys, each the name of its service |
| PluginService.FetchEnvSpec | probe/src/service.py:180-185 | the environment has every option's upper-cased identifier, valued by the mapping, else the default, else "" |
| PluginService.Fetch | probe/src/service.py:175-206 | `fetch` gives the parsed output on exit code 0 and nothing otherwise |
| ProbeServer.OptionsPayloadSpec | probe/src/lib/server.py:32-40 | one payload entry per option, in order; the description defaults to "" |
| ProbeServer.ThresholdsPayloadSpec | probe/src/lib/server.py:41-47 | each pattern carries only its last status's bounds |
| ProbeServer.ThresholdCollision | probe/src/lib/server.py:41-47 | a pattern with warning and error bounds reports only the error bounds |
| ProbeServer.RegistrationPayload | probe/src/lib/server.py:26-49 | the payload names the probe and lists one entry per plugin, in order, each with the plugin's name, description, options payload and thresholds payload |
| ProbeServer.MappingOptionsSpec | probe/src/lib/server.py:67-70 | an identifier has value v exactly when its last non-null row gives v; null rows are dropped |
| ProbeServer.MappedServicesSpec | probe/src/lib/server.py:61-74 | only mappings of known plugins are kept, each from a row with its id, name and service |
| ProbeServer.MappingReadingsSpec | probe/src/lib/server.py:89-95 | a mapping's readings follow its values one to one, with the integer value and the one timestamp |
| ProbeServer.ReadingsSpec | probe/src/lib/server.py:86-95 | there is one reading per fetched pair, all with the same timestamp |
| ProbeServer.ReadingsComplete | probe/src/lib/server.py:86-95 | every fetched pair of a successful update is posted |
| ProbeServer.BadValueFails | probe/src/lib/server.py:93 | a non-integer value makes the whole update fail |
| ProbeServer.Server.constructor | probe/src/lib/server.py:15-18 | a new server has no plugins registered |
| ProbeServer.Server.RegisterProbe | probe/src/lib/server.py:20-50 | it remembers the plugins and returns the registration payload |
| ProbeServer.Server.GetMappedServices | probe/src/lib/server.py:52-74 | the loop computes `MappedServices` over the registered plugins |
| ProbeServer.UpdateReadingsAllSucceeded | probe/src/lib/server.py:86-95 | when every fetch succeeded, the batch is the readings of all their results |
| ProbeServer.FailedFetchFails | probe/src/lib/server.py:89-90 | as written, one failed fetch (None) fails the whole update, so nothing is posted |
| ProbeServer.FailedFetchCrashes | probe/src/lib/server.py:89-90 | a probe whose only plugin run failed: the update raises as written and posts an empty batch once corrected |
| ProbeServer.SkipFailedSpec | probe/src/lib/server.py:86-95 | corrected: with failed fetches skipped, one reading per succeeded pair, each from a fetch that succeeded |
| ProbeServer.FailedFetchSkipped | probe/src/lib/server.py:89-90 | corrected: a failed fetch adds nothing to the batch and cannot fail it |
| ProbeServer.SucceededFrom | probe/src/probe.py:110-112 | every succeeded result is a fetch result that was not None |
| ProbeServer.Server.Update | probe/src/lib/server.py:76-98 | the loop computes `UpdateReadings`: the batch as written, failing on a failed fetch or a non-integer value |
| ProbeApi.NewOptionRow | server/api/probe.py:181-186 | a new option defaults to name = identifier, description "", type "string", not required |
| ProbeApi.Overwrite | server/api/probe.py:193-197 | an existing option keeps its id; every other attribute is the reported or default value |
| ProbeApi.IdentifierIndex | server/api/probe.py:173-174 | the index points at an option with each identifier, and covers all of them |
| ProbeApi.NameIndex | server/api/probe.py:153-154 | the index points at a service with each name, and covers all of them |
| ProbeApi.FirstMatch | server/api/probe.py:239-248 | the first stored threshold with this pattern and status, or none |
| ProbeApi.RegisterSpec | server/api/probe.py:158-166 | an unknown service is appended; a known one is re-described (default "") and undeleted; no other service changes |
| ProbeApi.SyncOptionsKeepsRows | server/api/probe.py:179-200 | stored options keep their identifiers and ids |
| ProbeApi.SyncOptionsCovers | server/api/probe.py:179-200 | every reported option has a row afterwards |
| ProbeApi.SyncOptionStable | server/api/probe.py:179-200 | one reported option may only overwrite its own row or append one |
| ProbeApi.NewRequiredDetected | server/api/probe.py:189-191 | a new required option on a stored service is detected |
| ProbeApi.DeleteUnreportedSpec | server/api/probe.py:227-230 | exactly the unreported options are deleted, and the rest keep their order |
| ProbeApi.ReportedNeverDeleted | server/api/probe.py:227-230 | a reported option is never deleted |
| ProbeApi.SyncThresholdsStored | server/api/probe.py:237-257 | stored thresholds keep pattern, status and source, and configuration-sourced ones are unchanged |
| ProbeApi.SyncThresholdStable | server/api/probe.py:237-257 | one reported pair changes only the matched service-sourced threshold's bounds, or appends one |
| ProbeApi.SyncThresholdsCovers | server/api/probe.py:237-257 | every reported (pattern, status) pair has a threshold afterwards |
| ProbeApi.MarkServiceSpec | server/api/probe.py:204-214 | exactly the service's mapped services are put into error with the cause |
| ProbeApi.MarkMissing | server/api/probe.py:215-225 | the marking keeps every mapping id, and leaves unchanged every mapping of another service and every mapping that misses no required value (corrected) |
| ProbeApi.MarkMissingSpec | server/api/probe.py:215-225 | exactly this service's mappings that miss a required value are put into error (corrected) |
| ProbeApi.MarkMissingAsWrittenTouchesOtherServices | server/api/probe.py:215-225 | as written, the update also marks another service's mapping |
| ProbeApi.MarkMissingAsWrittenNeedsAllMissing | server/api/probe.py:215-225 | as written, a mapping missing one of two required values is not marked |
| ProbeApi.ServiceStepMarksOnlyMissing | server/api/probe.py:202-225 | a reported service changes a mapping only by putting it into error for a missing option |
| ProbeApi.NewRequiredMarksService | server/api/probe.py:189-214 | a new required option puts all of the service's mappings into error |
| ProbeApi.ServiceStep | server/api/probe.py:158-257 | after one reported service, the name index still points at stored services of those names |
| ProbeApi.ServiceSteps | server/api/probe.py:156-257 | after the loop over reported services, the name index still points at stored services of those names |
| ProbeApi.ServiceStepShape | server/api/probe.py:158-168 | stored services stay in place under their names, and the reported name is recorded |
| ProbeApi.ServiceStepsKeep | server/api/probe.py:158-168 | the loop over reported services keeps every stored service in place |
| ProbeApi.ReportedNamesHas | server/api/probe.py:155-168 | a name is in the reported list exactly when some reported service carries it |
| ProbeApi.UnreportedFlaggedDeleted | server/api/probe.py:259-262 | a stored service the report does not name is flagged deleted, not removed |
| ProbeApi.IndexOptions | server/api/probe.py:173-174 | the indexing loop computes `IdentifierIndex` |
| ProbeApi.IndexServices | server/api/probe.py:153-154 | the indexing loop computes `NameIndex` |
| ProbeApi.SyncOptionsLoop | server/api/probe.py:179-200 | the option loop computes `SyncOptions` |
| ProbeApi.DeleteLoop | server/api/probe.py:227-230 | the deletion loop computes `DeleteUnreported` |
| ProbeApi.FindThreshold | server/api/probe.py:239-248 | the search computes `FirstMatch` |
| ProbeApi.SyncThresholdsLoop | server/api/probe.py:233-257 | the threshold loop fails exactly when a reported status is not in the status table (the KeyError at line 252), and otherwise computes `SyncThresholds` |
| ProbeApi.MarkUnreportedLoop | server/api/probe.py:259-262 | the final loop computes `MarkUnreported` |
| ProbeApi.GetProbe | server/api/probe.py:36-57 | `Probe.get` lists each stored service with its name, description, deleted flag and options, one to one and in order |
| ProbeApi.ProbeStore.Get | server/api/probe.py:36-57 | the method computes `GetProbe` |
| ProbeApi.PutProbe | server/api/probe.py:141-271 | the reconciliation fails exactly for an unknown probe or an unknown threshold status, with that error; on success the option values and the set of probes are kept and no other probe's services change (corrected marking of missing options) |
| ProbeApi.ProbeStore.SyncService | server/api/probe.py:158-257 | one reported service fails exactly on an unknown threshold status, and otherwise changes the state as `ServiceStep` says (corrected marking of missing options) |
| ProbeApi.ProbeStore.CollectNames | server/api/probe.py:155-168 | the loop collects the reported service names in report order |
| ProbeApi.ProbeStore.SyncServices | server/api/probe.py:156-257 | the loop over reported services fails exactly when some threshold status is unknown, and otherwise computes `ServiceSteps` (corrected marking of missing options) |
| ProbeApi.ProbeStore.Put | server/api/probe.py:141-271 | the new state is `PutProbe` of the old one (corrected marking of missing options); an unknown probe or an unknown threshold status fails and changes nothing |
| ProbeApi.UnknownStatusFails | server/api/probe.py:250-257 | a reported threshold whose status the table does not hold fails the whole request |
| Constants.LoadGet | server/api/db/const.py:30-34 | a key maps to the other half of the last row holding it |
| Constants.LastForSome | server/api/db/const.py:46-50 | a key is present exactly when some row holds it |
| Constants.LoadSpec | server/api/db/const.py:62-66 | with unique ids and names, every row gives map[id] = name and map[name] = id, and nothing else is present |
| Constants.LoadAscending | server/api/db/const.py:60-66 | rows ordered by id enter the table with ascending ids |
| Constants.ServiceStatusAscending | server/api/db/const.py:60 | service statuses are loaded in ascending id order |
| Constants.LoadRows | server/api/db/const.py:30-34 | the loading loop computes `Load` |
| Constants.Const.constructor | server/api/db/const.py:17-20 | nothing is loaded at first |
| Constants.Const.LoadStatus | server/api/db/const.py:22-36 | the status table is loaded from its rows |
| Constants.Const.LoadErrors | server/api/db/const.py:38-52 | the error-cause table is loaded from its rows |
| Constants.Const.LoadServiceStatus | server/api/db/const.py:54-69 | the service-status table is loaded from its rows, ordered by id |
| Constants.Const.Status | server/api/db/const.py:71-79 | the table is loaded only while it is not cached, and the cached one is returned afterwards |
| Constants.Const.ErrorCause | server/api/db/const.py:81-89 | the same, for error causes |
| Constants.Const.ServiceStatus | server/api/db/const.py:91-99 | the same, for service statuses |
| Constants.ParseDataType | server/api/db/const.py:104-112 | the data types are exactly string, integer, double, bool and list |
| Constants.DataTypeRoundTrip | server/api/db/const.py:104-112 | type names and members correspond one to one |
| OptionValues.NonBlankLines | server/api/services.py:242-246 | the kept lines are non-blank lines of the input, in order |
| OptionValues.Normalise | server/api/services.py:231-250 | normalisation fails exactly for an unknown type, a non-integer integer or a non-number double |
| OptionValues.NormaliseListLines | server/api/services.py:241-246 | a normalised list's lines are exactly the input's non-blank lines |
| OptionValues.NormaliseListIdempotent | server/api/services.py:241-246 | normalising a list twice changes nothing |
| OptionValues.NormalisePreserves | server/api/services.py:231-250 | a string is unchanged, an integer keeps its value, a non-empty bool becomes "1", and a list keeps its non-blank lines |
| OptionValues.NormaliseIdempotent | server/api/services.py:231-250 | a stored value normalises to itself |
| ServicesQuery.CollectAll | server/api/services.py:70-73 | "all" after known names lifts the filter, whatever follows |
| ServicesQuery.CollectKnown | server/api/services.py:75-76 | known names without "all" select exactly their statuses |
| ServicesQuery.CollectUnknown | server/api/services.py:77-79 | the first unknown name before any "all" is reported |
| ServicesQuery.StatusFilterSpec | server/api/services.py:69-82 | "all" disables filtering; otherwise every name must be known; no names means active only (corrected) |
| ServicesQuery.UnknownStatusFails | server/api/services.py:78-79 | as written an unknown status is an internal error; corrected it is a bad request |
| ServicesQuery.ParseStatusFilter | server/api/services.py:69-82 | the loop over the status arguments computes `StatusFilter` (corrected: an unknown status is a 400) |
| ServicesQuery.ServiceColumns | server/api/services.py:84-93 | the mapping's own columns hold no option column |
| ServicesQuery.ShowSplitSpec | server/api/services.py:84-93 | each shown column is either a mapping column or an `options.` column, and the two together account for all of them |
| ServicesQuery.RemoveOptionColumns | server/api/services.py:92-93 | removing the prefixed option columns leaves exactly the mapping columns |
| ServicesQuery.SplitShow | server/api/services.py:84-93 | the two loops compute the split |
| ServicesUpdate.FoundCount | server/api/services.py:205 | the count matches exactly when every name is found and none repeats |
| ServicesUpdate.FillOptionSpec | server/api/services.py:223-250 | one option rejects the request exactly when its non-empty value is rejected; an empty one clears `required_set` only when required, any other adds its normalised entry |
| ServicesUpdate.FillOptionsErr | server/api/services.py:223-250 | creation fails exactly when a non-empty value is rejected, and then with 400 |
| ServicesUpdate.FillOptionsValues | server/api/services.py:223-255 | the stored entries are exactly the non-empty values sent, normalised |
| ServicesUpdate.FillOptionsRequired | server/api/services.py:221-229 | `required_set` holds exactly when no required option is empty |
| ServicesUpdate.FillOptionsLoop | server/api/services.py:221-256 | the option loop computes `FillOptions` |
| ServicesUpdate.ServiceNamed | server/api/services.py:193-199 | a name resolves exactly when the probe has a service with it |
| ServicesUpdate.ResolvableNames | server/api/services.py:193-206 | a request resolves exactly when every name is known and none repeats |
| ServicesUpdate.NewMappingSpec | server/api/services.py:210-260 | a new mapping stores the normalised values and starts active, or in error when a required option is empty |
| ServicesUpdate.BuildMappings | server/api/services.py:208-260 | the loop yields at most one mapping per request entry, and exactly one each when optionless mappings are kept (corrected) |
| ServicesUpdate.BuildMappingsSpec | server/api/services.py:208-260 | corrected: one mapping per request entry, in order, each created as the entry says |
| ServicesUpdate.BuildMappingsOk | server/api/services.py:223-249 | the loop succeeds exactly when no value sent for an option is rejected by the option's type, and otherwise fails with 400 |
| ServicesUpdate.PutMappings | server/api/services.py:179-270 | an unknown probe is 500, and a successful creation returns one mapping per request entry (corrected) |
| ServicesUpdate.PutMappingsSpec | server/api/services.py:179-270 | an unknown probe is 500; for a known probe creation is 404 exactly for an unknown or repeated name; it succeeds exactly when the probe is known, every name is its own and distinct, and no sent value is rejected, and then creates every mapping (corrected) |
| ServicesUpdate.OptionlessMappingDropped | server/api/services.py:252-256 | as written a mapping with no option is never stored; corrected it is |
| ServicesPatch.OptionNamed | server/api/services.py:317-320 | an identifier resolves exactly when the service has an option with it |
| ServicesPatch.OptionIdsDiffer | server/api/services.py:317-320 | different identifiers resolve to different options |
| ServicesPatch.SyncEntrySpec | server/api/services.py:331-366 | one sent entry succeeds exactly when its identifier is known and its value is empty or valid for the type; only a required option sent empty clears `required_filled` |
| ServicesPatch.SyncSentErr | server/api/services.py:326-356 | the edit fails exactly when a sent entry is not accepted: an unknown identifier is 500, a rejected value is 400 |
| ServicesPatch.SyncSentRequired | server/api/services.py:328-338 | `required_filled` holds exactly when no required option was sent empty |
| ServicesPatch.SyncStep | server/api/services.py:358-365 | a stored value is overwritten in place or appended, and no other value moves |
| ServicesPatch.KeptGet | server/api/services.py:367-369 | a value survives unless it is a former option that was not given a value |
| ServicesPatch.DropUnsent | server/api/services.py:367-369 | the deletion loop computes `Kept` |
| ServicesPatch.PatchedValuesSpec | server/api/services.py:326-369 | after an edit, a value is stored exactly for each option sent non-empty, with its normalised value |
| ServicesPatch.SyncSentLoop | server/api/services.py:330-365 | the loop over sent entries computes `SyncSent` |
| ServicesPatch.PatchOne | server/api/services.py:304-379 | one edit fails only with 500 or 400 |
| ServicesPatch.PatchStatusRules | server/api/services.py:307-315 | name and description are replaced when sent, and the status changes only when it is not error |
| ServicesPatch.ReactivationAsWritten | server/api/services.py:371-377 | as written, reactivation depends only on no required option being sent empty |
| ServicesPatch.Reactivation | server/api/services.py:371-377 | corrected, a mapping is reactivated exactly when every required option was given a value |
| ServicesPatch.PatchKeepsDistinct | server/api/services.py:322-365 | an edit never stores two values for one option |
| ServicesPatch.OmittedRequiredReactivates | server/api/services.py:326-377 | as written, an edit sending no options reactivates a mapping whose required option is still unset |
| ServicesStore.FoundIdsCount | server/api/services.py:289-296 | the row count matches exactly when every id is owned by the probe and none repeats |
| ServicesStore.ApplyPatchesOk | server/api/services.py:303-379 | with distinct ids, the edit fails exactly when one mapping's edit fails, and unsent mappings are unchanged |
| ServicesStore.ApplyPatchesEdits | server/api/services.py:298-379 | every mapping sent becomes its own edit of its original state |
| ServicesStore.PatchMappings | server/api/services.py:280-389 | an unknown probe is 500, and a successful edit keeps exactly the stored mapping ids (corrected reactivation) |
| ServicesStore.PatchMappingsSpec | server/api/services.py:280-389 | an unknown probe is 500; an unowned or repeated id is 404; otherwise every sent mapping is edited (corrected reactivation) |
| ServicesStore.Numbered | server/api/services.py:262 | the new mappings get consecutive fresh ids, and existing ones are kept |
| ServicesStore.MappingStore.Put | server/api/services.py:179-270 | the mappings become the old ones plus those `PutMappings` creates (corrected: optionless mappings are stored too), and a failure changes nothing |
| ServicesStore.MappingStore.Patch | server/api/services.py:280-389 | the mappings become `PatchMappings` of the old ones (corrected reactivation), and a failure changes nothing |
| ServicesStore.PatchMapping | server/api/services.py:304-379 | one edit, with its loops, computes `PatchOne` (corrected reactivation) |
| ServicesStore.BuildLoop | server/api/services.py:208-260 | the creation loop computes `BuildMappings` (corrected: optionless mappings are kept) |
| ServicesStore.NumberLoop | server/api/services.py:262-263 | the storing loop computes `Numbered` |
| JsonSchema.LayerGet | server/lib/schema.py:62-75 | a key set by a run of conditional insertions has its last value; every other key is as before |
| JsonSchema.StartGet | server/lib/schema.py:57-60 | the starting dictionary is the update, last value per key, or empty |
| JsonSchema.NestedGet | server/lib/schema.py:123-141 | subclass keys go to the base class as its update, so base keys win |
| JsonSchema.CallGet | server/lib/schema.py:56-77 | each key has the schema's value when set, else the update's |
| JsonSchema.CallDistinct | server/lib/schema.py:56-77 | a call never emits a key twice |
| JsonSchema.UpdateOverride | server/lib/schema.py:57-77 | update keys survive unless the schema sets the same key |
| JsonSchema.CompoundIgnoresUpdate | server/lib/schema.py:663-666 | a compound schema emits exactly its one keyword, its sub-schemas serialised in order, and ignores the update |
| JsonSchema.AttributesDistinct | server/lib/schema.py:56-552 | no schema kind emits the same keyword twice, and each emits exactly its keyword list |
| JsonSchema.CallEntry | server/lib/schema.py:62-75 | an attribute that is set is emitted; otherwise the update's value stays |
| JsonSchema.CallOther | server/lib/schema.py:56-77 | a key that is no attribute is left as the update gave it |
| JsonSchema.TypeKey | server/lib/schema.py:62-63 | "type" is the declared type's name, whatever the update says |
| JsonSchema.ObjectAdditional | server/lib/schema.py:348-352 | "additionalProperties" is the flag, or the schema serialised |
| JsonSchema.ObjectDefaults | server/lib/schema.py:377-475 | an Object allows additional properties by default; an ExplicitObject never does; both are of type "object" |
| JsonSchema.ObjectProperties | server/lib/schema.py:342-346 | "properties" names the same properties in order, each serialised |
| JsonSchema.ObjectCopies | server/lib/schema.py:354-367 | required and dependencies are copied; patternProperties keeps its schemas unserialised |
| JsonSchema.ArrayItems | server/lib/schema.py:534-538 | a single BaseType schema is serialised, a list becomes a list of the same length in order, and anything else, a single compound or negated schema included, emits no "items" |
| JsonSchema.ExplicitArrayForbids | server/lib/schema.py:559-598 | an ExplicitArray never allows additional items, and is of type "array" |
| JsonSchema.NotKey | server/lib/schema.py:703-711 | Not emits the update's keys plus "not" with the schema serialised |
| ApiClient.NewClient | server/lib/client.py:10-18 | the root ends with "/" afterwards, with at most one character added; an empty root fails |
| ApiClient.NewClientIdempotent | server/lib/client.py:14-18 | normalising a normalised root changes nothing |
| ApiClient.ApiPath | server/lib/client.py:72-76 | the path string the test on line 75 is meant to give: one leading "/" dropped and exactly one trailing "/" |
| ApiClient.DoubledSlash | server/lib/client.py:75-78 | as written, "status/" gets the path string "status//", yet `urljoin` requests the same URL as for "status" |
| ApiClient.ApiPathAgrees | server/lib/client.py:72-76 | for a method not ending in "/", both versions agree |
| ApiClient.ApiPathIdempotent | server/lib/client.py:72-76 | normalising a path twice changes nothing |
| ApiClient.ApiPathLeadingSlash | server/lib/client.py:72-73 | a leading "/" on the method makes no difference |
| ApiClient.SplitRoot | server/lib/client.py:78 | an http or https root splits into scheme, a non-empty host without "/", and a path that starts and ends with "/"; the three give the root back |
| ApiClient.MergeRelative | server/lib/client.py:78 | for a relative reference ending in "/", the segments are an empty one, the non-empty segments of the root's path and of the reference, and an empty one: the empty segments inside are filtered out |
| ApiClient.ResolveRelative | server/lib/client.py:78 | without dot segments, a relative reference ending in "/" resolves to "/" and then every non-empty segment of the root's path and of the reference, each followed by "/" |
| ApiClient.AbsolutePathKept | server/lib/client.py:78 | an absolute path without dot segments replaces the root's path, unfiltered |
| ApiClient.ApiUrl | server/lib/client.py:65-78 | `urljoin` of the root and the as-written path string; when defined, the URL keeps the root's scheme and host, followed by "/" |
| ApiClient.ApiUrlSegments | server/lib/client.py:71-78 | for a relative method without dot segments, the URL is the scheme and host, "/", and then every non-empty segment of the root's path and of the method, each followed by "/" |
| ApiClient.ApiUrlPlain | server/lib/client.py:71-78 | for a root path and a method without empty or dot segments, the URL is the root, the method and one "/", with or without a leading "/" on the method |
| ApiClient.EmptySegmentDropped | server/lib/client.py:71-78 | the methods "a//b" and "a/b" request the same URL |
| ApiClient.ApiUrlAgrees | server/lib/client.py:71-78 | for every root and every method that does not start with "//", the as-written path string and `ApiPath` give the same URL |
| ApiClient.LeadingDoubleSlashKept | server/lib/client.py:71-78 | the method "//x/" requests ".../x//" as written, but ".../x/" with `ApiPath` |
| ApiClient.ProcessResponse | server/lib/client.py:80-96 | 200 with a JSON body gives the body; any other status gives ApiError with method, path, status and body |
| ApiClient.ErrorMessage | server/lib/client.py:99-110 | the message starts with "API Method {http} {method} failed with status " |
| ApiClient.ErrorMessageStatus | server/lib/client.py:109-110 | two errors differing only in status have different messages |
| SelectBuilder.SelectedSpec | server/api/db/select_builder.py:13-23 | selection succeeds exactly when every column is known, giving the mapped values in order; otherwise the first unknown column is named |
| SelectBuilder.JoinsSpec | server/api/db/select_builder.py:20-21 | a table is joined exactly when some requested column lists it |
| SelectBuilder.NoJoinMapping | server/api/db/select_builder.py:20 | without a join mapping, no table is joined |
| SelectBuilder.OuterJoinsSpec | server/api/db/select_builder.py:26-30 | one outer join per table, with its arguments, or a failure for a table without an entry |
| SelectBuilder.Select | server/api/db/select_builder.py:8-32 | the query selects the mapped values and outer-joins each needed table once, in some order |
| SelectBuilder.SelectColumns | server/api/db/select_builder.py:10-21 | the column loop gives the mapped values in request order and the union of the needed tables, or the error for the first unknown column |
| SelectBuilder.JoinAll | server/api/db/select_builder.py:25-30 | the join loop takes every needed table exactly once, in some order, and gives one outer join per table; it fails exactly when some needed table has no entry |

## Left out

- ConfigParser tokenising is left out. Sections, inline comments, lower-casing and valueless keys are not modelled; the model takes the parsed (key, value) lists, or the parser's duplicate failure.
- Process execution, `os.scandir`, `os.access` and HTTP transport are not modelled. They become parameters: a process outcome, a directory listing with an executable flag, and a status code with a decoded body.
- SQL sessions, queries and commits are modelled as in-memory tables. A failed request returns the prior state, which is how a rollback is modelled.
- Timestamps (`now()`) are opaque parameters.
- OptionValues.Normalise: the "double" conversion is a `toDouble` parameter, because floating point is not modelled.
- Text.ParseInt: Python's `int()` also accepts digit groups separated by underscores and non-ASCII digits; the model accepts only an optional sign and ASCII digits, after stripping whitespace.
- JsonSchema: `multipleOf` (server/lib/schema.py:189-190) is left out because it is floating point. Number bounds are integers.
- ApiClient.ApiUrl: Python's `urllib.parse` is not part of this model; `urljoin` is modelled after its documented resolution for an http or https root. The model gives None for the following:
  - a root with another scheme, or a scheme not in lower case, such as "localhost:5000/", which `urlsplit` reads as the scheme "localhost", so that `urljoin` returns the method path alone;
  - a root without a host, or whose host holds brackets, "/" or non-ASCII characters;
  - a root or method with spaces, control characters, "?" or "#" (queries and fragments);
  - a method with ":" (which may start a scheme), a method starting with "//" (a network location), and parameters (";" in a last segment not ending in "/").
- ApiClient.ApiUrlSegments: the lemmas about the URL are stated only for roots and methods without "." or ".." segments; `ResolvePath` models their removal, but no lemma states its effect.
- SelectBuilder.Select: the query objects are opaque. The join order is set iteration order, which Python leaves unspecified, so the model only states that some order exists.
- The delete endpoint (server/api/services.py:390-416) is left out; it only deletes rows by id.
- The listing query of `Services.get` (server/api/services.py:95-168) is left out beyond the status filter and the `show` split, because it is SQL and ORM row assembly.
- Duplicate option ids among a service's stored options are not modelled; lookups take the first match.
- Logging, the probe's main loop, signal handling and sleeping are left out.
- The decorators in server/lib/util.py are left out; they need the Flask request and a validator that is not part of this model.
- Concurrent ingestion batches are left out.
- ProbeApi.ProbeStore.SyncService: runs the corrected marking of mappings that miss a required option (`MarkMissing`), not the unfiltered update of server/api/probe.py:215-225; the as-written update is `MarkMissingAsWritten`, and the Findings row shows where the two differ.
- ProbeApi.ProbeStore.SyncServices: runs `ServiceSteps`, which uses the corrected `MarkMissing` for the same reason.
- ProbeApi.ProbeStore.Put: stores the result of that corrected reconciliation (`PutProbe`).
- ServicesQuery.ParseStatusFilter: computes the corrected filter, where an unknown status is a 400 naming the known statuses; as written, server/api/services.py:78-79 raises TypeError (a 500), which `StatusFilterAsWritten` models.
- ServicesUpdate.BuildMappingsSpec: states the corrected creation, which keeps a mapping that stores no option value; as written (server/api/services.py:252-256) such a mapping is never stored, which OptionlessMappingDropped states.
- ServicesUpdate.PutMappings: runs the corrected creation (`keepEmpty` true) for the reason above; PutMappingsAsWritten is the code as written.
- ServicesStore.BuildLoop: computes the corrected creation (`keepEmpty` true), so it keeps a mapping that stores no option value, unlike server/api/services.py:252-256.
- ServicesStore.MappingStore.Put: stores the corrected creation (BuildLoop with `keepEmpty` true), so a mapping that stores no option value is stored, unlike server/api/services.py:252-256; OptionlessMappingDropped states the as-written behaviour.
- ServicesStore.PatchMapping: computes the corrected edit, which reactivates a mapping only when every required option has a value; as written (server/api/services.py:373-377) it reactivates unless a required option was sent empty, which OmittedRequiredReactivates states.
- ServicesStore.PatchMappingsSpec: states that corrected edit for every sent mapping.
- ServicesStore.MappingStore.Patch: stores that corrected edit for every sent mapping.
- Glob: `fnmatch` bracket classes (`[0-9]`, `[!a]`) are not modelled; the model matches `[` as a literal character, so a pattern such as "cpu[0-9]" matches only itself.
- Text.Upper: only the ASCII letters a-z are upper-cased. Python's `str.upper` also maps other Unicode letters and can change the length ("ß" becomes "SS"); the model keeps every other character and the length.
- ThresholdMatcher.QueryRules: the query orders by (mapped service id, status id) and SQL leaves the order of rows tying on both unspecified; the model keeps such rows in table order (a stable sort), which decides ties between equal-length patterns of one status.

## Findings

| source | as written | input that shows it | evidently intended | confidence | as-written member | corrected member |
|---|---|---|---|---|---|---|
| server/api/services.py:78-79 | the BadRequest message joins the integer keys of the status table, which raises TypeError | status argument "bogus" | a 400 naming the known status names | not executed | ServicesQuery.UnknownStatusFails | ServicesQuery.StatusFilterSpec |
| server/api/services.py:252-256 | a mapping is queued for storing only inside the loop over its options | a service with no options | every mapping is stored | not executed | ServicesUpdate.OptionlessMappingDropped | ServicesUpdate.PutMappingsSpec |
| server/api/services.py:373-377 | reactivation checks only options sent empty, not required options left out | an edit of a mapping in error that sends no options | reactivate only when every required option has a value | not executed | ServicesPatch.OmittedRequiredReactivates | ServicesPatch.Reactivation |
| server/api/probe.py:215-225 | the update ignores its service id and marks a mapping only when every required value is missing | another service's mapping; a mapping with one of two required values | mark this service's mappings that miss any required value | not executed | ProbeApi.MarkMissingAsWrittenTouchesOtherServices | ProbeApi.MarkMissingSpec |
| probe/src/lib/server.py:89-90 | `values.items()` is called on every fetch result, but `fetch` returns None when the plugin exits non-zero (probe/src/service.py:203-206) and the probe loop stores it (probe/src/probe.py:110-112), so the update raises AttributeError and the probe stops | a plugin that exits with status 1 | a failed plugin run is skipped and the other readings are posted | not executed | ProbeServer.FailedFetchFails | ProbeServer.SkipFailedSpec |
