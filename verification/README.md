# Verified model of the RedRouter request pipeline

This project models the parts of RedRouter that keep state, replace a scan by something
faster, or rewrite structured data on the way to an upstream provider, and proves what they
are for:

- `TurnState`: the provenance table behind the Codex turn-state echo guard, compared with the
  unbounded log of the notes made, over every trace of calls.
- `FingerprintSeed`: the system-managed fingerprint seed over every run of saves.
- `FreeModels`: the pool-deduplicated free-tier totals.
- `BetaLists`, `Headers`: the comma lists of `anthropic-beta`, their merge, and the header bag
  they live in.
- `Fingerprints`: the reordering of headers and body fields, and the removal of internal markers.
- `ModelLookup`, `RegistryIndex`, `ScopedIds`: the best-match lookup, the cached indexes, and the
  catalog ids that are printed and parsed back.
- `Endpoints`: endpoint URLs that replace each other and never stack.
- `ErrorRules`: operator error rules, the built-in catalog, and the restatement of misstated
  statuses before classification.
- `SchemaStrip`, `ContextEditing`: the JSON rewrites of tool schemas and context management.
- `ServerReadiness`: the timed polling loop.

`Options`, `Text`, `Seqs`, `Records` and `Json` hold what these share. A JavaScript object is an
ordered record of names and values (`Records`), which is its order as long as no name is an
integer; the name `__proto__`, under which a plain assignment sets the prototype and leaves no field,
is taken not to occur. State that the source changes in place is a class; its methods are proved against
functions on values, and the laws are lemmas about those functions.

What the code calls but does not define is a parameter of the model: case folding (`lower`, any
function unless a lemma says otherwise), JSON text and its parser, hashing (`derive`), the id
safety test, the wire-image test, the clock, fresh UUIDs and the behaviour of the server. Lower-casing
in the GLM suffixes is written out for ASCII, which is exact there: no other character folds into
one of those suffixes. `Array.prototype.sort` is a stable sort, as the language standard requires.

Where code and documentation differ, the model follows the code. The comment on `orderHeaders`
promises headers in the given order for any fingerprint, while an empty order returns the headers
as they are, case variants included. The comment on `getGlobalModel` says that all exact matches
are collected, while only the first row of each provider is: `PoorerFirstRowWins` gives the registries
where the richest row is missed, and `RichestOfAllIff` and `FirstOfAllIff` say exactly when it is not.

## Model

| member | source | states |
|---|---|---|
| TurnState.GuardMatchesLog | open-sse/config/codexTurnState.ts:78-138 | Over every trace of notes and guard calls whose clock never goes back, the table with overwrite, lazy expiry and sweep answers exactly like the unbounded log: the last note of the session is younger than the TTL and names another account. |
| TurnState.GuardAnyClock | open-sse/config/codexTurnState.ts:78-138 | With any clock at all, a strip is made if and only if the unbounded log knows a live foreign note and the session is not forgotten: no call since that note found it expired, be it a guard for the session or the sweep of a note for another. |
| TurnState.LiveIsNotForgotten | open-sse/config/codexTurnState.ts:78-136 | A session whose last note is live at every reading so far is never forgotten. |
| TurnState.Simulation | open-sse/config/codexTurnState.ts:43-138 | In every reachable state the counter is the number of accepted notes, and the entries are the last notes of exactly the sessions that were noted and not forgotten since. |
| TurnState.ClockGoingBackForgets | open-sse/config/codexTurnState.ts:131-136 | A concrete trace with a clock that goes back on which the table has forgotten a record the log still has. |
| TurnState.EntriesAreRecent | open-sse/config/codexTurnState.ts:103-111 | Every entry of a reachable table was written after the last sweep or within the TTL before it. |
| TurnState.TableIsBounded | open-sse/config/codexTurnState.ts:35-44 | A reachable table is no larger than the notes live at the last sweep plus the writes since, at most 255. |
| TurnState.EchoDroppedOnlyWhenForeign | open-sse/config/codexIdentity.ts:258-267 | The echo is passed on exactly as read, or dropped; it is dropped if and only if its provenance is known to be foreign and not forgotten, and with a clock that never goes back if and only if it is known to be foreign. |
| TurnState.EchoFollowsHeaders | open-sse/config/codexIdentity.ts:239-267 | The echo read off the headers: nothing without a value under the turn-state header; else the value, unless the session under session-id, or under session_id when the first is not a safe id, is one the log knows as live, foreign and not forgotten; without a safe id the value is passed on. |
| TurnState.ReadNamedReads | open-sse/config/codexIdentity.ts:145-159 | A header is read as its first value that is not blank, by position, under any case of its name, trimmed. |
| TurnState.SafeSessionIdIff | open-sse/config/codexClient.ts:140-144 | A session id is one to 200 letters, digits, dots, underscores, colons and dashes. |
| TurnState.NormalizedIs | open-sse/config/codexTurnState.ts:46-50 | White space around a session or an account key is no part of it. |
| TurnState.TurnStateTable.SweepExpired | open-sse/config/codexTurnState.ts:78-84 | The loop leaves exactly the entries that expire later than now. |
| TurnState.TurnStateTable.NoteProvenance | open-sse/config/codexTurnState.ts:93-112 | The map and counter after a note, including ignored notes and the sweep on every 256th write, with the trace kept. |
| TurnState.TurnStateTable.IsCrossAccount | open-sse/config/codexTurnState.ts:121-138 | The guard's answer and lazy deletion; true exactly when the log knows a live foreign note that is not forgotten, and for every such note with a clock that never goes back. |
| TurnState.TurnStateTable.ResolveEcho | open-sse/config/codexIdentity.ts:258-267 | Echo and table after resolving the echo of one request, with the echo decided by the three header values as above. |
| FingerprintSeed.SaveDecidesSeed | open-sse/config/codexIdentity.ts:120-143 | A save ignores what the client sends under the seed key; a present seed is kept if and only if the save carries OAuth credentials; an absent one is minted if and only if it does and the mode is not off. |
| FingerprintSeed.OtherPropertiesStored | open-sse/config/codexIdentity.ts:125-142 | Every other property is stored as the client sent it; nothing is stored exactly when there is neither a property nor a seed. |
| FingerprintSeed.SeedSurvivesRuns | open-sse/config/codexIdentity.ts:120-143 | Over any run of OAuth saves a seed, once present, is never rotated or dropped. |
| FingerprintSeed.SeedComesFromSystem | open-sse/config/codexIdentity.ts:125-141 | The seed any run ends with was stored before it or was freshly minted by one of its saves. |
| FingerprintSeed.SessionIdIsStable | open-sse/config/codexIdentity.ts:211-222 | The converged session id is constant over any such run, whatever the account key: it is derived from the version 2 prefix and the seed. |
| FingerprintSeed.SessionIdWithoutSeed | open-sse/config/codexIdentity.ts:76-89 | Without a seed it is derived from the version 1 prefix and the account key, or the first property of the account that says something. |
| FingerprintSeed.FirstOfIsFirst | open-sse/config/codexIdentity.ts:76-89 | That property is the first, in the given order, that is not blank; `default` when none is. |
| FingerprintSeed.OAuthIff | open-sse/config/codexIdentity.ts:160-169 | Either token, when it is not blank, makes the credentials OAuth. |
| FingerprintSeed.ModeIs | open-sse/config/codexIdentity.ts:171-184 | The mode property decides when it is not blank, else the legacy one; what is no mode is session. |
| FingerprintSeed.SeedIs | open-sse/config/codexIdentity.ts:91-95 | The seed is the UUID under its key, white space around it aside; anything else there is none. |
| FingerprintSeed.UuidIff | open-sse/config/codexIdentity.ts:17-17 | A UUID is five dashed groups of hexadecimal digits with a version and a variant. |
| FingerprintSeed.InstallationIdIsStable | open-sse/config/codexIdentity.ts:186-209 | The installation id after such a run is the explicit one of the last save, else the one derived from the seed at the start. |
| FreeModels.DedupedSum | open-sse/config/freeModelCatalog.ts:221-236 | The two loops over the pool map compute the sum over distinct pools of the pool maximum, floored at 0, plus the rows without a pool. |
| FreeModels.PoolMaxIsMax | open-sse/config/freeModelCatalog.ts:231-231 | A pool's figure bounds every counted row, is never negative, and is attained when positive. |
| FreeModels.DedupedIgnoresOrder | open-sse/config/freeModelCatalog.ts:221-236 | The sum is the same for every permutation of the catalog. |
| FreeModels.RowContribution | open-sse/config/freeModelCatalog.ts:228-233 | Inserting a row anywhere adds exactly its value, or what it exceeds its pool's maximum by; a row at or below that maximum adds nothing. |
| FreeModels.DedupedShrinks | open-sse/config/freeModelCatalog.ts:221-236 | Dropping rows never raises a sum of non-negative values. |
| FreeModels.SplitExcess | open-sse/config/freeModelCatalog.ts:250-264 | Two sums over disjoint rows exceed the joint sum by exactly what shared pools count twice. |
| FreeModels.SteadyPlusGated | open-sse/config/freeModelCatalog.ts:255-264 | Steady plus gated tokens are at least the sum over all steady-bucket rows, with equality if and only if no pool has a positive maximum on both sides, in particular when no pool mixes them. |
| FreeModels.FiguresAreOrdered | open-sse/config/freeModelCatalog.ts:281-282 | For non-negative budgets: 0 <= steady <= with credits <= first month. |
| FreeModels.DroppingRowsNeverRaises | open-sse/config/freeModelCatalog.ts:250-302 | For non-negative budgets, removing any rows raises no figure, the boost and the counts included. |
| FreeModels.FiltersNeverRaise | open-sse/config/freeModelCatalog.ts:250-254 | The terms-of-service filter, and leaving out any rows, raise no figure. |
| FreeModels.ComputeTotals | open-sse/config/freeModelCatalog.ts:238-302 | The figures are computed from the loops: those of the rows that take part, as the three rows below describe them. |
| FreeModels.FiguresByRegime | open-sse/config/freeModelCatalog.ts:250-302 | Each figure by the regimes and the column it sums: monthly tokens of open or gated rows of the three monthly regimes, credits that refill, credits granted once; and the pools and models counted. |
| FreeModels.RowFeeds | open-sse/config/freeModelCatalog.ts:250-302 | What one more row without a pool adds to every figure, by its regime and gate; a disabled row, or one to be avoided when those are left out, adds nothing. |
| FreeModels.BoostFeeds | open-sse/config/freeModelCatalog.ts:290-302 | One more boost counts if and only if an open monthly row has its pool, and changes no other figure. |
| BetaLists.RoundTrip | open-sse/config/anthropicHeaders.ts:304-334 | Printing then parsing a comma list is the identity on trimmed, non-empty, comma-free tokens. |
| BetaLists.ParsingGivesTokens | open-sse/config/anthropicHeaders.ts:304-307 | Parsing any string gives such tokens. |
| BetaLists.TokensConcat | open-sse/config/anthropicHeaders.ts:323-326 | A comma concatenates the token lists of its two sides. |
| BetaLists.SpacedToken | open-sse/config/anthropicHeaders.ts:304-307 | A token between white space parses to itself alone. |
| BetaLists.SpacesHaveNoTokens | open-sse/config/anthropicHeaders.ts:304-307 | A piece of white space gives no token; with the two rows above this parses every string. |
| BetaLists.TokenIffPiece | open-sse/config/anthropicHeaders.ts:304-307 | A token is in the list of a string if and only if it stands between white space between two of its commas or ends. |
| BetaLists.JoinConcat | open-sse/config/anthropicHeaders.ts:334-334 | Tokens are printed with a single comma between them. |
| BetaLists.MergedIsMerge | open-sse/config/anthropicHeaders.ts:309-333 | The merge keeps the base tokens as a prefix; what it adds is a subsequence of the client's list, allowed, new in any case; every allowed client token is there in some case. |
| BetaLists.MergeTextIdempotent | open-sse/config/anthropicHeaders.ts:297-335 | Merging the same client list again changes nothing. |
| BetaLists.MergeTextConcat | open-sse/config/anthropicHeaders.ts:297-335 | Merging c1 and then c2 is merging "c1,c2". |
| BetaLists.PushNew | open-sse/config/anthropicHeaders.ts:309-333 | The push loop with its set of seen names computes the merge. |
| BetaLists.MergeClientBeta | open-sse/config/anthropicHeaders.ts:297-335 | The whole function, with absent and blank client lists and the model and body gates of the allow-list. |
| BetaLists.AllowedIff | open-sse/config/anthropicHeaders.ts:310-323 | A beta is allowed if and only if it is listed in any case and neither the long-context gate nor the skills gate is shut on it. |
| BetaLists.HasToolIff | open-sse/config/anthropicHeaders.ts:110-127 | A body has a code execution tool if and only if one is in its tools array; a text, if and only if it parses to such a body. |
| BetaLists.CodeExecutionToolIff | open-sse/config/anthropicHeaders.ts:127-149 | A tool is one by its type, plain or with a version, its name, or the name of its function. |
| Headers.AppendStep | open-sse/config/anthropicHeaders.ts:58-76 | With one variant of the header at most, appending adds the token at the end unless it is there, and moves nothing else. |
| Headers.RemoveStep | open-sse/config/anthropicHeaders.ts:82-100 | With one variant at most, removing takes out every occurrence of the token and nothing else; an emptied header disappears. |
| Headers.RemovalIsCompleteIff | open-sse/config/anthropicHeaders.ts:87-99 | With any number of variants, removal is complete if and only if no variant after the first carries the token. |
| Headers.SecondVariantKeepsToken | open-sse/config/anthropicHeaders.ts:82-100 | Two variants with the token: one removal leaves it in the bag, the second takes it out. |
| Headers.SyncRun | open-sse/config/anthropicHeaders.ts:181-203 | After any run of syncs the token is present exactly when the last one wanted it; all other tokens and headers keep their places. |
| Headers.SyncRunOnLists | open-sse/config/anthropicHeaders.ts:58-100 | For a bag with any number of case variants of the header, the token lists of all variants after any run: each removal gives up one more leading variant that holds nothing else, only the first one left is touched, and the other headers stay. |
| Headers.RunCarriesIff | open-sse/config/anthropicHeaders.ts:58-100 | With any number of variants, after any run the token is in the bag if and only if the last sync wanted it or a variant beyond the reach of the removals had it from the start. |
| Headers.SkillsFollowLastBody | open-sse/config/anthropicHeaders.ts:181-203 | After any sequence of calls the skills token is present if and only if the last body sent to an Anthropic-family provider had a code execution tool. |
| Headers.FamilyIff | open-sse/config/anthropicHeaders.ts:187-195 | A call is for the Anthropic family by name, prefix, wire image or the caller's word. |
| Headers.ApplyClientStep | open-sse/config/anthropicHeaders.ts:348-365 | The header's tokens become the merge when there is a header or one may be seeded; other headers are unchanged. |
| Headers.CcMergeIsClean | open-sse/config/anthropicHeaders.ts:439-448 | Merging two case-unique header sets gives a case-unique one that holds exactly the overlay under its names and leaves every other header alone, in order. |
| Headers.HeaderBag.AppendBeta | open-sse/config/anthropicHeaders.ts:58-76 | The bag after an append, in place; with one variant at most, the token list grows by the missing token and nothing else moves. |
| Headers.HeaderBag.RemoveBeta | open-sse/config/anthropicHeaders.ts:82-100 | The bag after a removal, in place; with one variant at most, the token list loses the token and nothing else moves. |
| Headers.HeaderBag.SyncSkills | open-sse/config/anthropicHeaders.ts:181-203 | The bag after a sync, unchanged for other providers; with one variant at most, the token list gains or loses the skills token and nothing else moves. |
| Headers.HeaderBag.ApplyClientBeta | open-sse/config/anthropicHeaders.ts:348-365 | The bag after merging the client's list, in place; with one variant at most, the token list becomes the merge and nothing else moves. |
| Headers.HeaderBag.MergeCc | open-sse/config/anthropicHeaders.ts:439-448 | The delete loop and the assignment give the other headers followed by the overlay; case-unique inputs give a case-unique result. |
| Fingerprints.OrderFields | open-sse/config/cliFingerprints.ts:206-226 | The two loops give the ordered record. |
| Fingerprints.OrderedIsPermutation | open-sse/config/cliFingerprints.ts:206-226 | Ordering is a permutation of the fields. |
| Fingerprints.OrderedIsListedThenRest | open-sse/config/cliFingerprints.ts:206-226 | The result is the listed fields followed by the others in their original order. |
| Fingerprints.ListedMembers | open-sse/config/cliFingerprints.ts:212-218 | The listed part holds exactly the fields of the record under listed names. |
| Fingerprints.ListedByRank | open-sse/config/cliFingerprints.ts:212-218 | The listed part follows the list, by strictly rising first place. |
| Fingerprints.OrderedIdempotent | open-sse/config/cliFingerprints.ts:206-226 | Ordering twice is ordering once. |
| Fingerprints.StripCommutesWithOrder | open-sse/config/cliFingerprints.ts:302-320 | Removing fields by name commutes with ordering. |
| Fingerprints.SentBody | open-sse/config/cliFingerprints.ts:264-330 | No field with the internal prefix and none of the four executor markers is ever sent, every other field is, and stripping after ordering gives the same body. |
| Fingerprints.RequestBody.StripInternal | open-sse/config/cliFingerprints.ts:302-320 | The delete loops leave exactly the fields that are neither listed markers nor prefixed, and the listed ones too when they are kept. |
| Fingerprints.OrderHeaders | open-sse/config/cliFingerprints.ts:232-262 | The loops over the case-insensitive lookup give the ordered headers; an empty order gives the headers back. |
| Fingerprints.HeadersInOrder | open-sse/config/cliFingerprints.ts:232-262 | With an order, the result is the headers under listed names by strictly rising place in the order, each the last one given, and then the rest; on case-unique headers the rest is as it was. |
| Fingerprints.HeadersKeepLast | open-sse/config/cliFingerprints.ts:232-262 | Under every folded name the last header given is kept; the result is case-unique if and only if there is an order or the headers already were. |
| Fingerprints.HeadersArePermuted | open-sse/config/cliFingerprints.ts:232-262 | Case-unique headers are permuted. |
| Fingerprints.HeadersIdempotent | open-sse/config/cliFingerprints.ts:232-262 | Ordering headers is idempotent, always. |
| ModelLookup.GetGlobalModel | open-sse/config/providerModels.ts:108-147 | The first richest exact-id candidate, else the first richest basename candidate, else the longest prefix of the basename with ties by richness and then order. |
| ModelLookup.RichestOfAllIff | open-sse/config/providerModels.ts:109-128 | The documented choice: the answer of the exact stage, or of the basename stage, is the richest of all rows under its id if and only if none of them is richer than every provider's first row. |
| ModelLookup.FirstOfAllIff | open-sse/config/providerModels.ts:109-128 | With ties: the row chosen is the first of the richest of all rows in registry order if and only if every row is matched by a first row up to its own provider, or poorer than some first row. |
| ModelLookup.PoorerFirstRowWins | open-sse/config/providerModels.ts:111-117 | A provider that lists a poor row before a rich one of the same id: the poor row, and it alone, is the answer. |
| ModelLookup.GlobalModelIsUnique | open-sse/config/providerModels.ts:108-147 | That promise determines the answer. |
| ModelLookup.SortedHeadIsFirstRichest | open-sse/config/providerModels.ts:115-117 | The head of the stable sort by falling richness is the first among the richest. |
| Seqs.SortIsTheStableSort | open-sse/config/providerModels.ts:115-117 | A sequence is the sorted one if and only if it is sorted by rank and keeps the order within every rank, so the sort of the model is the one every stable sort gives. |
| ModelLookup.LongestPrefix | open-sse/config/providerModels.ts:130-146 | The nested loop finds the first best prefix match. |
| ModelLookup.VendorIsIgnored | open-sse/config/providerModels.ts:119-128 | An id that no row has exactly is looked up as what follows its last slash. |
| ModelLookup.BasenameIs | open-sse/config/providerModels.ts:120-120 | The basename is what follows the last slash, and the whole id when nothing does. |
| ModelLookup.FlagsCount | open-sse/config/providerModels.ts:95-106 | What each declared flag adds to the richness of a row. |
| ModelLookup.LimitsCount | open-sse/config/providerModels.ts:95-106 | What each declared limit, field or list adds; a row that declares nothing has none. |
| ModelLookup.FindRegistryModelById | open-sse/config/providerModels.ts:159-172 | The first provider's row under the id, else under a differing basename. |
| ModelLookup.FoundIsFirst | open-sse/config/providerModels.ts:159-172 | The row found is the first under the id of the first provider that has it, or under the basename when no provider has it. |
| ModelLookup.ExactLookupAgrees | open-sse/config/providerModels.ts:149-172 | Whenever the exact lookup finds a row, the best match has the same id. |
| RegistryIndex.BuildIndex | open-sse/config/registryUtils.ts:38-43 | The first-wins index answers every lookup like the linear scan. |
| RegistryIndex.IndexCache.IndexOf | open-sse/config/registryUtils.ts:32-47 | Cached or built now, the index is that of its own registry; other cached indexes stay. |
| RegistryIndex.IndexCache.ParseModel | open-sse/config/registryUtils.ts:53-77 | After any calls on any registries, parsing answers like the scan. |
| RegistryIndex.ParseIs | open-sse/config/registryUtils.ts:53-77 | What a string parses to, by position: nothing when empty or unsafe, else the first entry whose id or alias starts it, else the first entry that lists it, else no provider. |
| RegistryIndex.ListerIsFirst | open-sse/config/registryUtils.ts:28-31 | The scan finds the first entry that lists the model. |
| RegistryIndex.GetAllModels | open-sse/config/registryUtils.ts:83-108 | The nested loops list each model under the provider's id and alias, in order, with the caller's extra columns spread over each row. |
| RegistryIndex.CatalogConcat | open-sse/config/registryUtils.ts:89-107 | The catalog lists entries in order. |
| RegistryIndex.ModelsConcat | open-sse/config/registryUtils.ts:91-106 | It lists the models of an entry in order. |
| RegistryIndex.ModelRows | open-sse/config/registryUtils.ts:92-105 | Each model has a row under the id of its entry and one under its alias, for as many of these as there are. |
| RegistryIndex.RowColumns | open-sse/config/registryUtils.ts:98-104 | A row has the columns the caller adds, and of its own id, name and provider those that these do not replace. |
| RegistryIndex.CatalogRoundTrip | open-sse/config/registryUtils.ts:53-108 | With slash-free prefixes shared by no two providers, every row is made from a model under a prefix of its provider, and the printed id, when safe, parses back to that provider and the id of that model. |
| RegistryIndex.UnsupportedParams.EnsurePopulated | open-sse/config/providerRegistry.ts:242-255 | The lazily filled map answers like the scan for the first declared restriction. |
| RegistryIndex.UnsupportedParams.GetUnsupported | open-sse/config/providerRegistry.ts:263-288 | The lookup through the map equals the lookup by scans, in its four stages. |
| RegistryIndex.UnsupportedIs | open-sse/config/providerRegistry.ts:263-288 | The four stages by the rows that declare them: the provider's own row under the id or an alias, the first row of any provider, the first under what follows the last slash, the provider-wide list. |
| ScopedIds.ScopedSplits | open-sse/config/embeddingRegistry.ts:513-528 | A printed id splits at its provider, and the rest normalizes back to the model id if and only if the row is not ambiguous. |
| ScopedIds.EmbeddingRoundTrip | open-sse/config/embeddingRegistry.ts:627-642 | A safe catalog id that no alias captures parses back to its own provider and model if and only if the provider does not also list the id without its prefix; when a dynamic provider has the same key, if and only if the id does not carry the prefix itself. |
| ScopedIds.RerankRoundTrip | open-sse/config/rerankRegistry.ts:172-205 | The same for the rerank parser. |
| ScopedIds.BareIdHidesScoped | open-sse/config/embeddingRegistry.ts:497-528 | A provider that lists both an id and the id under its own prefix: what is printed for the second parses to the first, in both parsers. |
| ScopedIds.AliasedModelParses | open-sse/config/embeddingRegistry.ts:497-507 | An aliased model id, bare or after a slash, is parsed as what the first alias that captures it stands for. |
| ScopedIds.AliasedProviderParses | open-sse/config/embeddingRegistry.ts:545-563 | A provider alias in front of a name parses to the provider it stands for, in both parsers. |
| ScopedIds.NormalizeIs | open-sse/config/embeddingRegistry.ts:513-524 | A name under a provider becomes itself, or itself under the prefix, when listed so, and loses the prefix otherwise. |
| ScopedIds.LongKeyParses | open-sse/config/embeddingRegistry.ts:565-576 | An id whose first part names no provider parses to the first provider whose key starts it, in both parsers. |
| ScopedIds.UnknownParses | open-sse/config/embeddingRegistry.ts:578-583 | Else it parses, for embeddings, to the first dynamic provider whose key starts it, or to its own first part; for reranking, to its lister. |
| ScopedIds.BareIdParses | open-sse/config/embeddingRegistry.ts:585-642 | An id without a slash parses to the first provider that offers it, in both parsers. |
| ScopedIds.RejectedParses | open-sse/config/embeddingRegistry.ts:627-632 | Nothing, an empty id and an unsafe id parse to nothing. |
| ScopedIds.CatalogRoundTrip | open-sse/config/embeddingRegistry.ts:704-722 | Every row of the catalog is made from a model of a provider, and its printed id, when safe and not captured by an alias, parses back, in both parsers, to that provider and the id of that model if and only if the row is not ambiguous, or, where a dynamic provider has the key, the id carries no prefix. |
| ScopedIds.GetAllModels | open-sse/config/embeddingRegistry.ts:704-722 | The nested loops list every model under its scoped id, with its name, provider and dimensions. |
| ScopedIds.CatalogConcat | open-sse/config/embeddingRegistry.ts:711-720 | The catalog lists providers in order. |
| ScopedIds.ProviderRows | open-sse/config/embeddingRegistry.ts:712-719 | It lists the models of a provider in order, one row each, with every column. |
| ScopedIds.ParseRerankModel | open-sse/config/rerankRegistry.ts:172-205 | The early-return loops compute the parse. |
| Endpoints.RouterReplaces | open-sse/config/redRouter.ts:5-24 | Applying one endpoint and then another is applying the last alone, and a refused URL stays refused. |
| Endpoints.RouterAnswers | open-sse/config/redRouter.ts:19-22 | The four endpoints of an accepted URL, whichever of the five endpoints or none its path ends in: the path without it, /v1 unless it is there, and the endpoint; a trailing slash makes no difference. |
| Endpoints.RedRouterEndpoint | open-sse/config/redRouter.ts:5-24 | The path built step by step, or the refusal, which is made exactly for other protocols, credentials, a query or a hash; an accepted URL ends in the versioned endpoint, and any later endpoint replaces it. |
| Endpoints.GlmReplaces | open-sse/config/glmProvider.ts:449-460 | For every string, a chain of joins with the OpenAI paths is the last one applied to the original. |
| Endpoints.StripUndoesJoin | open-sse/config/glmProvider.ts:426-460 | Stripping undoes such a join and keeps query and hash. |
| Endpoints.JoinAnswers | open-sse/config/glmProvider.ts:426-460 | The join of a path to any URL: the base without the endpoint it ends in, in any case, a messages endpoint with its version; the path after it, without a version the base already ends in; and the query and hash. |
| Endpoints.JoinIgnoresSlash | open-sse/config/glmProvider.ts:429-431 | A slash before the query makes no difference to the strip and the join. |
| Endpoints.StripKnownEndpoint | open-sse/config/glmProvider.ts:426-447 | The slash loop and the branches compute the stripped base and the suffix. |
| Endpoints.MessagesJoinIsIdempotentIff | open-sse/config/glmProvider.ts:449-460 | Joining the versioned messages path twice is joining it once if and only if the stripped base does not end in version 1, or ends in exactly one lower-case /v1. |
| Endpoints.DoubledVersionIsNotKept | open-sse/config/glmProvider.ts:452-457 | Every base that ends in a doubled version is a counterexample to the unconditional claim. |
| ErrorRules.OperatorRules.SetRules | open-sse/config/providerErrorRules.ts:78-88 | Over any sequence of updates the table is made from the last one alone, empty lists left out, later entries of one folded name winning. |
| ErrorRules.OperatorRules.GetMatch | open-sse/config/providerErrorRules.ts:434-482 | After any sequence of updates the loops give the match of the first own rule that hits, and the catalog's answer on the folded headers when none does; a table given directly takes the place of the settings. |
| ErrorRules.FirstHitIsFirst | open-sse/config/providerErrorRules.ts:452-460 | An operator hit is that of the first rule with the status whose pattern occurs, case aside, at some position of the text; it has the rule's scope, cooldown and reason, or quota exhaustion when there is none. |
| ErrorRules.BodyTextIs | open-sse/config/providerErrorRules.ts:450-451 | Patterns are looked for in a string as it is, and in the JSON text of anything else. |
| ErrorRules.FirstMatchIsFirst | open-sse/config/providerErrorRules.ts:477-481 | The catalog's answer is that of its first rule that gives one. |
| ErrorRules.FoldedHeadersKeepLast | open-sse/config/providerErrorRules.ts:465-476 | The catalog sees each header under its folded name, the last value given winning. |
| ErrorRules.TableHoldsLastEntries | open-sse/config/providerErrorRules.ts:78-88 | The table has, for every folded name, exactly the last non-empty list given under it. |
| ErrorRules.LookupAfterUpdates | open-sse/config/providerErrorRules.ts:342-482 | For every sequence of updates and every error: the first rule of the last update's list that hits decides before the catalog, on the full error text when there is one; otherwise the catalog answers on the same body. The lock scope is honoured exactly for the listed providers and those with rules of their own. |
| ErrorRules.NoProviderNoRules | open-sse/config/providerErrorRules.ts:342-446 | Without a provider there is no match, no honoured lock scope and no full text. |
| ErrorRules.RestateSettles | open-sse/config/upstreamStatusRestatement.ts:101-129 | Restating twice gives the status of restating once, and a positive retry is never lost. |
| ErrorRules.RestatementsAreSettled | open-sse/config/upstreamStatusRestatement.ts:75-89 | The registered rules restate to no status they restate from. |
| ErrorRules.VerdictIs | open-sse/config/providerErrorRules.ts:273-304 | The AgentRouter verdict in full: quota text under three statuses locks the connection, else a denied model under 403 is locked for six hours. |
| ErrorRules.RestatedIs | open-sse/config/upstreamStatusRestatement.ts:69-129 | The AgentRouter restatement in full: 400 or 403 that names the quota without the veto becomes 429, to be retried after a minute unless the error says when. |
| ErrorRules.OthersPassThrough | open-sse/config/upstreamStatusRestatement.ts:101-112 | No other provider's error is restated. |
| ErrorRules.QuoteAddsNoMarker | open-sse/config/providerErrorRules.ts:280-290 | JSON quoting of a string brings no marker into it. |
| ErrorRules.VerdictChangesIff | open-sse/config/providerErrorRules.ts:273-304 | For any body, the verdict under the restated status differs from the raw one if and only if the status is 403, the error names the quota without a veto, and the body denies a model without naming the quota. |
| ErrorRules.ForeignBodyChangesVerdict | open-sse/config/providerErrorRules.ts:273-304 | Such an input: a quota message classified on the text of a denial. |
| ErrorRules.RestatementKeepsVerdict | open-sse/config/upstreamStatusRestatement.ts:69-84 | For every status, message and body, matching the error's own body or message under the restated status gives the verdict of the raw status. |
| ErrorRules.RestatementKeepsLookup | open-sse/config/providerErrorRules.ts:434-482 | The same for the lookup as a whole, after any sequence of updates that leaves the operator without rules for the provider. |
| SchemaStrip.StripKeepsPaths | open-sse/config/toolCloaking.ts:15-30 | A path through the key leads nowhere; every other path leads to the stripped original, so array lengths and order are kept. |
| SchemaStrip.StripIsClean | open-sse/config/toolCloaking.ts:15-30 | The result has the key at no depth, and the strip is the identity exactly on values without it. |
| SchemaStrip.StripIdempotent | open-sse/config/toolCloaking.ts:15-30 | Stripping twice is stripping once. |
| SchemaStrip.StripKeepsFieldOrder | open-sse/config/toolCloaking.ts:22-29 | The remaining fields of an object keep their order. |
| SchemaStrip.StripSchema | open-sse/config/toolCloaking.ts:15-30 | The recursion with its loops computes the strip. |
| SchemaStrip.SanitizeTouchesOnlyParameters | open-sse/config/toolCloaking.ts:39-85 | Off the way through request, tools, an index, functionDeclarations, an index and parameters, every path leads to what it led to; on the way every value is there as before, with its length or its field names in order; below, it leads into the parameters stripped of enumDescriptions. |
| SchemaStrip.ApplyIdempotent | open-sse/config/toolCloaking.ts:39-85 | Sanitizing twice is sanitizing once. |
| SchemaStrip.SanitizePayload | open-sse/config/toolCloaking.ts:39-85 | The maps with their changed flags compute the rewrite; nothing is rebuilt that did not change. |
| ContextEditing.EditsArePartitioned | open-sse/config/contextEditing.ts:59-78 | When an edit is inserted the result is the stable partition of the old edits plus the new one, with nothing lost; with a tool-use edit present the edits are unchanged. |
| ContextEditing.ThinkingComesFirst | open-sse/config/contextEditing.ts:71-77 | After an insertion every thinking edit precedes every tool-use edit. |
| ContextEditing.AppliedIdempotent | open-sse/config/contextEditing.ts:48-82 | A second call changes nothing. |
| ContextEditing.AppliedKeepsTheRest | open-sse/config/contextEditing.ts:54-82 | Other properties of the body and of the context management are preserved. |
| ContextEditing.AppliedExtends | open-sse/config/contextEditing.ts:48-82 | A call that is not enabled changes nothing; an enabled one leaves the old edits when one clears tool uses, and else the thinking edits, the others, and a new edit with its trigger and what it keeps. An absent or scalar context management, or one without an array of edits, has none. |
| ContextEditing.AnthropicBody.ApplyContextEditing | open-sse/config/contextEditing.ts:48-82 | The body after the call, in place, with the edits extended as above; a second call would change nothing, and no other property is touched. |
| ServerReadiness.WaitForServer | electron/lib/serverReadiness.js:14-56 | Unless it comes to stand still, the loop terminates on a shrinking remaining time, never passes the deadline, and its attempts, answer and end are those of a run: attempts start at each wake-up, the first success ends it, and giving up happens at the deadline. |
| ServerReadiness.LimitsAndSleeps | electron/lib/serverReadiness.js:26-52 | An attempt has its own time limit, at least 1, and the loop sleeps for its interval, unless the deadline comes first. |
| ServerReadiness.PollsForeverIff | electron/lib/serverReadiness.js:25-52 | The loop runs forever if and only if it comes to stand still: at an attempt in vain that takes no time, with no interval to sleep. |
| ServerReadiness.RefusalsPollForever | electron/lib/serverReadiness.js:25-52 | Such a run: with no interval and a server that refuses at once there is always another attempt. |
| ServerReadiness.ReadyIffSomeAttemptAnswered | electron/lib/serverReadiness.js:25-55 | The answer is yes if and only if some attempt that the server, the clock and the settings lead to before the deadline is answered ok; the same over the attempts recorded. |
| ServerReadiness.UpServerIsFound | electron/lib/serverReadiness.js:25-52 | A server that answers from some moment on is found when that moment is at least one attempt and one sleep before the deadline. |

## Left out

- The large data tables (models, providers, prompts, free-tier rows): every result is about arbitrary tables of their shape.
- `Headers` instances of the fetch API: headers are plain records, whose names and order the code under study works on.
- FreeModels.ComputeTotals: the sorted provider lists, the sorted per-model list and the headline text of the totals are not modelled; they are projections that feed no figure.
- `normalizeAnthropicHeaderVariants`, `maybeAppendSkillsBeta` and the fixed header sets: the first two are simpler relatives of the merge and the sync, the last are constants.
- Endpoints.RedRouterEndpoint: URL parsing and the normalization of a path by the URL object are not modelled; the URL is given in parts.
- `joinGlmBaseAndPath` with the versioned models and count-tokens paths: the versioned messages path stands for them, with the exact condition under which it replaces itself.
- The catalogs of other providers than AgentRouter: they are arbitrary rule functions of status, folded headers and body.
- The structured error as the body of AgentRouter rules: it is made elsewhere from the response, so for it only ErrorRules.VerdictChangesIff speaks.
- ContextEditing.AnthropicBody.ApplyContextEditing: a context management that is an array gets a property that its JSON does not show; the model keeps the array.
- RegistryIndex.IndexCache.IndexOf: entries of a weak map that vanish with their registry are not modelled; such a registry can no longer be looked up.
- Embedding provider derivation for chat providers, dimension conflicts and request defaults: each is settled by reading one function.
- Client identity headers and metadata of Codex requests: assignments of ids whose derivation is modelled.
- The audio catalog and Vertex model ids: ids that already carry a prefix are printed or rewritten differently there, and the round trip does not hold.
- The Electron process, the service worker and the server's startup: input and output, process control and user interface.
