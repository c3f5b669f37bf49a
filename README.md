# deepl-mock in Dafny

A model of the in-memory DeepL API mock server: the state components
below its Express handlers, written as Dafny and proved against their
specifications.

- **Idle sweep** (`Util`). Every store keeps its records in an
  insertion-ordered map (`OrderedMaps`, a JavaScript `Map`). A periodic
  `cleanup` drops the entries idle for more than ten minutes.
- **Accounts and quota** (`Auth`, `Quota`). Accounts are provisioned on
  first sight of an `auth_key`, with usage classes taken from the test
  session. Each `checkLimit` call checks a usage class and increments its
  count.
- **Test sessions** (`Sessions`). `mock-server-session-*` headers are read
  once per session id. They force dropped requests, `429` answers and
  document failures, and set initial limits and document delays.
- **Requests and handlers** (`Requests`, `Server`):
  - `getParam`;
  - the text translation handler (`429` countdown, then quota, then
    translation);
  - the document upload handler (quota chain, then extension checks, then
    store and translate).
- **Languages** (`Languages`). The language table, the language-type
  predicates, the language lists, and the placeholder translator with
  source detection by prefix.
- **Documents** (`Documents`). Creation with random hex id and key,
  status derived from age and session delays, one-shot translation,
  removal and sweep. Files on disk are a set of existing paths.
- **Glossaries**, in three versions (`GlossariesV1`, `GlossariesV2`,
  `GlossariesV3`):
  - the shared TSV parser and serialiser (`GlossaryEntries`);
  - the CSV row filter (`GlossaryCsv`);
  - ownership-checked listing (`Ownership`).
- **Style rules** (`StyleRules`). An owner-checked store with a built-in
  default rule and slice-based pagination.

Clock reads (`Date.now()`, `new Date()`) are an explicit `now` in
milliseconds. `Math.random` draws and `uuid.v1` identifiers are inputs.
The CSV tokeniser's rows and `Number()` header values are given
already parsed.

## Model

| member | source | states |
|---|---|---|
| Util.Swept | util.js:5-14 | after a sweep every remaining entry is unexpired; every unexpired entry stays with its value; no key is added |
| Util.Cleanup | util.js:5-14 | the loop over the map in iteration order yields exactly `Swept`, and the finaliser calls are exactly `Evictions`, in visiting order |
| Util.EvictionsMembers | util.js:8-12 | the finaliser is called with each expired entry's own value and key, and with every expired entry |
| Util.EvictionsOncePerKey | util.js:8-12 | the finaliser is called at most once per key |
| Util.KeptKeysMembers | util.js:8-13 | a key survives exactly when it was present and has not expired |
| Util.BoundaryEntryKept | util.js:9 | an entry idle for exactly the lifetime is kept (the test is strict) |
| Util.SweepIdempotent | util.js:5-14 | sweeping twice at the same time equals sweeping once |
| Util.HttpError.Status | util.js:29-31 | the stored status, or 400 when none is set |
| Util.HttpError.Body | util.js:33-38 | `message`/`detail` keys are present exactly when their values are non-empty, and no other key |
| OrderedMaps.OrderedMap.Put | util.js:8-11 | `set` keeps a present key's position and appends a new key last |
| OrderedMaps.OrderedMap.Delete | util.js:11 | `delete` drops the key from entries and from the order |
| Quota.Charge | index.js:50-59 | a class with no limit passes unchanged; otherwise pass iff count + request <= limit; only that count grows, by exactly the request; limits are preserved |
| Quota.Usage.CheckLimit | index.js:50-59 | the in-place counters after the call are those of `Charge` |
| Quota.Usage.CheckDocumentLimits | index.js:141-143 | the in-place counters follow `DocumentCharge`: character, then document, then team document |
| Quota.DocumentChargePasses | index.js:141-143 | the chain passes iff each class, charged in turn, passes |
| Quota.DocumentRefusalKeepsCharacterCharge | index.js:141-143 | a refused document charge keeps the character increment already made |
| Requests.Lookup | index.js:27-28 | the named field of the query (GET) or body, or missing |
| Requests.CheckSingle | index.js:36-44 | lower/upper-casing of a present value; a validator result of `false` or a value outside `allowedValues` is refused |
| Requests.GetParam | index.js:26-48 | multi: missing becomes `[]`, a scalar becomes a one-element list, required and empty throws; single: first array element, required and missing throws, else the default |
| Auth.AuthKeyOf | auth.js:41-42 | the query key if truthy, else the body key, first element of an array |
| Auth.InitialCountsZero | auth.js:14-29 | every usage class of a new account starts at count 0 |
| Auth.InitialCharacterAndDocumentClasses | auth.js:17-24 | the character (document) class exists unless the session limit is exactly 0; limit from session, else 20000000 (10000) |
| Auth.InitialTeamDocumentClass | auth.js:25-28 | the team document class exists iff the session limit is positive, with that limit |
| Auth.InitialCountersWithoutSession | auth.js:17-28 | without a session an account gets the character and document classes at their defaults |
| Auth.AccountRegistry.UserExists | auth.js:10-12 | true iff the key is not reserved and an account exists |
| Auth.AccountRegistry.CreateUser | auth.js:14-36 | a fresh usage record with the initial counters, stored under the key |
| Auth.AccountRegistry.Authenticate | auth.js:38-54 | reserved keys get 403 and create nothing; an unseen key is provisioned; an existing account keeps its usage; `used` is refreshed |
| Auth.AccountRegistry.Sweep | auth.js:6-8 | the account map after the idle sweep |
| Sessions.FieldsFromMembers | sessions.js:24-35 | a field is set iff it is one of the eight listed, its header is present and numeric; its value is the header's |
| Sessions.CreateSession | sessions.js:10-39 | the loop over the eight listed headers yields `FieldsFrom` |
| Sessions.OtherHeadersIgnored | sessions.js:13-22 | an unlisted header does not change the session |
| Sessions.NonNumericHeaderLeavesFieldUnset | sessions.js:27-29 | a non-numeric header leaves its field absent |
| Sessions.CountDown | sessions.js:60-61 | the counter drops by exactly one and nothing else changes |
| Sessions.Admit | sessions.js:60-64 | forward iff `no_response_count` is not positive; otherwise count down |
| Sessions.ForwardsWhenSpent | sessions.js:60-64 | once the count is spent every request is forwarded |
| Sessions.NoResponseCountdown | sessions.js:60-64 | with count n, the next n requests are dropped and the rest forwarded |
| Sessions.SessionRegistry.Handle | sessions.js:47-64 | no id gives an unstored empty session; a known id is not re-created; `used` is refreshed; then the countdown |
| Sessions.SessionRegistry.Update | index.js:106-107 | a handler's counter changes are written back to the stored session only |
| Sessions.SessionRegistry.Sweep | sessions.js:6-8 | the session map after the idle sweep |
| Languages.IsSourceLanguage | languages.js:56-61 | true for an absent code |
| Languages.IsTargetLanguage | languages.js:63-67 | false for an absent code |
| Languages.IsGlossaryLanguage | languages.js:69-72 | true exactly for EN, DE, FR and ES, ignoring case |
| Languages.SupportsFormality | languages.js:74-78 | false for an absent code |
| Languages.PredicatesIgnoreCase | languages.js:56-78 | the predicates answer the same for a code and its upper case |
| Languages.RowAnswers | languages.js:56-78 | for a code of the table the predicates follow that row's type and formality |
| Languages.AcceptedCodesAreKnown | languages.js:56-78 | an accepted code upper-cases to a code of the table |
| Languages.EnglishVariants | languages.js:13-15 | EN is source-only; EN-GB and EN-US are target-only |
| Languages.PortugueseVariants | languages.js:37-43 | PT is source-only; PT-BR and PT-PT are target-only with formality |
| Languages.GetSourceLanguages | languages.js:80-91 | the `forEach` loop yields `SourceList` of the table |
| Languages.GetTargetLanguages | languages.js:93-105 | the `forEach` loop yields `TargetList` of the table |
| Languages.SourceListMembers | languages.js:80-91 | the list holds exactly the source-capable rows, named `source_name ?? name` |
| Languages.TargetListMembers | languages.js:93-105 | the list holds exactly the target-capable rows, named `target_name ?? name` |
| Languages.TranslateLine | languages.js:107-118 | empty stays empty; a truthy glossary hit wins; otherwise the target's fixed text |
| Languages.TranslatePreservesLineCount | languages.js:136 | the output has as many `\n`-separated lines as the input |
| Languages.FirstPrefixCode | languages.js:125-132 | the first table code whose text prefixes the input, or EN |
| Languages.Translate | languages.js:120-142 | the text is `TranslateText`; without source and glossary the detected language is `FirstPrefixCode`, else the given source |
| JsStrings.SplitJoin | languages.js:136 | splitting a join on its separator gives the parts back |
| GlossaryEntries.FirstIndex | glossariesV3.js:21-28 | the first index whose source matches, or -1 iff none does |
| GlossaryEntries.FindEntryIndex | glossariesV3.js:21-28 | the loop returns `FirstIndex` |
| GlossaryEntries.Lookup | glossaries.js:74-82 | the target of the first entry whose source is exactly the input, none iff no source matches |
| GlossaryEntries.FindEntry | glossaries.js:13-20 | the loop returns `Lookup` |
| GlossaryEntries.LookupDistinct | glossaries.js:74-82 | with distinct sources, each entry's source finds its own target |
| GlossaryEntries.ReadLine | glossaries.js:34-42 | blank after trim skips; non-blank without tab fails; source before the first tab, target after |
| GlossaryEntries.ConvertTsvToList | glossaries.js:26-51 | the parser loop returns `ParseTsv` |
| GlossaryEntries.ParseLines | glossaries.js:32-50 | the loop over the split lines returns `ParseFrom` of their readings, from line 0 with no entries |
| GlossaryEntries.ParseTsvReference | glossaries.js:26-51 | parsing succeeds iff every non-blank line has a tab and sources are distinct; the list is the lines' entries in order |
| GlossaryEntries.ParseTsvErrors | glossariesV3.js:40-58 | a missing tab names its line; a duplicate names its line and the index of the earlier entry with that source |
| GlossaryEntries.ParsedSourcesDistinct | glossaries.js:43-46 | a parsed list has pairwise distinct, tab-free sources |
| GlossaryEntries.TsvRoundTrip | glossaries.js:22-51 | parsing the serialisation of a distinct, serialisable list gives it back |
| GlossaryEntries.TsvHttpError | glossariesV3.js:44-55 | 400 "Invalid glossary entries provided", with the detail naming the line (and in V3 the earlier index) |
| GlossaryCsv.CsvEntries | glossariesCsvParser.js:9-39 | empty input fails first; otherwise the kept rows in order, and no kept row is a rejection |
| GlossaryCsv.ConvertCsvToList | glossariesCsvParser.js:9-39 | the row callback loop returns `CsvEntries` |
| GlossaryCsv.KeptEntriesMembers | glossariesCsvParser.js:24-29 | an entry is kept iff its row has source and target and is not dropped by its language cells |
| GlossaryCsv.LanguageCellsRule | glossariesCsvParser.js:26-28 | a row is dropped only when both language cells are present and both differ, ignoring case |
| GlossaryCsv.DuplicatesKept | glossariesCsvParser.js:29 | repeated sources are not rejected |
| GlossaryCsv.CsvHttpError | glossariesCsvParser.js:10-12 | both CSV failures are 400 errors |
| GlossariesV1.IsSupportedLanguagePair | glossaries.js:65-68 | true exactly for the six pairs, case-sensitive |
| GlossariesV1.SupportedPairsFacts | glossaries.js:65-68 | every supported pair has English on one side; lower case is unsupported |
| GlossariesV1.TranslatorFindsEntries | glossaries.js:103 | the glossary's `translate` finds each entry's target |
| GlossariesV1.GlossaryStore.CreateGlossary | glossaries.js:84-108 | the pair is checked before the entries; a glossary is stored only when both pass |
| GlossariesV1.GlossaryStore.GetGlossary | glossaries.js:110-117 | the owner gets the glossary with `used` refreshed; a wrong owner fails like a missing id |
| GlossariesV1.GlossaryStore.GetGlossaryInfo | glossaries.js:110-121 | the info of the owned glossary, with only its `used` time refreshed in the store; otherwise not found and no change |
| GlossariesV1.GlossaryStore.GetGlossaryInfoList | glossaries.js:123-132 | the caller's glossaries' infos, in map order |
| GlossariesV1.GlossaryStore.GetGlossaryEntries | glossaries.js:134-137 | the TSV serialisation of the owned glossary's entries, with only its `used` time refreshed in the store; otherwise not found and no change |
| GlossariesV1.GlossaryStore.RemoveGlossary | glossaries.js:139-144 | deletes only the owned id; otherwise not found and unchanged |
| GlossariesV1.GlossaryStore.Sweep | glossaries.js:9-11 | the glossary map after the idle sweep |
| Ownership.OwnedInfosMembers | glossaries.js:123-132 | the list holds exactly the infos of entries owned by the caller, at most one per entry |
| Ownership.CollectOwned | glossaries.js:123-132 | the loop over the map returns `OwnedInfos` |
| GlossariesV2.InfoCodesLowerCase | glossariesV2.js:55-65 | the info reports lower-cased codes, `ready` and the entry count |
| GlossariesV2.ReadEntries | glossariesV2.js:86-91 | `tsv` goes to the TSV parser, anything else to the CSV reader |
| GlossariesV2.ReadEntriesOf | glossariesV2.js:86-91 | the dispatch as a method returns `ReadEntries` |
| GlossariesV2.ReadEntriesFacts | glossariesV2.js:86-91 | TSV entries have distinct sources; CSV entries are non-empty; failures are 400 |
| GlossariesV2.TranslatorFindsEntries | glossariesV2.js:105 | the glossary's `translate` finds each entry's target |
| GlossariesV2.GlossaryStore.CreateGlossary | glossariesV2.js:81-110 | the pair is checked before the entries; stored only when both pass |
| GlossariesV2.GlossaryStore.GetGlossary | glossariesV2.js:112-119 | the owner gets the glossary with `used` refreshed; a wrong owner fails like a missing id |
| GlossariesV2.GlossaryStore.GetGlossaryInfo | glossariesV2.js:112-123 | the info of the owned glossary, with only its `used` time refreshed in the store; otherwise not found and no change |
| GlossariesV2.GlossaryStore.GetGlossaryInfoList | glossariesV2.js:125-134 | the caller's glossaries' infos, in map order |
| GlossariesV2.GlossaryStore.GetGlossaryEntries | glossariesV2.js:136-139 | the TSV serialisation of the stored list, with only its `used` time refreshed in the store; otherwise not found and no change |
| GlossariesV2.GlossaryStore.RemoveGlossary | glossariesV2.js:141-146 | deletes only the owned id |
| GlossariesV2.GlossaryStore.Sweep | glossariesV2.js:11-13 | the glossary map after the idle sweep |
| GlossariesV3.ReadEntries | glossariesV3.js:108-115 | exactly `tsv` goes to the TSV parser, otherwise CSV; which failures surface before the others |
| GlossariesV3.ReadEntriesOf | glossariesV3.js:108-115 | the dispatch as a method returns `ReadEntries` |
| GlossariesV3.BuildDictionary | glossariesV3.js:97-123 | an unsupported pair, then a format other than tsv/csv, then the entries, fail in that order |
| GlossariesV3.CollectDictionaries | glossariesV3.js:97-123 | on success one dictionary per input, each its own; a failure comes from some input (which one: `EarlyFailureWins`, `FirstLateFailureWins`) |
| GlossariesV3.EarlyFailureWins | glossariesV3.js:97-123 | the first synchronous failure is the one reported, even when a CSV failure comes before it |
| GlossariesV3.FirstLateFailureWins | glossariesV3.js:97-123 | with no synchronous failure, the first CSV failure in dictionary order is the one reported |
| GlossariesV3.MatchFrom | glossariesV3.js:181-182 | the first dictionary matching the pair ignoring case, or -1 iff none |
| GlossariesV3.TranslateWith | glossariesV3.js:135-145 | the lookup in the first dictionary (in list order) whose upper-cased pair matches the base codes, or 404 "Glossary dictionary not found" iff none matches |
| GlossariesV3.TranslatorFollowsRemoval | glossariesV3.js:134-145 | after `removeDictionary`, the intended `translate` answers 404 for any pair sharing a base code with the removed one; the captured one answers as before |
| GlossariesV3.CapturedTranslatorOutlivesRemoval | glossariesV3.js:134-145 | after its dictionaries are gone, the captured `translate` still finds the old entry |
| GlossariesV3.FilterMembers | glossariesV3.js:214-215 | the filter keeps exactly the dictionaries the predicate accepts |
| GlossariesV3.RemovalDropsSharedLanguages | glossariesV3.js:214-215 | removing en/de also drops EN>FR and keeps DE>EN |
| GlossariesV3.PutFilterIsCaseSensitive | glossariesV3.js:279-280 | putting EN/DE keeps an existing en/de dictionary |
| GlossariesV3.PutLeavesOneDictionaryPerLanguage | glossariesV3.js:279-290 | the new dictionary is last, and every other one is kept from before and shares neither language with it |
| GlossariesV3.PatchDictionary | glossariesV3.js:231-259 | format, source and target are required in that order; then the entries; then the replacement |
| GlossariesV3.ApplyDictionary | glossariesV3.js:231-259 | the patch step as a method returns `PatchDictionary` |
| GlossariesV3.GlossaryStore.CreateGlossary | glossariesV3.js:93-150 | a missing or empty list fails first; any dictionary failure stores nothing; otherwise one glossary holding the dictionaries |
| GlossariesV3.GlossaryStore.GetGlossary | glossariesV3.js:152-159 | the owner gets the glossary with `used` refreshed; otherwise "Glossary not found" |
| GlossariesV3.GlossaryStore.GetGlossaryInfo | glossariesV3.js:161-163 | the info of the owned glossary |
| GlossariesV3.GlossaryStore.GetGlossaryInfoList | glossariesV3.js:165-174 | the caller's glossaries' infos, in map order |
| GlossariesV3.GlossaryStore.GetDictionaryEntries | glossariesV3.js:176-195 | not found, then unsupported pair, then "Dictionary not found", else the matching dictionary's TSV |
| GlossariesV3.GlossaryStore.RemoveGlossary | glossariesV3.js:197-202 | deletes only the owned id |
| GlossariesV3.GlossaryStore.RemoveDictionary | glossariesV3.js:204-220 | 404 when no dictionary matches; otherwise keeps only those differing in both languages, ignoring case |
| GlossariesV3.GlossaryStore.PatchGlossary | glossariesV3.js:222-263 | a non-empty name is applied before the length check; 0 dictionaries change nothing else; more than 1 fails with 400 |
| GlossariesV3.GlossaryStore.PutDictionary | glossariesV3.js:265-291 | pair checked, entries read, case-sensitive replacement, the new dictionary's info returned |
| GlossariesV3.GlossaryStore.Sweep | glossariesV3.js:17-19 | the glossary map after the idle sweep |
| Documents.GenerateRandomHexString | documents.js:36-43 | the requested length, over the 16 upper-case hex digits, one per draw |
| Documents.HexDigitsDistinct | documents.js:37 | different draws give different digits |
| Documents.DifferentDrawsDifferentStrings | documents.js:36-43 | two generated strings differ wherever their draws differ below the length |
| Documents.ExtNameShape | documents.js:46 | the extension is a suffix that starts with its only dot and has no slash |
| Documents.ExtensionExamples | documents.js:46-53 | upper-case extensions are lower-cased; a leading-dot name has no extension |
| Documents.Observe | documents.js:88-103 | status in order: error, queued before the queue delay, translating until both delays pass or while there is no output, else done |
| Documents.DoneHasOutput | documents.js:97-102 | done implies an output and zero remaining time; translating never has negative remaining time |
| Documents.StatusProgresses | documents.js:89-103 | a later observation never reports an earlier status |
| Documents.ObserveKeepsIdentity | documents.js:91-103 | only `used`, status and remaining time change |
| Documents.DocumentStore.CreateDocument | documents.js:45-84 | extension outside the five is 400, an allowed one other than .txt is 503; a new document has hex id and key, is queued and billed at the file size |
| Documents.DocumentStore.GetDocument | documents.js:86-109 | absent id, wrong key and wrong owner fail alike; otherwise the observed document is written back; a document reported done has its output file present; the store invariant (id of 32 digits, input `./documents/<id>`, an output is `<input>.result` and exists) is kept |
| Documents.DocumentStore.TranslateDocument | documents.js:111-127 | with `doc_failure` positive it drops by one and the error is set; otherwise the output is `path_in.result`; the input is removed either way; the store invariant is kept |
| Documents.DocumentStore.RemoveDocument | documents.js:129-134 | deletes the output then the entry; a missing output throws and keeps the entry; under the store invariant removal succeeds exactly when the document has an output |
| Documents.DocumentStore.Sweep | documents.js:9-32 | the document map after the sweep, and the dropped documents' files deleted; the store invariant is kept |
| Documents.EvictedPathsOwners | documents.js:12-28 | every deleted path is a file of some dropped document |
| Documents.PathsDistinct | documents.js:111-122 | an output `<input>.result` is never an input `./documents/<id>`, and output paths of distinct 32-digit ids differ |
| Documents.OutputNotEvicted | documents.js:12-28 | the output of a document whose id differs from every dropped one is not deleted |
| Documents.KeptFilesStay | documents.js:9-32 | a sweep deletes no file of a document it keeps |
| Documents.SweptFilesGone | documents.js:12-28 | no file of a dropped document is left |
| StyleRules.DefaultStyleRuleFacts | styleRules.js:16-29 | the default rule has no owner, version 1, epoch times and the fixed configured rules |
| StyleRules.ExtractStyleRuleInfo | styleRules.js:31-47 | six fields, language lower-cased; detail iff detailed, holding the rule's configured rules and custom instructions, or `[]` for each one missing |
| StyleRules.SliceIndex | styleRules.js:85 | `slice` index clamping, negative indexes counted from the end |
| StyleRules.PageBounded | styleRules.js:83-85 | a page never has more than `pageSize` elements |
| StyleRules.PageContents | styleRules.js:83-85 | a full page is the slice `[page*pageSize, page*pageSize+pageSize)` |
| StyleRules.NegativePageSize | styleRules.js:83-85 | a negative page size slices from the end |
| StyleRules.StyleRuleStore.GetStyleRule | styleRules.js:53-65 | the default id gives the default rule to anyone; the owner gets the rule with `used` refreshed; others get 404 |
| StyleRules.StyleRuleStore.GetStyleRuleInfo | styleRules.js:67-69 | the info of what `GetStyleRule` returns |
| StyleRules.StyleRuleStore.GetStyleRuleInfoList | styleRules.js:71-90 | the page of the caller's rules followed by the default rule |
| StyleRules.StyleRuleStore.ListedShape | styleRules.js:72-80 | the list ends with the default rule; every earlier element is one of the caller's rules |
| StyleRules.StyleRuleStore.RemoveStyleRule | styleRules.js:92-97 | the default id succeeds and changes nothing; only the owner's rule is removed; others get 404 |
| StyleRules.StyleRuleStore.Sweep | styleRules.js:10-12 | the rule map after the idle sweep |
| Server.ReadLanguages | index.js:87-92 | an accepted target is a code of the table; a source is absent or a source language |
| Server.TargetIsKnown | index.js:87-89 | a target accepted by `getParam` upper-cases to a table code |
| Server.ReadTranslateParams | index.js:87-100 | parameters read in order, the first failure answers; at least one text |
| Server.TotalCharactersAppend | index.js:103 | the charge of a request is the sum of the charges of its parts |
| Server.TotalCharactersBounds | index.js:103 | no single text's UTF-16 length exceeds the charge of the whole request |
| Server.TranslationsOfEach | index.js:114 | one translation per text, each of its own text |
| Server.TranslateAll | index.js:114 | the `map` over the texts returns `TranslationsOf` |
| Server.HandleTranslate | index.js:85-122 | a parameter error changes nothing; a positive `respond_429_count` drops by one and charges nothing; otherwise the charge is the total length; translations only when it passes |
| Server.HandleDocument | index.js:124-160 | a language parameter error or a missing file answers 400 and changes nothing; otherwise the upload: never 400 for parameters, the quota chain charged as `DocumentCharge`, then the 400/503 extension refusals with no store change, or an accepted document whose id and key are hex, stored queued and then translated or failed as the session asks |
| Server.Upload | index.js:137-155 | quota chain first, then the extension (a refused file is already charged); an accepted file is stored and translated at once |

## Left out

- Timers: `setInterval` and `scheduleCleanup` are not modelled. Sweeps are methods that take `now`.
- The clock is not modelled. Times are integer milliseconds passed in, so ISO date strings and `Date` objects are out.
- Randomness is not modelled. `Math.random` draws are input sequences and `uuid.v1` identifiers are fresh inputs. `isValidStyleId` and `isValidGlossaryId` (`uuid.validate`) are not modelled.
- The file system is abstracted. Artifacts are a set of existing paths, and file contents (including the translated document text) are not stored.
- `file.mv` is modelled as adding the input path.
- Failed `unlinkSync` calls in the sweep are no-ops.
- The `csv-parser` tokenisation is not modelled. CSV input arrives as its rows.
- JavaScript `Number()` parsing of session headers is not modelled. Each header arrives as an optional integer.
- `seconds_remaining` is kept in milliseconds, without the `/1000` float conversion.
- Logging, Express routing, response shaping, `app.listen` and the port variable are not modelled.
- The status and download handlers (index.js:162-207) and `handle_languages`/`handle_usage` are not modelled, beyond the store operations they call.
- Concurrency is not modelled. Each request and each sweep is one atomic step.
- Promise ordering is simplified. `Promise.all` in V3 `createGlossary` is modelled as reporting synchronous failures first, in array order, and then CSV "no entries" rejections in array order. The real interleaving with the CSV stream is not modelled.
- `isGlossarySupportedLanguagePair` and `getBaseLanguageCode` are not defined in languages.js. They are function parameters.
- The mismatch between the one-argument and three-argument `translate` signatures is not resolved.
- GlossariesV1.GlossaryStore.CreateGlossary: the new id is assumed fresh (`uuid.v1`). The same holds for V2 and V3.
- Requests.Value: a parameter is missing, a string or an array of strings. Other JSON body values (numbers, booleans, objects, `null`) are out. Through them the source can charge `NaN` characters or throw from `toUpperCase`.
- GlossariesV3.GlossaryStore.PatchGlossary: an absent `name` or dictionary field is modelled as `""`. `dictionaries` is a sequence, so a non-array value is out.
- JsStrings.Upper: case mapping covers ASCII letters only. The same holds for `Lower`.
- Documents.ExtName: follows `path.extname` for names without trailing slashes. Trailing-slash names are out.
- StyleRules.Page: `page` and `pageSize` are integers. Non-integer products are out.
- StyleRules.StyleRuleStore: an undefined caller `authKey` is not modelled. Only the default rule has no owner.
- Documents.DocumentStore.TranslateDocument: requires the input file to exist, because without it `readFileSync` (success branch) or the final `unlinkSync` (both branches) would throw; the thrown error is not modelled.
- Languages.Translate: models detection and line substitution only. The 50-character log preview is out.
- writing_tones.js and writing_styles.js are constant lists with no behaviour and are not part of this model.

## Findings

| source | as written | input that shows it | evidently intended | confidence | as-written member | corrected member |
|---|---|---|---|---|---|---|
| glossariesV3.js:134-145 | the glossary's `translate` closure looks up the `glossaryDictionaries` array captured at creation, so `removeDictionary`, `patchGlossary` and `putDictionary` (which reassign `glossary.dictionaries`) never reach it | create a glossary with one EN>DE dictionary holding `beam → Strahl`, then remove that dictionary: `translate("beam", "EN", "DE")` still answers `Strahl` instead of "Glossary dictionary not found" | `translate` follows the glossary's current dictionaries | not executed | GlossariesV3.CapturedTranslator (shown by GlossariesV3.CapturedTranslatorOutlivesRemoval) | GlossariesV3.Translator (GlossariesV3.TranslatorFollowsRemoval) |
