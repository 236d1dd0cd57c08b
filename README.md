# Webflow content manager — a Dafny model of the deployer core

The plugin loads a *wording* file: a site id, a version and a map from wording keys to texts.
It pushes those texts into a Webflow site open in the Designer. Page elements opt in with a
`data-wording-key` attribute, and optionally a `data-wording-mode` attribute (`text`, `html` or
`attr:<name>`). A key may also carry a page prefix (`home.title`, `vendre.hero`), which
restricts a multi-page run to the pages whose names match the prefix.

Modules, one concept each:

- `Webflow`: the Designer host as the deployer sees it.
  - Pages, folders and elements with their custom attributes, text support and failures.
  - A `Designer` class whose `active` page and written `texts` are the state the deployer changes.
  - `switchPage` failures, page-list failures, element-list failures and write failures are
    data of the host, so every error path of the deployer can be followed.
- `DeployerTypes`: the records of the deployer and the user-visible constants (French messages,
  `"Page inconnue"`, `"Terminé"`, `"attr:"`, `"text"`).
- `Validation`: `validateWordingData` on a JSON object and JavaScript truthiness.
- `KeyRouter`: `extractTargetPagesFromKeys`, the page tokens named by the key prefixes.
- `PageMatch`: `normalizePageName` and `isPageMatch`.
- `Scanning`: `scanPage`, the tagged elements of a page and their modes.
- `Diffing`: `previewChanges`, changes, missing keys and matched keys.
- `Applying`: `applyChanges`.
  - The per-element classification (missing, not found, no text support, text, html, attr,
    thrown write) as a fold over a tally.
  - The report it yields, and the text slots it writes.
- `Orchestration`: `scanAllPages` and `deployToAllPages` as functions of the pages.
  - Page listing, target filtering and labels.
  - Per-page previews or reports, summaries, progress notifications and the final active page.
- `Deployer`: the `SiteDeployer` class with its imperative methods, each proved to compute the
  function that specifies it, and the loops of the source with their invariants.
- `AppState`: the `appReducer` state machine and `initialState`.
- `CsvParser`: the row logic of `parseCSV` and `csvRowsToContent`.
- `AppWiring`: the two UI computations that use the deployer.
  - The single/multi-page mode flag.
  - The consolidated multi-page report.
- `Seqs`, `Text`, `Wrappers`: sequence folds, ASCII trimming and lowering, and `Option`/`Result`.

Time is a parameter:
- an `applyChanges` call receives a `Stamp` (deployment id and timestamp);
- a multi-page deploy receives a `clock` giving the stamp of loop iteration `i`.

Progress callbacks are modelled as the returned sequence of notifications.

### Behaviour a reader may not expect

- An element whose key re-resolution finds nothing, or finds an element without text support,
  adds an error line and counts as `failed`. It produces no `ChangeReport`, so a page's
  `totalKeys` (changes plus missing) can be smaller than applied + failed + missing.
- An element whose mode is an unknown string (neither `text`, `html` nor `attr:...`) counts as
  `applied` with a success report, and no write happens.
- An `html` element without text support also counts as `applied` with a success report, and
  no write happens.
- The content check of validation is `typeof content === 'object'`, so an array passes; `null`
  does not.
- Once wording is loaded, `previewChanges` and `applyChanges` catch every failure of the host
  internally. Inside the multi-page loops, the only failure that skips a page is `switchPage`.
- The consolidated report adds applied, failed and missing into `total_keys`. That total is
  proved never smaller than the sum of the per-page `total_keys`, and it can be larger.

## Model

| member | source | states |
|---|---|---|
| Validation.ValidateWordingData | src/deployer.ts:19-38 | valid exactly when no errors; the errors are exactly one message per failed check, only those three messages, each present exactly when its field fails its truthiness/typeof check, in the order site_id, version, content |
| Validation.ContentCheckExamples | src/deployer.ts:31-33 | an array passes the content check; null, a string or an absent field fail it |
| Deployer.SiteDeployer.constructor | src/deployer.ts:7 | a new deployer holds no wording |
| Deployer.SiteDeployer.LoadWordingData | src/deployer.ts:12-14 | the loaded wording replaces any previous one |
| KeyRouter.TargetPagesSpec | src/deployer.ts:431-447 | a token is a target exactly when some key containing a dot has it as its lower-cased first segment; no token contains a dot |
| KeyRouter.TargetPagesEmptyIff | src/deployer.ts:436-444 | there are no target pages exactly when no content key contains a dot |
| KeyRouter.TargetPagesUnloaded | src/deployer.ts:432-434 | without loaded wording there are no targets |
| Deployer.SiteDeployer.ExtractTargetPagesFromKeys | src/deployer.ts:431-447 | the loop over the (unordered) keys yields exactly the target-page set |
| PageMatch.IsPageMatchSpec | src/deployer.ts:453-474 | a name matches a target exactly when both agree after lower-casing and dropping spaces and dashes (the trimmed exact comparison is subsumed) |
| PageMatch.IsPageMatchSymmetric | src/deployer.ts:460-474 | matching does not depend on argument order |
| PageMatch.NotreHistoireMatches | src/deployer.ts:466-472 | the page "Notre Histoire" matches the key token "notre-histoire" |
| PageMatch.SeparatorIgnored | src/deployer.ts:466-472 | two words joined by a space or a dash match the words written together |
| PageMatch.HomeMatches | src/deployer.ts:460-474 | the page "Home" matches the token "home" |
| PageMatch.HomepageDoesNotMatchHome | src/deployer.ts:460-474 | no prefix matching: "Homepage" does not match "home" |
| Text.TrimSpec | src/utils/csvParser.ts:32-33 | trimming removes exactly the leading and trailing whitespace, and leaves a trimmed infix of the input |
| Text.StripTrim | src/deployer.ts:468-470 | the space/dash-stripped form ignores surrounding whitespace |
| Scanning.ScanOneEntryPerTaggedElement | src/deployer.ts:52-70 | every element with custom attributes and a key gives one scanned entry, at the position counted by the tagged elements before it, with its key, selector and mode |
| Scanning.ScanEntriesComeFromTaggedElements | src/deployer.ts:52-70 | entry k is the entry (key, selector, mode) of a tagged element with exactly k tagged elements before it |
| Scanning.ScanCountsTaggedElements | src/deployer.ts:52-70 | when no attribute read throws, the scan has exactly as many entries as there are tagged elements |
| Scanning.ScanKeepsElementOrder | src/deployer.ts:52-70 | a tagged element's entry comes before the entries of every later element |
| Scanning.ScannedModesAreNotEmpty | src/deployer.ts:58-66 | every scanned entry has a non-empty mode, since an absent or empty mode attribute becomes "text" |
| Scanning.ScanFailureIsEmpty | src/deployer.ts:75-78 | when listing the elements or reading an element's attributes throws, the scan returns no entries |
| Deployer.SiteDeployer.ScanPage | src/deployer.ts:43-79 | the scan loop returns the scan of the active page, and its total is the number of entries |
| Diffing.DiffSpec | src/deployer.ts:84-122 | one change per scanned entry, in order, with its key and the content value when the key has one; missingKeys lists, in order, the entries whose key has no content; unusedKeys are the content keys no entry names |
| Diffing.DiffCounts | src/deployer.ts:96-116 | every change either has a value or is listed as missing: changes equal those with a value plus the missing keys |
| Diffing.MatchedKeysOfDiff | src/deployer.ts:96-109 | the keys removed from the unused set are exactly the scanned keys the content defines |
| Deployer.SiteDeployer.PreviewChanges | src/deployer.ts:84-122 | refused without wording; otherwise the diff of the content against the active page's scan |
| Deployer.RemoveMatched | src/deployer.ts:376-380 | the unused set loses exactly the keys of the changes that have a value |
| Applying.ResolveSpec | src/deployer.ts:159-171 | re-resolution finds the first element carrying the key, with no earlier element carrying it or throwing; it finds nothing exactly when no element carries the key or throws |
| Deployer.FindElement | src/deployer.ts:159-171 | the search loop computes the re-resolution |
| Applying.StepIsAppend | src/deployer.ts:146-235 | processing an element only appends to the running report: it never rewrites what earlier elements produced |
| Applying.PlanSplit | src/deployer.ts:146-235 | per-element isolation: the outcome of a run over two batches is the first batch's outcome followed by the second's |
| Applying.ErrorReportsAreThrown | src/deployer.ts:221-234 | every error report belongs to a scanned entry whose key has content and whose re-resolution or write threw, and carries that exception's message; not-found and no-text entries never produce one |
| Applying.ThrowingSearchIsContained | src/deployer.ts:159-171 | an attribute read that throws during re-resolution yields one error report with the message, one error line, failed 1 and nothing else (a property of one step: with a fixed host such a throw has already emptied the scan) |
| Applying.NotFoundIsContained | src/deployer.ts:174-178 | an element that re-resolution does not find costs one failure and one error line, and adds no report |
| Applying.NoTextIsContained | src/deployer.ts:184-195 | a text-mode element without text support costs one failure and one error line, and adds no report and no write |
| Applying.HtmlWithoutTextSucceeds | src/deployer.ts:196-204 | an html entry on an element without text support adds its warning and one success report, counts as applied, and writes nothing |
| Applying.UnknownModeSucceeds | src/deployer.ts:205-220 | a mode that is neither text, empty, html nor attr: counts as applied with one success report and no write |
| Applying.PlanAccounted | src/deployer.ts:146-235 | applied equals the success reports, error reports never exceed failed, no warning status, and a report carries a message exactly when it is an error |
| Applying.PlanMissing | src/deployer.ts:149-153 | missing equals the number of scanned entries whose key has no content; the missing-key warning lines, taken out of the warnings in order, are exactly one per such entry, the preview's missing keys in order |
| Applying.MissingLinesInOrder | src/deployer.ts:149-153 | the missing-key lines of the warnings are the scanned entries' missing keys, in scan order, one each, through the fixed message |
| Applying.ThrowingWriteIsContained | src/deployer.ts:221-234 | a throwing write yields one error report with the message, one error line, failed 1 and nothing else |
| Applying.AttrModeTouchesNoCounter | src/deployer.ts:205-210 | an attr: element adds only its warning, naming the attribute, and no counter moves |
| Applying.WritableEntries | src/deployer.ts:184-234 | when every entry has content and a text-capable element, failed equals the throwing writes, applied + failed equals the entries, and there are no missing keys or warnings |
| Applying.PlanWritesSpec | src/deployer.ts:184-204 | the writes are exactly, in scan order, those of the text or html entries with content whose re-resolved element supports text and does not throw; every such entry's write is present, and every write goes to the element re-resolution found for a key and carries that key's content |
| Applying.TextWriteSucceeds | src/deployer.ts:184-190 | a text entry on a text-capable element whose write does not throw writes the content value into it, with one success report and applied 1 |
| Applying.HtmlWriteSucceeds | src/deployer.ts:196-204 | an html entry on a text-capable element whose write does not throw adds its warning, writes the content value, and gives one success report and applied 1 |
| Applying.WrittenValueLands | src/deployer.ts:184-204 | after the run, the element an entry writes holds that entry's content value unless a later entry writes the same element |
| Applying.PageReportSpec | src/deployer.ts:127-253 | totalKeys is changes plus missing, applied counts the success reports, missing counts the missing keys of the page's scan; when listing throws, a lone global error with zero stats |
| Applying.OverlayFrame | src/deployer.ts:188-204 | the writes of one page leave every slot they do not target as it was (other pages' slots included), and each written slot holds the value of the last write to it |
| Deployer.ApplyEntry | src/deployer.ts:146-235 | one loop iteration adds exactly its element's outcome to the tally and performs exactly its write |
| Deployer.WriteSlot | src/deployer.ts:190 | a successful text write stores the value in the element's slot of the active page |
| Deployer.SiteDeployer.ApplyChanges | src/deployer.ts:127-253 | refused without wording; otherwise the page report of the active page, with the host texts overlaid by exactly its writes |
| Orchestration.AllPagesSpec | src/deployer.ts:306-307 | the listed pages are exactly the page items, with their positions, in order; folders are dropped |
| Orchestration.SelectedSpec | src/deployer.ts:503-538 | processed pages are host pages in the host's order (strictly increasing positions); without targets every page is processed; otherwise exactly the pages whose name (else slug) matches some target |
| Orchestration.KeyedPageIsSelected | src/deployer.ts:503-538 | a named page whose name matches the prefix of some dotted key is processed |
| Orchestration.NamelessPageIsSkipped | src/deployer.ts:514-525 | with targets, a page whose name and slug both throw is skipped |
| Deployer.FilterTargetPages | src/deployer.ts:511-538 | the filter loop keeps exactly the matching pages, in order |
| Deployer.SiteDeployer.PagesToProcess | src/deployer.ts:503-538 | the page listing fails with the host's failure or yields the selected pages |
| Orchestration.UnusedSpec | src/deployer.ts:298 | the global unused keys are the content keys not scanned with a value on any switched page |
| Orchestration.PagePreviewStats | src/deployer.ts:382-391 | a page preview's stats: total is its changes, withValue plus missing is total |
| Orchestration.ScanSummarySpec | src/deployer.ts:404-420 | totalPages counts the switched pages, at most the processed pages; totalElements equals totalWithValue plus totalMissing |
| Orchestration.ProgressSpec | src/deployer.ts:355-361 | one notification per page before it is processed, counting up from 0 with that page's label, then "Terminé" at the total |
| Deployer.SiteDeployer.ScanAllPages | src/deployer.ts:262-425 | refused without wording; a throwing page list becomes the multi-page scan error; otherwise the previews, summary and notifications of the selected pages, with the last switched page active |
| Deployer.SiteDeployer.DeployPage | src/deployer.ts:567-591 | a switched page yields its page report renamed to its label and writes its texts; a failed switch yields nothing |
| Orchestration.DeployReportsSpec | src/deployer.ts:541-592 | as many reports as switched pages; each accounted, with the site id, and the report of some switched page, renamed to its label and stamped by its iteration's clock reading |
| Orchestration.DeployReportsInOrder | src/deployer.ts:541-592 | the reports are in loop order: the switched page at loop position i has its report at the position counted by the switched pages before it, and report k is the one of the k-th switched page |
| Orchestration.DeploySummarySpec | src/deployer.ts:603-612 | successPages is at most the number of reports, which is at most totalPages, the number of processed pages; the per-page total_keys add up to at most totalApplied + totalFailed + totalMissing |
| Orchestration.DeployTextsFrame | src/deployer.ts:567-591 | a multi-page deploy leaves every slot of a page it did not switch to as it was |
| Deployer.SiteDeployer.DeployToAllPages | src/deployer.ts:479-616 | refused without wording; a throwing page list becomes the multi-page deploy error; otherwise the reports, summary, notifications, texts and active page of the run over the selected pages |
| AppState.ReducerFrame | src/hooks/useAppState.ts:85-141 | every action leaves the fields it does not name unchanged |
| AppState.SettersReplaceOwnField | src/hooks/useAppState.ts:87-102 | each SET_* action replaces exactly its own field with its payload |
| AppState.LoadJsonSuccessSpec | src/hooks/useAppState.ts:103-109 | installs the wording and JSON text and clears the error, nothing else |
| AppState.StartScanSpec | src/hooks/useAppState.ts:110-117 | enters the progress step loading, error cleared, progress "Initializing..." at 0 of 0 |
| AppState.CompletionSpec | src/hooks/useAppState.ts:118-131 | scan completion shows the preview, deploy completion shows the result, both stop loading |
| AppState.ResetSpec | src/hooks/useAppState.ts:132-137 | reset gives the initial state but keeps the JSON text and wording; it is idempotent |
| AppState.InitialStateSpec | src/hooks/useAppState.ts:74-83 | the initial state is the input step with nothing loaded, no error, not loading |
| AppState.WordingSurvives | src/hooks/useAppState.ts:85-141 | the wording and its text survive any sequence of actions that does not set them, resets included |
| AppState.PreviewReachedOnlyBy | src/hooks/useAppState.ts:85-141 | the preview step is reached only through scan completion or an explicit SET_STEP to preview |
| CsvParser.ParseRows | src/utils/csvParser.ts:27-46 | the callback's loop keeps exactly the rows with a non-empty trimmed key and value, in order, else the fixed error |
| CsvParser.LowerColumnWins | src/utils/csvParser.ts:32-33 | a non-empty lower-case column takes precedence over the capitalised one |
| CsvParser.WhitespaceKeyDropsRow | src/utils/csvParser.ts:32-35 | any non-empty, whitespace-only key column hides the Key column whatever it holds, and the row is dropped |
| CsvParser.KeptRowsAreClean | src/utils/csvParser.ts:30-38 | every kept key and value is non-empty and trimmed |
| CsvParser.KeptRowsInOrder | src/utils/csvParser.ts:30-38 | a kept row sits after every row kept before it |
| CsvParser.RefusedIffNothingKept | src/utils/csvParser.ts:40-43 | the import is refused, with the fixed message, exactly when no row has both a key and a value |
| CsvParser.CsvRowsToContent | src/utils/csvParser.ts:57-63 | the loop builds the content map of the rows |
| CsvParser.ContentSpec | src/utils/csvParser.ts:57-63 | the content keys are exactly the row keys, each holding its last row's value |
| AppWiring.ModeFlagMatchesRouter | src/App.tsx:26-27 | the multi-page mode is chosen exactly when the deployer finds at least one target page |
| AppWiring.ConsolidatedTotals | src/App.tsx:91-106 | the consolidated counters are the sums over the page reports; total_keys is their sum and is at least the sum of the page total_keys |

## Left out

- The React components, styles and the rest of `App.tsx` and `index.tsx`: presentation only. The
  two computations of their handlers that use the deployer are modelled in `AppWiring`.
- `useSiteInfo` and the hook wrapper around the reducer: they read the host's site information and
  bind dispatch to React.
- Parsing CSV text (`Papa.parse`, header detection, `skipEmptyLines`) and its `error` callback:
  third-party code. The model starts from the parsed rows.
- Reading files (`FileReader`) and `JSON.parse`: I/O. Validation starts from a parsed JSON object.
- `validateWordingData` on a `data` that is not an object: property access on `null` throws in
  JavaScript, and that throw is not modelled. Numbers are integers, so `NaN` and fractions are not
  modelled.
- `exportReport`: JSON serialisation of a report.
- The 500 ms `setTimeout` after each page switch: timing only.
- `Date.now()` and `new Date().toISOString()`: they become the `Stamp` and `clock` parameters.
- `console.error` logging in the multi-page loops.
- The progress bar percentage of the UI: only the notifications are modelled.
- `toLowerCase` and `\s` cover ASCII only in `Text`. Unicode case mapping and Unicode whitespace
  are not modelled.
- Order of `unusedKeys` and of `Object.keys`: key sets are modelled as sets.
- Inherited properties of the content object: in JavaScript `content[key] !== undefined` also holds for
  keys such as `constructor` or `toString`, which then count as present with a non-string value.
  The model's content is a plain map, so only the loaded keys are present.
- `content["__proto__"] = value` in `csvRowsToContent` adds no key in JavaScript; the model's `Content`
  adds it like any other key.
- Content values of other JSON types: the source never checks that a value is a string, so a `null` or
  a number gives `hasValue: true` and is written as it is. The model's content maps keys to strings.
- An `onProgress` callback that throws: in the source the exception reaches the outer `catch` and ends
  the whole multi-page run with its error. The model's progress is a returned trace that cannot throw.
- `webflow.getAllPagesAndFolders()` returning `null`, which the source maps to an empty list: the
  host model returns a list or throws.
- The host's structure stays fixed while a run proceeds, and each read of the host gives the same
  answer every time; concurrent edits in the Designer are not modelled.
- Old values in change reports: the source always records an empty `oldValue`, and so does the
  model; the written texts are never read back.
- The reducer's `default` branch: the action type is closed, so no other action exists.
- `src/services/deployer` (the `ContentManager` of an older code path) is not part of this model.
