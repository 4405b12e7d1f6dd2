# Verified models of the repository's tooling scripts

This project models the algorithms behind the localisation, release, benchmarking and maintenance scripts of
the repository, and proves what they are for. `dafny verify dfyconfig.toml` checks everything.

Texts are sequences of UTF-16 code units (`CodeUnits.Text`). Child processes, the git remote, the translation
provider, the classifier, the clock and the file system appear only through what they answer: as parameters,
as events of a state machine, or as fields that a method changes.

| script | modules |
|---|---|
| `android-app-i18n.ts` | `KotlinTemplate` (scanner), `AndroidFormat` (positional formats and their formatter), `PlainText`, `AndroidResource` (the renderer), `Occurrences` (pairing of repeated tokens), `Escapes`, `KotlinSource`, `Selection` |
| `control-ui-i18n.ts` | `RunProcess` and `ProcessOutput`, `TranslationBatches`, `TranslateBatch`, `PromptOrder`, `Placeholders` |
| `control-ui-i18n-verify.ts` | `CatalogAnalysis` |
| `mobile-release-ref.ts` | `ReleaseNames`, `ReleaseRefs` |
| `apple-app-i18n.ts` | `Selection`, `IosCatalog`, `IosCatalogSync` |
| `check-policy-config-coverage.ts` | `PathGlob` |
| `check-temp-path-guardrails.ts` | `TempPathArgs` |
| `bench-gateway-restart.ts` | `OutputLines`, `RestartProbe` |
| `label-open-issues.ts` | `LabelBatches`, `LabelWorker` |
| `ios-app-review-notes-pdf.swift` | `Markdown`, `MarkdownInline` |
| shared | `CodeUnits`, `Decimal`, `DelimiterScan`, `Sequences`, `SortedTexts`, `Splitting`, `Wrappers` |

Code that works by changing things step by step is a method with a loop, or a class whose methods change its
fields, and is proved against a function or a predicate; the theorems are lemmas about that function. Protocols
(`RunProcess`, `ReleaseRefs`, `LabelWorker`) are state machines, and their theorems hold for every interleaving
of their events.

## Results about the code that may surprise

- Escaping and decoding are not inverse on all texts: a backslash directly followed by the letter n comes back
  as a backslash and a newline, because the decoders replace `\n` before `\\`. `Escapes.ResourceRoundTrip` and
  `Escapes.KotlinRoundTrip` say exactly what comes back; `AndroidResource.GeneratedResourceMeansTranslation`
  gives the consequence for generated resources.
- A child process that is started after a termination signal has arrived can make the parent lose that signal
  for good (`RunProcess.LateStartLosesSignal`, `RunProcess.LostForGood`). `RunProcess.SignalIsLostExactly` says
  exactly when: each time the last signalled child is dealt with, such a late child is still in the shared set.
- An issue that occurs twice in one batch can receive both the `bug` and the `enhancement` label
  (`LabelWorker.CopiesCanGetBoth`); `LabelWorker.BothExactlyOnSomeConflict` says exactly when. The issue query
  pages by creation time with a cursor (label-open-issues.ts:37), so a repeated issue would have to come from the
  server.
- The numeric order of Android version codes stops following the order of releases when patch numbers reach 100
  (`ReleaseNames.LongPatchBreaksOrder`); `ReleaseNames.CodeOrder` gives the exact order.
- The batcher's running character count is larger than its own estimate of the batch, since every item adds the
  fixed part again (`TranslationBatches.RunningCharsCoverEstimate`).

## Model

| member | source | states |
|---|---|---|
| `DelimiterScan.ScanRecognisesBodies` | mainframe/scripts/android-app-i18n.ts:138-161 | The scanner with depth, quotation and escape flag stops at k exactly when a balanced body of the grammar lies before a closing delimiter at k |
| `DelimiterScan.ScanOverBody` | mainframe/scripts/check-temp-path-guardrails.ts:74-97 | Scanning a balanced body brings the scanner back to the state it started in, at any depth |
| `DelimiterScan.BodyAhead` | mainframe/scripts/check-temp-path-guardrails.ts:74-97 | A scan that succeeds has read a body of the grammar up to its closing delimiter |
| `KotlinTemplate.ReadKotlinInterpolations` | mainframe/scripts/android-app-i18n.ts:117-167 | The index-driven loop returns the scan, and nothing when a `${` is never closed |
| `KotlinTemplate.SpanEndMeaning` | mainframe/scripts/android-app-i18n.ts:127-161 | An interpolation ends where the longest name ends, or right after the brace that balances its own |
| `KotlinTemplate.ScanMeaning` | mainframe/scripts/android-app-i18n.ts:117-167 | The scan is the only list of interpolations in order such that every place where one starts lies inside a recorded one; it is undefined exactly when there is no such list |
| `AndroidFormat.SpansAndGapsTile` | mainframe/scripts/android-app-i18n.ts:117-167 | The recorded spans and the gaps between them put together are the text |
| `Occurrences.TokenCounts` | mainframe/scripts/android-app-i18n.ts:180-186 | The count table holds how often each token occurs and nothing else |
| `Occurrences.MatchingIsMatching` | mainframe/scripts/android-app-i18n.ts:192-208 | When the counts agree, pairing by occurrence sends each token to an equal one, uses every source position exactly once and keeps the order of equal tokens |
| `AndroidResource.SourceIndices` | mainframe/scripts/android-app-i18n.ts:193-198 | The index table lists, for each token, its positions in the source in increasing order |
| `AndroidResource.LookupIsMatch` | mainframe/scripts/android-app-i18n.ts:203-206 | The table lookup for the k-th token always finds the position it is paired with, so the fallback to the bare token is dead code |
| `AndroidResource.RenderAndroidResourceValue` | mainframe/scripts/android-app-i18n.ts:169-221 | The renderer fails exactly on an unbalanced text or changed tokens, and otherwise returns the escaped positional format with the interpolations paired by occurrence |
| `AndroidFormat.RenderedExactly` | mainframe/scripts/android-app-i18n.ts:169-190 | When both texts have a scan, rendering succeeds if and only if their interpolations are the same multiset, in any order, and fails with changed interpolations otherwise; it fails as unbalanced if and only if one text has no scan |
| `Occurrences.CountsAgree` | mainframe/scripts/android-app-i18n.ts:180-190 | Two token lists have the same counts if and only if they are the same multiset |
| `AndroidFormat.FormatRendered` | mainframe/scripts/android-app-i18n.ts:192-212 | Formatting a rendered template yields the gaps unchanged, percent signs included, and the chosen argument in place of each interpolation |
| `AndroidFormat.RenderedMeaning` | mainframe/scripts/android-app-i18n.ts:169-212 | Formatting the rendered value with any arguments, one per source interpolation, fills each interpolation of the translation with the argument of its partner |
| `AndroidFormat.RenderingPreservesMeaning` | mainframe/scripts/android-app-i18n.ts:169-212 | For every valuation of the expressions, the formatted value equals the evaluated translation |
| `AndroidFormat.PlainIsUnchanged` | mainframe/scripts/android-app-i18n.ts:192-212 | Without interpolations in the source the translation has none either and is left as it is |
| `AndroidResource.WrittenValueReadBack` | mainframe/scripts/android-app-i18n.ts:99-109 | Decoding a generated resource gives the rendered value back exactly when the translation has no backslash directly before a letter n outside its interpolations |
| `PlainText.RenderedBackslashN` | mainframe/scripts/android-app-i18n.ts:192-212 | The rendered value has a backslash directly before a letter n exactly when the translation has one outside its interpolations |
| `PlainText.GapsMeaning` | mainframe/scripts/android-app-i18n.ts:202-211 | A gap between interpolations holds such a pair exactly when one of the text lies in no interpolation |
| `AndroidResource.GeneratedResourceMeansTranslation` | mainframe/scripts/android-app-i18n.ts:99-221 | Rendering, escaping, decoding and formatting together mean the evaluated translation, with or without interpolations, if and only if the translation has no backslash directly before a letter n outside its interpolations |
| `AndroidFormat.NewlinesShow` | mainframe/scripts/android-app-i18n.ts:99-221 | A format in which letters n were turned into newlines never formats to the same text |
| `Escapes.EscapeResourceIsMap` | mainframe/scripts/android-app-i18n.ts:213-220 | The seven replacements in a row equal one pass that maps each code unit on its own |
| `Escapes.EscapeKotlinIsMap` | mainframe/scripts/android-app-i18n.ts:223-229 | The same for the four replacements of a Kotlin literal |
| `Escapes.EscapesAreInjective` | mainframe/scripts/android-app-i18n.ts:213-229 | Different texts are never escaped alike, by either chain |
| `Escapes.ResourceRoundTrip` | mainframe/scripts/android-app-i18n.ts:99-109 | `decodeXml` after escaping turns exactly the letters n behind a backslash into newlines, so it is the identity if and only if there is none |
| `Escapes.KotlinRoundTrip` | mainframe/scripts/android-app-i18n.ts:333-340 | The same for `decodeKotlinLiteral` after `escapeKotlin` |
| `Escapes.ResourceIsSafe` | mainframe/scripts/android-app-i18n.ts:213-220 | An escaped resource holds no newline and no angle bracket, every quote in it stands behind a backslash, and every ampersand begins an entity |
| `Escapes.KotlinIsSafe` | mainframe/scripts/android-app-i18n.ts:223-229 | An escaped Kotlin literal holds no newline, and every double quote and dollar sign in it stands behind a backslash |
| `Escapes.QuotEntityIsDecoded` | mainframe/scripts/android-app-i18n.ts:99-109 | The decoder also turns the quote entity, which the escapes never write, into a double quote |
| `KotlinSource.FindClosingDelimiter` | mainframe/scripts/android-app-i18n.ts:521-557 | From an opening delimiter, the result is k exactly when a balanced body lies between it and a closing delimiter at k, double quotes respected |
| `KotlinSource.SplitTopLevelSegments` | mainframe/scripts/android-app-i18n.ts:616-684 | The segments tile the range with one code unit between neighbours, every such code unit is a top-level comma, and no top-level comma lies inside a segment |
| `KotlinSource.WalkMeaning` | mainframe/scripts/android-app-i18n.ts:616-665 | At every position, the quotation is that of the double quotes before it and each depth is the number of opening less the number of closing delimiters outside quotations |
| `KotlinSource.NoTypeArguments` | mainframe/scripts/android-app-i18n.ts:616-684 | Without tracking, or before any opening angle bracket, the segments are cut exactly at the commas outside quotations at which every delimiter has been closed as often as opened |
| `KotlinSource.SeparatorMeaning` | mainframe/scripts/android-app-i18n.ts:676-680 | In general the segments are cut exactly at those of these commas that lie in no tracked type argument |
| `KotlinSource.TypeArgumentsProtect` | mainframe/scripts/android-app-i18n.ts:646-653 | No segment is cut inside balanced type arguments that begin outside a default value, and their nesting depth is the same afterwards |
| `KotlinSource.DefaultValueStopsTracking` | mainframe/scripts/android-app-i18n.ts:646-683 | After a top-level equals sign, angle brackets are ordinary characters up to the next cut |
| `ProcessOutput.CaptureIgnoresChunking` | mainframe/scripts/control-ui-i18n.ts:561-572 | For any cutting of the output into chunks, the capture is its tail of at most the limit with the exact number of dropped code units |
| `ProcessOutput.CaptureIsUnique` | mainframe/scripts/control-ui-i18n.ts:561-572 | The whole output determines the capture |
| `RunProcess.RunSound` | mainframe/scripts/control-ui-i18n.ts:615-800 | Every callback of an instance keeps its variables, timers, listeners and capture consistent: at most one kill timer is pending and it is the one the variable names |
| `RunProcess.StepKeepsInvariant` | mainframe/scripts/control-ui-i18n.ts:581-800 | Every event of any instance keeps the invariant of all instances and the shared set |
| `RunProcess.RunKeepsInvariant` | mainframe/scripts/control-ui-i18n.ts:581-800 | The invariant holds in every world of every run with any number of instances |
| `RunProcess.ReraiseIsSafe` | mainframe/scripts/control-ui-i18n.ts:581-588 | When the signal is raised again, every member of the shared set has a process group seen dead or sent SIGKILL, and no instance listens any more |
| `RunProcess.NeverRaisedExactly` | mainframe/scripts/control-ui-i18n.ts:581-800 | At every moment of every run, no signal has been raised again exactly when each callback that asked for it with every signalled instance done found a late member in the shared set |
| `RunProcess.DoneMeansAsked` | mainframe/scripts/control-ui-i18n.ts:581-800 | Whenever every signalled instance is done, some callback has asked for the re-raise in exactly that situation |
| `RunProcess.SignalIsReraised` | mainframe/scripts/control-ui-i18n.ts:581-800 | Without an instance started after the signal, it has been raised again as soon as all members are done; until then every signalled instance has its kill timer running |
| `RunProcess.SignalIsLostExactly` | mainframe/scripts/control-ui-i18n.ts:581-800 | In a run that is over, the signal is lost exactly when every callback that completed the signalled instances found a late member; there is always such a callback |
| `RunProcess.OnlyQuietIsFinal` | mainframe/scripts/control-ui-i18n.ts:778-798 | With all members finished, an event other than a start can still raise the signal exactly when a signalled child has not been closed |
| `RunProcess.LostForGood` | mainframe/scripts/control-ui-i18n.ts:581-800 | A lost signal stays lost over every continuation in which no instance is started |
| `RunProcess.EarlyAskDoesNotCount` | mainframe/scripts/control-ui-i18n.ts:581-800 | A run that loses the signal although one callback asked when no late member existed, because another signalled child was still there |
| `RunProcess.LateStartLosesSignal` | mainframe/scripts/control-ui-i18n.ts:581-800 | A concrete run in which an instance starts after the signal, every child is closed, and the signal is lost |
| `RunProcess.OutcomeStays` | mainframe/scripts/control-ui-i18n.ts:615-800 | Once a promise is settled, no later event changes its outcome |
| `RunProcess.SettlesExactly` | mainframe/scripts/control-ui-i18n.ts:710-800 | A call settles with the error of its child if and only if that error is the event, and otherwise after its close: as timed out if and only if its timeout fired before, else as failed if and only if the code (1 for none) is not 0 and its start had `rejectOnFailure`, else as truncated if and only if the code is 0 and the child wrote more than the limit, else resolved with that code and the bounded stdout |
| `RunProcess.ClosesOnce` | mainframe/scripts/control-ui-i18n.ts:778-798 | A child closes at most once in every run, so the code is the only one |
| `RunProcess.NothingIsStuck` | mainframe/scripts/control-ui-i18n.ts:710-800 | At every moment, a call that has neither settled nor received a signal has its timeout pending, or has timed out with SIGKILL still to be sent or already sent; once its child has closed, the kill timer that settles it is pending |
| `RunProcess.OnlyDeliveredIsRaised` | mainframe/scripts/control-ui-i18n.ts:581-588 | A signal is only raised again in the parent when it had been delivered to it |
| `RunProcess.SuccessDeliversOutput` | mainframe/scripts/control-ui-i18n.ts:615-800 | A call that resolves with exit code 0 delivers everything the child had written to stdout |
| `RunProcess.SettledLeavesNothing` | mainframe/scripts/control-ui-i18n.ts:615-800 | An instance that settles without a parent signal leaves no listener, no timer and no entry in the shared set |
| `TranslationBatches.BuildTranslationBatches` | mainframe/scripts/control-ui-i18n.ts:885-909 | The batches concatenate to the items, each is a singleton or at most 20 items within the budget, and none could have taken the next item |
| `TranslationBatches.GreedyIsOptimal` | mainframe/scripts/control-ui-i18n.ts:885-909 | No other order-preserving cutting within the limits has fewer batches |
| `TranslationBatches.GreedyStaysAhead` | mainframe/scripts/control-ui-i18n.ts:885-909 | After any number of batches the greedy cutting has consumed at least as many items as any other cutting within the limits |
| `TranslationBatches.RunningCharsCoverEstimate` | mainframe/scripts/control-ui-i18n.ts:535-537 | The running count is the estimate of the whole batch plus a fixed part per item, so staying within it stays within the estimate |
| `Placeholders.PlaceholderSetMeaning` | mainframe/scripts/control-ui-i18n.ts:321-325 | The left-to-right matches find exactly the names that stand in braces anywhere in the text |
| `TranslateBatch.ParseTranslationBatchReply` | mainframe/scripts/control-ui-i18n.ts:1017-1033 | The reply is accepted exactly when every item has a text that is not blank and the placeholder sets agree |
| `TranslateBatch.ParsedExactly` | mainframe/scripts/control-ui-i18n.ts:1017-1033 | A reply is accepted if and only if it gives every item a text that is not blank and has the placeholders of the last item with that key; the result has exactly the keys of the items and exactly the texts of the reply |
| `TranslateBatch.TranslateItems` | mainframe/scripts/control-ui-i18n.ts:1035-1095 | Retry and split on timeout follow the translation function, prompt by prompt |
| `TranslateBatch.PromptsAreBounded` | mainframe/scripts/control-ui-i18n.ts:1035-1095 | For every sequence of provider outcomes, n items take at most 4n - 2 prompts (2 when there are none) |
| `TranslateBatch.WorstCase` | mainframe/scripts/control-ui-i18n.ts:1035-1095 | For every list of items with no blank text some outcomes take exactly 4n - 2 prompts and still end in a translation |
| `TranslateBatch.ResultIsTranslation` | mainframe/scripts/control-ui-i18n.ts:1035-1095 | A returned map has exactly the item keys, no blank value, and the placeholders of the sources, however often the batch was split |
| `TranslateBatch.TextsAreTheProviders` | mainframe/scripts/control-ui-i18n.ts:1035-1095 | Every value of a returned map is the text that one of the prompts made gave for that key |
| `TranslateBatch.FailureMeaning` | mainframe/scripts/control-ui-i18n.ts:1035-1095 | Without a result, the last prompt was for a stretch of the items that was given up then: a single one timed out, or two attempts in a row were rejected |
| `PromptOrder.SuccessInOrder` | mainframe/scripts/control-ui-i18n.ts:1035-1095 | The prompts of a successful translation, one by one: a rejected prompt is repeated once, a timeout is followed by the larger half of its stretch, and a translated stretch by the other half of one that had timed out, until the last item |
| `TranslateBatch.DistinctKeysKeepPlaceholders` | mainframe/scripts/control-ui-i18n.ts:1017-1033 | When no key is repeated, every single item keeps its own placeholders |
| `ReleaseNames.ParseVersionIsInverse` | mainframe/scripts/mobile-release-ref.ts:31-32 | Reading a version off a text succeeds exactly for the texts that a valid version is printed as |
| `CodeUnits.TrimMeaning` | mainframe/scripts/mobile-release-ref.ts:160-174 | Trimming removes exactly the blanks at both ends |
| `ReleaseNames.RefsAreDistinct` | mainframe/scripts/mobile-release-ref.ts:160-213 | Two releases share a ref only when platform, version and number are the same up to surrounding blanks |
| `ReleaseNames.IosRefExactly` | mainframe/scripts/mobile-release-ref.ts:160-209 | An iOS release has a ref if and only if its trimmed version is the print of a valid version and its trimmed build is a positive integer, and the ref is put together from both |
| `ReleaseNames.AndroidRefExactly` | mainframe/scripts/mobile-release-ref.ts:160-213 | An Android release has a ref if and only if its trimmed version is the print of a valid version and its trimmed code is the year, padded month and padded patch of that version followed by two digits from 01 to 99 |
| `ReleaseNames.AndroidNumberHasOneVersion` | mainframe/scripts/mobile-release-ref.ts:176-213 | Two Android releases with refs and the same code have the same version |
| `ReleaseNames.CodeHasOneVersion` | mainframe/scripts/mobile-release-ref.ts:176-197 | A version code is accepted for at most one version |
| `ReleaseNames.CodeOrder` | mainframe/scripts/mobile-release-ref.ts:176-197 | The exact numeric order of accepted codes, for patch numbers of any length |
| `ReleaseNames.CodesFollowReleases` | mainframe/scripts/mobile-release-ref.ts:176-197 | For patch numbers below 100 it is the lexicographic order of year, month, patch and suffix |
| `ReleaseNames.LongPatchBreaksOrder` | mainframe/scripts/mobile-release-ref.ts:176-197 | Two accepted codes whose order is not that of their releases |
| `ReleaseRefs.RunKeepsInvariant` | mainframe/scripts/mobile-release-ref.ts:257-326 | In every state of every interleaving, whoever has pushed or succeeded finds its commit at the ref |
| `ReleaseRefs.RefsNeverChange` | mainframe/scripts/mobile-release-ref.ts:278-313 | Once set, a ref keeps its commit in every later state |
| `ReleaseRefs.SuccessesAgree` | mainframe/scripts/mobile-release-ref.ts:278-313 | Any two recorders that report success for a ref, at any moments, recorded the same commit |
| `ReleaseRefs.SuccessIsVisible` | mainframe/scripts/mobile-release-ref.ts:257-326 | After a success every later resolve gives its commit, a later record of it is already recorded, and any other commit is refused |
| `ReleaseRefs.SuccessStays` | mainframe/scripts/mobile-release-ref.ts:278-313 | A success is never undone |
| `ReleaseRefs.LoneRecorder` | mainframe/scripts/mobile-release-ref.ts:257-313 | A recorder without competition creates an available ref, and leaves a taken one alone |
| `ReleaseRefs.RefusedExactly` | mainframe/scripts/mobile-release-ref.ts:257-313 | In every interleaving, a step refuses a recorder if and only if it is a command of its own that fails or finds another commit at the ref |
| `ReleaseRefs.PreflightDecides` | mainframe/scripts/mobile-release-ref.ts:257-313 | A recorder that succeeds is `already-recorded` when the ref existed at its preflight and `created` when it did not |
| `ReleaseRefs.FirstPushWins` | mainframe/scripts/mobile-release-ref.ts:278-300 | A ref holds a commit if and only if it held it in the beginning, or did not exist then and the first push for it that reached the remote was for that commit |
| `Selection.SelectDeterministicTranslation` | mainframe/scripts/android-app-i18n.ts:978-993 | The Android selector returns the one choice among the candidates, and the empty text for none |
| `Selection.ChooseTranslation` | mainframe/scripts/apple-app-i18n.ts:566-579 | The Apple selector returns the same choice, and the source for no candidates |
| `Selection.ChoiceMeaning` | mainframe/scripts/apple-app-i18n.ts:566-579 | Every non-empty list has exactly one choice: a most frequent candidate other than the source, the smallest by code units on ties, and the source only when there is nothing else |
| `Selection.SelectorsAgree` | mainframe/scripts/android-app-i18n.ts:978-993 | What the two selectors return differs only for an empty list |
| `Selection.ChoiceIgnoresOrder` | mainframe/scripts/apple-app-i18n.ts:566-579 | The choice depends only on the multiset of the candidates |
| `Selection.TranslationIsNeverDropped` | mainframe/scripts/android-app-i18n.ts:1125-1131 | The guard that throws because the source was kept despite a translated candidate never fires |
| `SortedTexts.IncreasingIsUnique` | mainframe/scripts/apple-app-i18n.ts:442-444 | An increasing list is determined by its members, so sorting distinct texts has one result |
| `CodeUnits.LessMeaning` | mainframe/scripts/apple-app-i18n.ts:442-444 | A text is smaller than another exactly when it is a proper prefix of it or has the smaller code unit at the first difference |
| `IosCatalog.BuildIosCatalog` | mainframe/scripts/apple-app-i18n.ts:581-667 | The builder's loops compute the catalog and the report of the specification |
| `IosCatalog.BuildIsFixedPoint` | mainframe/scripts/apple-app-i18n.ts:581-667 | Building again from the built catalog gives the same catalog and the same report, whatever was there before |
| `IosCatalog.CatalogIsComplete` | mainframe/scripts/apple-app-i18n.ts:586-660 | The keys are, in increasing order, exactly those of the listed entries, and each key has exactly the required locales |
| `IosCatalog.UnitMeaning` | mainframe/scripts/apple-app-i18n.ts:632-655 | A translated, non-empty unit is never replaced; otherwise a unit holds the source for English and the choice elsewhere, and is new exactly when no candidate differs from the source |
| `IosCatalog.CandidateMeaning` | mainframe/scripts/apple-app-i18n.ts:586-619 | A text is a candidate for a source in a locale if and only if the last artifact of the locale translates that source to it under the id of a listed inventory entry for the same source |
| `IosCatalog.CandidatesAreCounted` | mainframe/scripts/apple-app-i18n.ts:600-619 | It is a candidate exactly as many times as that artifact has such entries |
| `IosCatalog.ReportMeaning` | mainframe/scripts/apple-app-i18n.ts:627-666 | The report is in order and names a key and a locale exactly when there are at least two different candidates, listing each of them once in increasing order |
| `IosCatalogSync.Files.SyncIosCatalog` | mainframe/scripts/apple-app-i18n.ts:835-860 | What the command returns and leaves in both files, in write and in check mode, stale files included |
| `IosCatalogSync.CheckAfterWritePasses` | mainframe/scripts/apple-app-i18n.ts:835-860 | After a successful write, a check passes with the same build, and another write changes nothing |
| `IosCatalogSync.CheckPassesWhenWriteIsIdle` | mainframe/scripts/apple-app-i18n.ts:835-860 | A check passes exactly when a write would change neither file, and never writes |
| `IosCatalogSync.WriteKeepsShipped` | mainframe/scripts/apple-app-i18n.ts:835-860 | A write keeps every translated, non-empty unit of the catalog on disk whose source and locale are still wanted, and leaves exactly the built strings and report |
| `IosCatalogSync.InfoPlistSelection` | mainframe/scripts/apple-app-i18n.ts:492-505 | A usable candidate always prevents the fallback to the source, nothing blank replaces the source, and selecting again from the written line gives the same value |
| `IosCatalogSync.InfoPlistFallback` | mainframe/scripts/apple-app-i18n.ts:492-505 | Without a usable candidate, the value of an existing line for the same source stays if and only if it is not blank; otherwise the source is used |
| `PathGlob.MatchParts` | mainframe/scripts/check-policy-config-coverage.ts:209-232 | The recursive matcher with its backtracking loop decides the match relation |
| `PathGlob.MatchMeaning` | mainframe/scripts/check-policy-config-coverage.ts:209-232 | A pattern matches exactly when the value can be cut into consecutive pieces, one fitting each part |
| `PathGlob.MatchOfConcatenation` | mainframe/scripts/check-policy-config-coverage.ts:209-232 | A concatenated pattern matches exactly when some cut of the value is matched on both sides |
| `PathGlob.LiteralPattern` | mainframe/scripts/check-policy-config-coverage.ts:203-207 | A pattern without wildcard parts matches exactly the path written like it |
| `PathGlob.WildcardPatterns` | mainframe/scripts/check-policy-config-coverage.ts:203-232 | The pattern `*` matches exactly the paths without a dot, and `**` matches every path |
| `PathGlob.DottedPattern` | mainframe/scripts/check-policy-config-coverage.ts:203-232 | Two patterns joined by a dot match exactly the paths that a dot cuts into a match of each, and the match of one of them when the other can be empty, which is when it has only `**` parts |
| `Splitting.JoinAfterSplit` | mainframe/scripts/check-policy-config-coverage.ts:203-207 | Joining the split text gives it back, and no piece holds the separator |
| `Splitting.SplitAfterJoin` | mainframe/scripts/check-policy-config-coverage.ts:203-207 | Splitting a joined list of pieces without separators gives the pieces back |
| `PathGlob.Find` | mainframe/scripts/check-policy-config-coverage.ts:86-92 | The classification is that of the first matching item, and there is none exactly when no item matches |
| `PathGlob.SummaryKeysDiffer` | mainframe/scripts/check-policy-config-coverage.ts:190-193 | Two entries share a summary line exactly when both are unclassified or area and status are the same |
| `PathGlob.Summarize` | mainframe/scripts/check-policy-config-coverage.ts:187-197 | Each line counts its entries, and the counts add up to the number of entries |
| `TempPathArgs.QuoteScanState.ConsumeQuotedChar` | mainframe/scripts/check-temp-path-guardrails.ts:56-72 | The mutable quote state moves as the automaton does inside a quotation, and does nothing outside |
| `TempPathArgs.QuoteScanState.BeginQuotedSection` | mainframe/scripts/check-temp-path-guardrails.ts:48-54 | Outside, exactly the three quote characters begin a quotation |
| `TempPathArgs.FindMatchingParen` | mainframe/scripts/check-temp-path-guardrails.ts:74-97 | The result is k exactly when a balanced body lies between the opening position and a closing parenthesis at k, and -1 when there is no such k |
| `TempPathArgs.SplitTopLevelArguments` | mainframe/scripts/check-temp-path-guardrails.ts:99-163 | The arguments are the trimmed pieces between the top-level commas, without a blank last one |
| `TempPathArgs.TopCommaMeaning` | mainframe/scripts/check-temp-path-guardrails.ts:99-163 | For every text, an argument ends exactly at the commas outside quotations before which every parenthesis, bracket and brace that was opened has been closed by the one that balances it |
| `TempPathArgs.ArgumentsMeaning` | mainframe/scripts/check-temp-path-guardrails.ts:99-163 | Every argument is the trimmed piece at its place, and only a last piece of blanks is dropped |
| `TempPathArgs.PiecesJoin` | mainframe/scripts/check-temp-path-guardrails.ts:99-163 | For every text, the untrimmed pieces joined by commas are the text |
| `TempPathArgs.ArgumentsOfMatchedCall` | mainframe/scripts/check-temp-path-guardrails.ts:74-163 | Between matched parentheses the splitter never clamps its depth, ends at depth zero outside quotations, and every argument is balanced on its own |
| `OutputLines.SplitLinesMeaning` | mainframe/scripts/bench-gateway-restart.ts:973-979 | Splitting at `\r?\n` is cutting at every LF and dropping one CR at the end of each complete line |
| `OutputLines.SplitResumes` | mainframe/scripts/bench-gateway-restart.ts:973-979 | Splitting can stop anywhere, between CR and LF too, and go on from the incomplete piece |
| `OutputLines.ChunkingDoesNotMatter` | mainframe/scripts/bench-gateway-restart.ts:973-979 | For any cutting into chunks, the collected lines and the carry are the pieces of the whole text |
| `OutputLines.OutputBuffers.OnChunk` | mainframe/scripts/bench-gateway-restart.ts:1256-1272 | Whatever arrives on either stream, the lines handed on are the non-empty complete lines received on each stream |
| `OutputLines.OutputBuffers.FlushOutputLineBuffers` | mainframe/scripts/bench-gateway-restart.ts:981-998 | The final flush completes each stream to the non-empty lines of its whole text; any other flush changes nothing |
| `OutputLines.NonEmptyMeaning` | mainframe/scripts/bench-gateway-restart.ts:981-998 | Leaving out empty lines removes them all and keeps every other line as often as it was there |
| `RestartProbe.WaitForRestartProbe` | mainframe/scripts/bench-gateway-restart.ts:680-765 | For every history: which attempts are made, when a time to readiness and a downtime are reported, and their values |
| `RestartProbe.MadeIsUnique` | mainframe/scripts/bench-gateway-restart.ts:696-753 | The history determines how many attempts are made |
| `RestartProbe.DowntimeIsNotNegative` | mainframe/scripts/bench-gateway-restart.ts:737-748 | With a monotone clock no reported downtime is negative |
| `RestartProbe.TransitionsChange` | mainframe/scripts/bench-gateway-restart.ts:714-731 | Neighbouring transitions differ in state, and the last one has the state of the last attempt |
| `RestartProbe.TransitionsMeaning` | mainframe/scripts/bench-gateway-restart.ts:714-731 | A transition is reported exactly for the attempts whose outcome differs from that of the attempt before, with that outcome and the time since the signal |
| `LabelBatches.FetchOpenLabelItemBatches` | mainframe/scripts/label-open-issues.ts:552-612 | The batches are the first `limit` items of the pages in order, numbered, all of 500 but the last, with the running count |
| `LabelWorker.Worker.ProcessBatch` | mainframe/scripts/label-open-issues.ts:870-931 | Processing a batch, with a crash at any point, changes memory, state file and labels as the state machine does |
| `LabelWorker.ToAddMeaning` | mainframe/scripts/label-open-issues.ts:894-910 | The label added for a bug report or a feature request is wanted only on an issue with neither category; support and skill labels exactly when classified so and not there yet |
| `LabelWorker.WorkAddsExactly` | mainframe/scripts/label-open-issues.ts:870-931 | A batch, crashed or not, adds a label to an issue exactly when one of its pending copies that was classified calls for it, and never touches an issue in memory |
| `LabelWorker.RunKeepsInvariant` | mainframe/scripts/label-open-issues.ts:870-931 | Over any crashes and reruns, the state file names only handled issues, a worker between batches has saved everything, and a crash forgets at most one batch |
| `LabelWorker.BothExactlyOnConflict` | mainframe/scripts/label-open-issues.ts:894-918 | A batch gives an issue its second category label exactly when it holds two uncategorised copies classified differently |
| `LabelWorker.BothExactlyOnSomeConflict` | mainframe/scripts/label-open-issues.ts:870-931 | Over any runs and crashes, an issue has received both categories exactly when some batch of the run held two uncategorised copies of it classified differently |
| `LabelWorker.NeverBoth` | mainframe/scripts/label-open-issues.ts:870-931 | When no batch holds an issue twice, no issue ever receives both categories, over any runs and crashes |
| `LabelWorker.CopiesCanGetBoth` | mainframe/scripts/label-open-issues.ts:875-918 | For every issue there is a run in which two copies in one batch give it both categories |
| `CatalogAnalysis.AnalyzeControlUiCatalogs` | mainframe/scripts/control-ui-i18n-verify.ts:82-132 | The loops compute the problems and fallbacks of the specification, and there is no problem exactly when every locale agrees with the source |
| `CatalogAnalysis.OrderMeaning` | mainframe/scripts/control-ui-i18n-verify.ts:95-105 | The two filtered lists agree and nothing is orphaned exactly when the locale keys are a subsequence of the source keys |
| `CatalogAnalysis.NoProblems` | mainframe/scripts/control-ui-i18n-verify.ts:82-132 | No problem is found exactly when in every locale the keys are a subsequence of the source keys and shared keys have equal placeholder sets |
| `CatalogAnalysis.ProblemsMeaning` | mainframe/scripts/control-ui-i18n-verify.ts:82-132 | A problem is reported if and only if it concerns some locale: all its keys that the source lacks, in order; its shared keys being out of order; or a shared key whose placeholder sets differ |
| `CatalogAnalysis.FallbackMeaning` | mainframe/scripts/control-ui-i18n-verify.ts:107-131 | The fallbacks are exactly the pairs of a source key and a locale without it |
| `CatalogAnalysis.FallbacksAndPresentKeys` | mainframe/scripts/control-ui-i18n-verify.ts:107-131 | Fallback pairs and present source keys add up to the number of source keys times the number of locales |
| `Markdown.MarkdownToBlocks` | mainframe/scripts/ios-app-review-notes-pdf.swift:53-157 | The converter, which holds lines back in buffers, produces the layout that holds nothing back, and its blocks hold what the lines carry |
| `Markdown.Converter.AddLine` | mainframe/scripts/ios-app-review-notes-pdf.swift:82-151 | One line changes the finished and pending blocks as the layout does, and keeps an open list item or code block free of a pending paragraph |
| `Markdown.LayoutLosesNothing` | mainframe/scripts/ios-app-review-notes-pdf.swift:53-157 | The blocks hold, in order, exactly the non-blank lines outside fences and every line inside them, an indented line directly after a list line as a continuation of the list; no paragraph or code block is empty, and a continuation follows a list item |
| `Markdown.BlocksBeginExactly` | mainframe/scripts/ios-app-review-notes-pdf.swift:53-157 | The blocks are cut exactly at the lines that begin one: prose joins the prose line directly before it, code the code line directly before it, and every heading, list item and continuation stands alone |
| `Markdown.HeadingsAreDecorated` | mainframe/scripts/ios-app-review-notes-pdf.swift:53-157 | Two spacers stand before every heading of level 2 and a rule after every heading of level at most 2, and neither anywhere else |
| `MarkdownInline.HtmlEscaped` | mainframe/scripts/ios-app-review-notes-pdf.swift:11-29 | The buffer loop escapes each of the four special characters and copies the others |
| `MarkdownInline.SplitOfEscape` | mainframe/scripts/ios-app-review-notes-pdf.swift:31-41 | Splitting at backticks and escaping can be done in either order |
| `MarkdownInline.InlineReadBack` | mainframe/scripts/ios-app-review-notes-pdf.swift:31-41 | A reader of the HTML, who drops tags and decodes entities, sees every text without its backticks, as code exactly where an odd number of backticks came before; nothing in the text acts as markup |

## Left out

- RunProcess: the callbacks are functions on a record instead of methods on a mutable object, because the events
  of all instances interleave and the theorems are about whole runs; the Windows branches, the spawned command,
  its input and the texts of the error messages are not modelled. Whether
  raising the signal ends the parent is left to the system: runs may go on after it.
- AndroidFormat.Format: models the conversions `%%` and `%i$s` only; a format with any other conversion has no
  meaning here.
- AndroidResource.RenderAndroidResourceValue: compares the two count tables directly instead of their sorted JSON
  texts.
- TranslateBatch.TranslateItems: whether an error speaks of a timeout is a flag of the outcome instead of a search
  in its message; delays, client resets and the validation feedback in the prompt are left out.
- Placeholders.PlaceholderSetMeaning: placeholder lists are compared as sets instead of as arrays sorted by the
  locale's order.
- TranslationBatches.BuildTranslationBatches: the budget is a positive real parameter instead of an environment
  variable.
- ReleaseRefs.RunKeepsInvariant: git commands are steps that may fail, also after reaching the remote; their
  texts, and deletion of refs by other tools, are not modelled.
- IosCatalog.BuildIosCatalog: which entries are listed and how a text is written in the catalog are arbitrary
  function parameters; the theorems hold for all of them. Locales are a parameter, too.
- IosCatalogSync.CheckAfterWritePasses: that parsing a written catalog gives its strings back is an assumption
  about JSON, stated as a precondition.
- IosCatalogSync.InfoPlistSelection: writing and reading `InfoPlist.strings` files is not modelled.
- PathGlob.Summarize: the summary record is a map, and the sorting of the printed report is left out.
- OutputLines.OutputBuffers.OnChunk: chunks are texts already; decoding of bytes that cut a character in two is
  not modelled.
- RestartProbe.WaitForRestartProbe: a history is a finite list of rounds; the parallel list of benchmark events
  is left out.
- KotlinSource.SplitTopLevelSegments: the range must lie inside the text, as it does at both call sites.
- CatalogAnalysis.AnalyzeControlUiCatalogs: locales come in the order in which the script sorts them; the texts
  of the messages and the flattening of nested catalogs are left out.
- LabelWorker.Worker.ProcessBatch: models the issues; pull requests, which get no category, and the dry run are
  left out. Nobody else is assumed to take labels away between runs.
- LabelBatches.FetchOpenLabelItemBatches: all batches are returned at once instead of being yielded one by one, and
  the server's total count, which is only reported, is left out.
- Markdown.MarkdownToBlocks: trimming and the patterns for headings and list items are arbitrary function
  parameters, and blocks are values instead of HTML strings.
- MarkdownInline.HtmlEscaped: a character is one code unit instead of a grapheme cluster, so a special character
  joined to a combining mark, which the script copies as it is, is escaped here.
- MarkdownInline.InlineReadBack: holds for texts whose special characters are not joined to combining marks, for the
  same reason.
- IosCatalog.CatalogIsComplete: `keys` is the order in which the builder adds the sources. A written JavaScript object
  lists integer-like keys first, in numeric order, and a source `__proto__` would add no key of its own; neither is
  modelled.
- `resolveIterationFailure`, `flattenControlUiCatalog` and the option parsers: a reading of their few branches
  settles what they do.
- Regular-expression tables for user-interface literals, contract tables, command-line parsing, report printing,
  SHA-256 keys, timing statistics and PDF layout: data or presentation, no algorithm.
