# Kubeast: proofs about the tool-server's kernels

Kubeast lets a language model operate Kubernetes clusters through a Go "tool-server", beside a Python AI service and a
web frontend. Most of that code moves JSON between services. This project models the parts that compute something and
proves what they promise: two dynamic programs, the canonical printer that approvals are signed over, three protocols
(paging, a cache, a guard against late answers), the readers that flatten manifests and responses, and the bounded tails,
counts and placements around them.

Each module stands for one component. Code that changes things step by step is a method or a class with loops, proved
against a specification function or predicate; the promises are then lemmas about that specification, for all inputs or
all runs. `Strings`, `Numbers`, `Times`, `Options` and `JsonValues` hold what the modules share. `dafny verify dfyconfig.toml` checks everything.

| file | component | main results |
|---|---|---|
| `EditDistance.dfy` | the two-row Levenshtein test for similar names | exact against the cheapest edit script; both early exits; where the empty name breaks it |
| `LineDiff.dfy`, `DiffHunks.dfy`, `DiffText.dfy` | the dry-run diff | least changes over all scripts; hunks determined uniquely; when "unchanged" is right |
| `CanonicalPrinter.dfy`, `CanonicalReader.dfy`, `ApprovalToken.dfy` | approvals | reading undoes printing; one text, one tree; exactly which calls a token lets through |
| `ManifestReader.dfy` | the permission check's manifest reader | limits and order change nothing of what is read; exactly which manifests are read |
| `ListSize.dfy` | the list size protocol | exact refusal of lists over 5000, exactly when it is wrong, at most 11 requests |
| `KubeconfigCache.dfy` | the kubeconfig cache | what every run serves, for any ids; exactly when a rotation is undone |
| `LogSearch.dfy` | the log search view | late answers never mix with the latest search |
| `EndBuffer.dfy`, `FollowedLog.dfy` | bounded tails | dropping on the way equals dropping once |
| `SecretPreview.dfy` | the Secret preview | non-interference |
| `TimelineCount.dfy`, `PromSamples.dfy` | counts and samples | given counts are true, null ones undetermined; sampling bounds |
| `LabelMatch.dfy` | label search in text | exactly which queries are lookups, by a test on the query |
| `ResponseNames.dfy`, `ResponseCells.dfy`, `ResponseOrder.dfy`, `ResponsePaths.dfy`, `ResponseSort.dfy` | the response comparison | exactly when rows in another order change one cell only; when a path's text tells the path |
| `ScatterWords.dfy` | word placement | margins, gaps and distance for every random source |

## Where the code does less than it says

Each of these has an exact condition for all inputs, a lemma with a concrete input, or both.

- `editDistanceAtMost` refuses an empty name even within the limit (`AnswerIsDistanceTestIff`,
  `EmptyNameIsRefusedWithinLimit`).
- Past 4000 lines `unifiedDiff` counts every line of equal texts as changed, so an apply that would change nothing is
  reported as "changed" (`UnchangedIff`; `LongObjectNeverUnchanged` for an object with a long list), and its counts are
  least only for texts that share no line (`CountsMinimalIff`).
- An approval with `|` in its id, user, cluster or tool is refused for the very call it was signed for
  (`SignedAcceptedIff`). The cluster is the field that can hold one: it is whatever the call names (`BarRefused`).
- A call that k8s-service has answered and that has not stored the answer yet puts the old entry back after an
  invalidation, so "AI tool calls pick up the new credentials immediately" holds exactly when no such call is in flight
  (`StaleAfterInvalidateIff`).
- Invalidating a cluster reaches further than the cluster for ids with `|` (`DropsIff`; `BarInIdIsReached` for `prod` and
  `prod|eu`). What is dropped is fetched again, and registered ids are slugs (services/pkg/cluster/registry.go:11), so
  nothing wrong is served. Cache keys of two callers can only clash when one of them has no token (`SharedKeyIff`,
  `SharedKeyIsServed`), and a call without one is refused before it gets here (services/tool-server/authz.go:146-150).
- A cut page is answered as "more than 5000" whatever the list holds, which is wrong exactly for lists of at most 5000
  (`AskListSize`; `CutPageRefusesShortList` for large objects).
- A live Secret value that already reads like a placeholder is shown as it is (`ShownIff`), and its key looks changed when
  it is not (`PlaceholdersDifferIff`). The values of a core v1 Secret are base64 and never read so (`CoreSecretIsHidden`);
  those of a custom resource whose kind is `Secret` can (`CustomSecretIsShown`).
- The default Prometheus step exceeds the 120-point cap for every window of half an hour or more
  (`DefaultStepWithinCapIff`), the default hour included (`DefaultHourIsOverCap`), so such a series is always thinned and
  marked as cut.
- A label query that reads as several labels, or as labels and the closing bracket, is found in maps that do not hold it
  (`LookupInEveryMapIff`, `SpaceMisleads`).
- Reordering a list inside an event's name renames the event's row, which changes more cells than the list's order
  (`ReorderingChangesOrderOnlyIff`, `ListInEventNameMatters`).
- Two cell paths can be one text, and one of the two cells is then lost: within an answer where a key or row name goes on
  after another with `.` or `[` (`KeepApartIff`, `DottedKeyHidesCell`), between answers also where a row's name is a number
  (`AnswersCanShareTexts`).

## Model

| member | source | states |
|---|---|---|
| EditDistance.EditDistanceAtMost | services/tool-server/notfound.go:308-337 | The two swapped rows with both early exits answer exactly whether both names are non-empty and their distance is within the limit, for every limit. |
| EditDistance.DistanceIsCheapestScript | services/tool-server/notfound.go:307-337 | The distance is within a limit exactly when some sequence of keeps, inserts, deletes and replaces within that cost turns one name into the other. |
| EditDistance.NoCheaperScript | services/tool-server/notfound.go:323-330 | No edit script between two prefixes is cheaper than the table's entry for them. |
| EditDistance.CheapestScript | services/tool-server/notfound.go:323-330 | Some edit script costs exactly the table's entry. |
| EditDistance.LengthDifferenceBound | services/tool-server/notfound.go:312-314 | The length difference never exceeds the distance, so the cut before the table loses nothing. |
| EditDistance.RowMinimumNeverFalls | services/tool-server/notfound.go:322-333 | A lower bound of one row bounds every later row, so stopping at a row above the limit loses nothing. |
| EditDistance.AnswerIsDistanceTestIff | services/tool-server/notfound.go:307-311 | The answer is the promised distance test exactly when both names are non-empty or the longer one is longer than the limit. |
| EditDistance.EmptyNameIsRefusedWithinLimit | services/tool-server/notfound.go:309-311 | An empty name is refused against a one-byte name at limit 1 although the distance is 1. |
| LineDiff.FillTable | services/tool-server/handlers_diff.go:285-300 | The backward loops fill every entry with the length of a longest common subsequence of the two suffixes. |
| LineDiff.LcsOps | services/tool-server/handlers_diff.go:283-324 | The walk over the filled table emits the script `Walk`, which the lemmas below are about. |
| LineDiff.WalkIsMinimal | services/tool-server/handlers_diff.go:283-324 | The script's ' '/'-' lines spell the old text and its ' '/'+' lines the new one, and no script that does so changes fewer lines. |
| LineDiff.NoScriptKeepsMore | services/tool-server/handlers_diff.go:290-299 | No script between two suffixes keeps more lines than the table says. |
| LineDiff.ScriptSpells | services/tool-server/handlers_diff.go:203-212 | Within or past the line cap, the script turns the old lines into the new ones. |
| LineDiff.NothingCountedIff | services/tool-server/handlers_diff.go:203-224 | No line is counted added or removed exactly when the line lists are equal and within the cap. |
| LineDiff.CountsMinimalIff | services/tool-server/handlers_diff.go:196-212 | The counts are the least of any script exactly within the cap or when the texts share no line. |
| DiffHunks.UnifiedDiff | services/tool-server/handlers_diff.go:199-269 | The counts are the script's; the text is empty without changes and otherwise the header and the script's hunks. |
| DiffHunks.WriteHunks | services/tool-server/handlers_diff.go:227-268 | The hunk loop ends and prints the maximal runs of lines within three of a change, with an omitted line between any two. |
| DiffHunks.RunEnd | services/tool-server/handlers_diff.go:239-255 | A run bridges context so that every line in it is near a change, and seven context lines or the end follow it. |
| DiffHunks.HunksUnique | services/tool-server/handlers_diff.go:227-267 | A script has exactly one list of such hunks. |
| DiffHunks.SharedHunkIff | services/tool-server/handlers_diff.go:245-253 | Two changes with only context between share a hunk exactly when at most six context lines lie between. |
| DiffHunks.HunkEdges | services/tool-server/handlers_diff.go:228-259 | Every hunk holds a change, starts three lines before its first and stops three after its last, or at an end of the script. |
| DiffHunks.PrintsEveryChangeOnce | services/tool-server/handlers_diff.go:260-267 | The printed lines contain every change of the script exactly once and in order. |
| DiffText.SplitLinesEqualIff | services/tool-server/handlers_diff.go:276-281 | Two texts have the same lines exactly when they are equal up to newlines at the end and neither alone is empty. |
| DiffText.UnchangedIff | services/tool-server/handlers_diff.go:104-107 | Two JSON texts are reported unchanged exactly when they are equal and within the line cap. |
| DiffText.LongObjectNeverUnchanged | services/tool-server/handlers_diff.go:203-210 | An object with a list of 3993 numbers or more, equal to the live one, is never reported unchanged. |
| CanonicalPrinter.WriteCanonical | services/tool-server/approval_token.go:98-142 | The writer appends the canonical text of the tree, whatever order the maps yield their keys in. |
| CanonicalPrinter.WriteCanonicalString | services/tool-server/approval_token.go:162-195 | The loop appends the quoted and escaped string. |
| CanonicalPrinter.CanonicalArgs | services/tool-server/approval_token.go:82-96 | The text is that of the arguments without the top-level key `cluster`. |
| CanonicalPrinter.TextIsPrintable | services/tool-server/approval_token.go:162-164 | Whatever Unicode the strings hold, the text is printable ASCII (number literals being so). |
| CanonicalReader.UnicodeReads | services/tool-server/approval_token.go:183-191 | A `\u` escape, with a surrogate pair above U+FFFF, reads back as the character. |
| CanonicalReader.StringReads | services/tool-server/approval_token.go:165-195 | Reading a printed string gives the string and leaves what follows. |
| CanonicalReader.ValueReads | services/tool-server/approval_token.go:98-142 | Reading the text of any decoded tree, whatever follows it, gives the tree and leaves what follows. |
| CanonicalReader.RoundTrip | services/tool-server/approval_token.go:98-195 | Parsing the canonical text gives back the tree. |
| CanonicalReader.ArgsTextEqualIff | services/tool-server/approval_token.go:82-96 | Two argument maps print the same text exactly when they are equal apart from `cluster`. |
| ApprovalToken.SignedAcceptedIff | services/tool-server/approval_token.go:34-80 | A signed token is accepted exactly under its secret, for the same id, user, cluster, tool and arguments without `cluster`, through its expiry, when no field holds `|`. |
| ApprovalToken.TokenBindsOneCall | services/tool-server/approval_token.go:55-78 | Any token, whoever made it, is accepted for at most one call. |
| ApprovalToken.SignatureChecks | services/tool-server/approval_token.go:40-58 | A token signed by ai-service reaches the field checks exactly under the signing secret, with its payload split as it was joined. |
| ApprovalToken.BarRefused | services/tool-server/approval_token.go:55-58 | An approval for a cluster id with `|` is refused as malformed for its own call, unexpired and under the right secret. |
| ApprovalToken.ParseIntReads | services/tool-server/approval_token.go:59-62 | Every 64-bit expiry that is signed in decimal is parsed back. |
| ManifestReader.ReadManifest | services/tool-server/screen_permissions.go:269-292 | What is returned is, as a multiset, the unlimited flattening of all documents, no more than 8 lists deep and at most 2009 objects; every readable manifest within the depth and of 1 to 2000 objects is read; where no object has two keys that read as items, one is read exactly when all objects but those that come after the last count are at most 2000. |
| ManifestReader.AppendManifestObjects | services/tool-server/screen_permissions.go:294-339 | One document appends exactly its flattening, within the bounds for its depth, and fails exactly when it does not flatten, lies too deep or has too many objects in time to be counted. |
| ManifestReader.AppendLists | services/tool-server/screen_permissions.go:302-327 | The loop over the keys appends the flattening of all lists, in whatever order the keys come. |
| ManifestReader.AppendItems | services/tool-server/screen_permissions.go:307-326 | The loop over one list appends the flattening of its items, each filled in from the list. |
| ManifestReader.TailIsCounted | services/tool-server/screen_permissions.go:297-299 | What a document adds after its last item is begun, where the objects are counted for the last time, is part of its flattening. |
| ManifestReader.AnyKeyFirst | services/tool-server/screen_permissions.go:303-306 | The flattening of several item lists does not depend on which key comes first. |
| ManifestReader.FilledFlattens | services/tool-server/screen_permissions.go:317-322 | Writing a missing kind and apiVersion into an item is the same as reading it with its list's. |
| ListSize.AskListSize | services/tool-server/handlers_size.go:41-94 | Against any server of a fixed list whose pages make progress: the answer never exceeds the list's size, is exact unless a lower bound, and is above 5000 exactly when the list is, except exactly when the last page was cut and the list is not above 5000; each request goes on where the page before ended; at most 11 requests when pages are full. |
| ListSize.RefusesLongLists | services/tool-server/handlers_size.go:182-196 | Refused are exactly the lists of more than 5000 objects whose requests were answered whole, and those a page of which was cut. |
| ListSize.CutPageRefusesShortList | services/tool-server/handlers_size.go:67-71 | Under a selector every list of two or more objects too large for one page is refused, however short. |
| KubeconfigCache.SharedKeyIff | services/tool-server/kubeconfig_resolver.go:165-177 | For any ids, two callers share a key exactly when they are one caller of one cluster, or one of them has no token and names the other's key as its id. |
| KubeconfigCache.DropsIff | services/tool-server/kubeconfig_resolver.go:188-192 | For any ids, an invalidation drops a key exactly when it is of its own cluster, of an id that goes on after its own with a bar, or of the one caller whose key is its id. |
| KubeconfigCache.BarInIdIsReached | services/tool-server/kubeconfig_resolver.go:188-192 | Invalidating `prod` drops what is cached for `prod|eu`. |
| KubeconfigCache.SharedKeyIsServed | services/tool-server/kubeconfig_resolver.go:133-161 | What one of two callers that share a key has fetched is served to the other. |
| KubeconfigCache.Cache.Lookup | services/tool-server/kubeconfig_resolver.go:133-138 | An entry answers strictly before its expiry. |
| KubeconfigCache.Cache.Store | services/tool-server/kubeconfig_resolver.go:159-161 | The entry is put under its key, good for the TTL, and nothing else changes. |
| KubeconfigCache.Cache.Invalidate | services/tool-server/kubeconfig_resolver.go:183-193 | The loop leaves exactly the entries whose key it does not drop, as they were. |
| KubeconfigCache.ServedIsFetchedForCaller | services/tool-server/kubeconfig_resolver.go:119-163 | In every interleaving of calls with tokens, whatever ids they name, what the cache serves for a cluster and token is what a fetch for that pair answered, stored less than the TTL ago and after the cluster's last invalidation. |
| KubeconfigCache.InvalidateIsExact | services/tool-server/kubeconfig_resolver.go:179-193 | In every state and for any ids an invalidation removes all entries of its cluster, and otherwise only those of `DropsIff`; all others stay unchanged. |
| KubeconfigCache.StaleAfterInvalidateIff | services/tool-server/kubeconfig_resolver.go:140-193 | After an invalidation some continuation serves access fetched before it exactly when k8s-service has answered a call for the cluster that has not stored the answer. |
| LogSearch.LogSearchView.Begin | frontend/src/components/LogSearchView.tsx:83-85 | A run takes the next number, sets busy and clears the error, and nothing else. |
| LogSearch.LogSearchView.Search | frontend/src/components/LogSearchView.tsx:117-129 | A search is remembered as submitted and begins a run. |
| LogSearch.LogSearchView.Answer | frontend/src/components/LogSearchView.tsx:102-111 | An answer of the latest run replaces or extends the lines and bytes and ends busy; any other changes nothing. |
| LogSearch.LogSearchView.Fail | frontend/src/components/LogSearchView.tsx:108-112 | A failure of the latest run sets the error and ends busy; any other changes nothing. |
| LogSearch.IdleShowsLatestSearch | frontend/src/components/LogSearchView.tsx:81-129 | In every interleaving an idle view without an error shows exactly the answers to the latest search and each Load older since, in order, by consecutive requests that each continue where the page before ended, and the sum of their bytes. |
| LogSearch.BusyIffLatestOut | frontend/src/components/LogSearchView.tsx:83-111 | In every interleaving the view is busy exactly while the latest request is out. |
| LogSearch.OlderAnswerChangesNothing | frontend/src/components/LogSearchView.tsx:102-111 | In every interleaving the end of an older request changes nothing shown. |
| EndBuffers.EndBuffer.Write | services/tool-server/kubectl.go:60-66 | After every write the buffer holds the end of all that was written, at least `max` bytes of it or all, and never above twice `max`. |
| EndBuffers.EndBuffer.Bytes | services/tool-server/kubectl.go:68-73 | The last `max` bytes of everything written. |
| EndBuffers.RunKeepingEnd | services/tool-server/kubectl.go:97-116 | Cut is said exactly when the whole output is longer than the limit, and the text is that of the whole output, however it was written in pieces. |
| EndBuffers.EndOfTextStartsALine | services/tool-server/handlers_screen_reads.go:72-82 | A cut text is an end within the limit, from the first line start strictly inside it when there is one, and not empty. |
| EndBuffers.EndOfTextFromEnd | services/tool-server/kubectl.go:104-115 | One byte more than the limit is enough to cut as the whole output would be. |
| FollowedLog.KeepLastLines | frontend/src/components/LogFilesView.tsx:67-73 | The backward loop returns the longest end of the text with at most 5000 newlines. |
| FollowedLog.TailIsLongest | frontend/src/components/LogFilesView.tsx:67-73 | An end of the text has at most that many newlines exactly when it is no longer than the tail. |
| FollowedLog.TailOfTail | frontend/src/components/LogFilesView.tsx:152-152 | Keeping the tail, appending and keeping the tail is keeping the tail of the whole. |
| FollowedLog.Follow | frontend/src/components/LogFilesView.tsx:152-155 | After any messages the text is the last 5000 lines of everything streamed. |
| SecretPreview.HideSecretValues | services/tool-server/handlers_diff.go:133-158 | The loops over both fields leave `Hidden`, whatever order the maps yield their keys in. |
| SecretPreview.HideAfter | services/tool-server/handlers_diff.go:142-151 | The first loop writes both sides' placeholders from the original values although it overwrites them as it goes. |
| SecretPreview.HideBefore | services/tool-server/handlers_diff.go:152-156 | The second loop hides every live value that does not read like a placeholder. |
| SecretPreview.PreviewHidesValues | services/tool-server/handlers_diff.go:133-158 | Two pairs of Secrets with the same keys, the same keys changed and everything else equal have identical previews, when no live value that stays reads like a placeholder. |
| SecretPreview.PlaceholdersDifferIff | services/tool-server/handlers_diff.go:144-150 | A shared key's placeholders differ exactly when its values do, unless equal values read like a placeholder. |
| SecretPreview.ShownIff | services/tool-server/handlers_diff.go:152-156 | A live value is shown exactly when it reads like a placeholder without being one and is not replaced by another value. |
| SecretPreview.KeysKept | services/tool-server/handlers_diff.go:142-157 | Key sets are kept on both sides. |
| SecretPreview.CoreSecretIsHidden | services/tool-server/handlers_diff.go:133-158 | Every value of a core v1 Secret is hidden, and the placeholders of a shared key differ exactly when its values do. |
| SecretPreview.CustomSecretIsShown | services/tool-server/handlers_diff.go:134-156 | A custom resource of kind `Secret` with a value that reads like a placeholder shows it, and its key looks changed when nothing is. |
| PromSamples.DefaultStepBound | services/tool-server/handlers_feature.go:162-173 | By default no window that is accepted is sampled more than 129 times. |
| PromSamples.DefaultStepBoundReached | services/tool-server/handlers_feature.go:166-176 | An accepted window is sampled 129 times. |
| PromSamples.DefaultStepWithinCapIff | services/tool-server/handlers_feature.go:166-176 | The default step keeps a series within the 120-point cap exactly for windows under half an hour. |
| PromSamples.DefaultHourIsOverCap | services/tool-server/handlers_feature.go:162-176 | With no time asked for, the window is sampled 121 times whenever it is asked. |
| PromSamples.Thin | services/tool-server/handlers_feature.go:272-282 | A series of more than n points is thinned to exactly n of them at strictly increasing places, first and last included, no gap above the even share rounded up; any other series is returned as it is. |
| PromSamples.KeptIndexStep | services/tool-server/handlers_feature.go:278-281 | Neighbouring kept places are apart by at least one and at most the even share rounded up, the moved last one included. |
| TimelineCount.KeepAndCount | services/tool-server/handlers_timeline.go:157-180 | The loop keeps the events asked for and decides the count from them, from the total, or as null. |
| TimelineCount.CountIsTrue | services/tool-server/handlers_timeline.go:173-180 | When the list is the newest of the window, a count that is given is the number of the window's events asked for, listed or not. |
| TimelineCount.NullIsUndetermined | services/tool-server/handlers_timeline.go:174-180 | Where the count is null, two windows with the same listing and total hold different numbers. |
| TimelineCount.NoNoteIffComplete | services/tool-server/handlers_timeline.go:70-89 | No note is shown exactly when every event asked for is listed and could be counted. |
| TimelineCount.WindowCovers | services/tool-server/handlers_timeline.go:34-68 | The whole hours reach the start asked for by less than one more, at most 2160, and are noted exactly when they reach further. |
| LabelMatch.LabelMatch | services/tool-server/handlers_find.go:154-173 | The search over both leads ends and finds exactly the occurrences that end a label. |
| LabelMatch.HitIffSpelt | services/tool-server/handlers_find.go:154-173 | On the rendering of any label map, a hit is a label from which the pair spells one or more labels. |
| LabelMatch.HitIffLabel | services/tool-server/handlers_find.go:154-173 | A query that does not mislead is found exactly when the map holds that key and value, empty values included. |
| LabelMatch.MisleadingIff | services/tool-server/handlers_find.go:154-173 | A test on the query alone, whether its pieces between spaces read as plain labels with rising keys, two or more or before the bracket, tells whether it is what is printed of some map's labels. |
| LabelMatch.LookupInEveryMapIff | services/tool-server/handlers_find.go:154-173 | The search is a lookup in every label map exactly for the queries that do not pass that test. |
| LabelMatch.PlainQueriesDoNotMislead | services/tool-server/handlers_find.go:59-59 | A query without spaces whose value does not end in a bracket does not mislead. |
| LabelMatch.SpaceMisleads | services/tool-server/handlers_find.go:59-59 | A value with a space is found across two labels of a map that does not hold it. |
| ResponseNames.FindRowNames | e2e/guard/response-compare.ts:31-47 | Rows are named by their values or names, numbered when a name repeats, or not named. |
| ResponseNames.NumberNames | e2e/guard/response-compare.ts:41-46 | The loop numbers the second and later rows of a name by how often it was seen. |
| ResponseNames.OrderShowsChange | e2e/guard/response-compare.ts:41-53 | When one row's own name changes and that changes how the rows are named, the joined order changes, numbers or not. |
| ResponseCells.Flatten | e2e/guard/response-compare.ts:49-63 | Flattening writes exactly the cells of `CellAt` below the path, under the texts of their paths, and leaves every other cell. |
| ResponseOrder.SimilarName | e2e/guard/response-compare.ts:14-29 | What a list inside a row holds does not change the row's name, unless it is part of an event's name. |
| ResponseOrder.PermutedNames | e2e/guard/response-compare.ts:31-38 | Rows with distinct names keep them in any order. |
| ResponseOrder.ReorderingChangesOrderOnly | e2e/guard/response-compare.ts:8-63 | Rows with distinct names put in another order, in any list at any depth, change no cell but that list's order, as long as no row on the way to the list is renamed by it. |
| ResponseOrder.ReorderingChangesOrderOnlyIff | e2e/guard/response-compare.ts:8-63 | For a path that leads into one row of every list on its way, no other cell changes exactly when every list on the way gives its rows the same names. |
| ResponseOrder.RenamingCanBeHidden | e2e/guard/response-compare.ts:41-57 | Where a path leads into two rows (named `x`, `x` and `x#2`), a row is renamed by the reordering and no cell changes, so the condition on the path is needed. |
| ResponseOrder.PlainEventsKeepNames | e2e/guard/response-compare.ts:14-17 | Where no row on the way is an event with a list in its name, every list on the way gives its rows the same names. |
| ResponseOrder.ListInEventNameMatters | e2e/guard/response-compare.ts:15-17 | An event whose reason is a list moves to other cells when that list is reordered. |
| ResponsePaths.KeepApartIff | e2e/guard/response-compare.ts:52-58 | Two steps at one place keep all paths through them apart exactly when neither reads like the other or goes on after it with `.` or `[`. |
| ResponsePaths.LegibleReadsApart | e2e/guard/response-compare.ts:49-63 | In a value in which no branch that goes on runs into one beside it, no two cells have one text. |
| ResponsePaths.PlainReadsApart | e2e/guard/response-compare.ts:49-63 | Cells of any two values whose keys hold no `.` or `[` and whose row names no `]`, names that are numbers and the two own keys aside, have one text only if they have one path. |
| ResponsePaths.DottedKeyHidesCell | e2e/guard/response-compare.ts:58-58 | A key with a dot beside an object: two cells of one answer under one text. |
| ResponsePaths.AnswersCanShareTexts | e2e/guard/response-compare.ts:52-58 | A row named `0` and an unnamed first row, and a list's length and a key, have one text. |
| ResponseSort.CellsOf | e2e/guard/response-compare.ts:65-70 | An answer's cells are those of its body, its status and its headers, under the texts of their paths. |
| ResponseSort.SortCells | e2e/guard/response-compare.ts:76-91 | Every cell is equal, noise or a real difference; noise and real ones are each reported once, real ones with the right kind and values. |
| ResponseSort.NothingReportedIff | e2e/guard/response-compare.ts:82-90 | Nothing is reported exactly when the three answers have the same cells. |
| ResponseSort.SortedByText | e2e/guard/response-compare.ts:76-91 | Where the cells of the answers read apart, sorting by text sorts each path's own cells. |
| ResponseSort.LegibleAnswer | e2e/guard/response-compare.ts:49-70 | No two cells of an answer with a legible body have one text, the status and the headers included. |
| ResponseSort.OnlyOrderReported | e2e/guard/response-compare.ts:76-91 | When only the order of one list's rows differs and no row on the way is renamed, at most that list's order is reported, under its text. |
| ResponseSort.OnlyOrderReportedIff | e2e/guard/response-compare.ts:76-91 | Between answers whose cells read apart, at most that order is reported exactly when every list on the way gives its rows the same names. |
| ScatterWords.ScatterWords | site/particles.js:128-160 | The words placed are those that fit at their first fitting try of 400. |
| ScatterWords.PlaceWord | site/particles.js:141-157 | The tries for one word end at the first that fits, or place nothing. |
| ScatterWords.PlacedApart | site/particles.js:141-159 | For every random source all placed words keep the box's margin, the gap of 8 to the avoided rectangles and to each other along an axis, and every point of them the distance to the logo. |
| ScatterWords.ClampIsNearest | site/particles.js:149-153 | A point of the rectangle too near the logo makes the clamped point too near. |
| ScatterWords.LeftOutIff | site/particles.js:141-157 | A word is left out exactly when none of its 400 tries fits beside the words before it. |

## Left out

- HTTP, kubectl, TLS, JWT and file access: servers, fetches and decoders are arbitrary functions, events or inputs.
- Go and JavaScript numbers: lengths, counts and nanoseconds are unbounded integers (no length or count here nears 64 bits), coordinates are reals without rounding, and the expiry's 64-bit range is modelled where it is parsed.
- SHA-256, HMAC and base64url: taken as free of collisions and of the separators, which the proofs name as `Ideal`.
- writeCanonical's cases for Go floats, integers and other types: arguments are decoded with number literals. Strings are Unicode scalar values, so invalid UTF-8 is not modelled.
- The canonical text is proved to read back; lone surrogates in a text nobody prints are refused by the reader, where Go's decoder replaces them.
- The YAML decoder: a manifest is its size and the sequence of documents or the error the decoder yields. Item maps are values, so filling an item in returns a new map.
- ManifestReader.ReadManifest: where an object has two keys that read as items (`items` and `Items`), whether 2001 to 2009 objects are read depends on the order in which Go's map yields them; there only the two bounds are stated.
- ListSize: the resource path and its cache, and servers whose list changes between pages.
- Kubeconfig files: the cached path is an opaque value, and no claim is made that its file exists.
- LogSearch: rendering, the text of requests and of error messages; changing the pod or cluster is a search.
- ResponseCells.Flatten: what a cell holds is kept as data, not as the text JSON.stringify gives it. Numbers are their canonical literal.
- ScatterWords: how the candidate places are drawn around the logo, and the width correction after fonts load.
- TimelineCount.WindowCovers: hours are exact quotients, and a span given as text is already a time; the rollouts and the other notes of the answer are not modelled.
- The error path of RunKeepingEnd, the plain output cap, dropPath, similarNames' ranking, the GPU counts, the picture comparison, validators and message texts: they would add easier members only.
