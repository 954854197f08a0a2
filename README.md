# FlexTrack core, modelled in Dafny

FlexTrack is a single-page gym tracker (`script_v3.js`). The owner keeps a registry of
machines and logs exercise entries of weighted sets against them, one record per day.
The app draws per-machine statistics from that log: total volume, heaviest set, workout
count, last date, the top three personal records, and a volume-per-day chart. Everything
persists as two JSON documents in the browser's `localStorage`.

This project models the logic behind those screens. Side effects are left out.

- `domain.dfy`: the stored records (machine, set, entry, workout record) and the two
  invariants the log is meant to keep: one entry per machine per day, and one record per date.
- `strings.dfy`: the parts of the JavaScript string library the code relies on: `trim`, ASCII
  `toLowerCase`, prefix tests, and the greedy `[a-zA-Z0-9]+` match.
- `escape.dfy`: `escapeHtml` as the program writes it, a chain of five global `replace` calls.
  It is shown equal to a one-pass, per-character reference and inverted by an entity decoder.
- `imgur.dfy`: `formatImgurUrl` with its three regular expressions written out as functions. The
  browser's URL parser (`isValidHttpUrl`) is a parameter.
- `registry.dfy`: the machine registry.
  - The image normalisation of `getMachines` / `saveMachines`.
  - The checks of `handleAddMachine`.
  - The `filter` of `deleteMachine`.
  - The registry invariant: trimmed non-empty names, names distinct ignoring case, distinct
    ids, normalised images.
- `workout_log.dfy`: the workout log.
  - The read path (`getWorkouts`) and the write path (`saveWorkouts`).
  - Set parsing.
  - What logging, editing and deleting an entry do to the list of records.
  - The cascade of `deleteMachine` over the log.
- `statistics.dfy`: the `renderStatistics` fold into per-machine buckets, as an imperative
  method proved equal to a functional fold, and what each bucket then means.
- `ranking.dfy`: the personal-record sort (a stable sort with the program's comparator), the
  dedup-and-keep-three loop, and the chart series.
- `store.dfy`: class `GymStore`, holding the two stored documents as fields, with one method per
  handler. Each handler reads through the read path, changes what it read, and writes back.
  Each method states the new stored state and that the invariants are kept.

Three behaviours of the code are easy to misread, and the model follows the code in each:

- `handleLogExercise` does not check that the selected machine exists. An unknown id is logged
  under "Unknown Machine" (`WorkoutLog.NewEntry`).
- `saveEditedExercise` does not check the day for a second entry of the newly chosen machine.
  One entry per machine per day is therefore not kept on every path (`WorkoutLog.EditCanDuplicateMachine`).
- The personal-record comparator (script_v3.js:983) sorts by date first, later dates first, and
  only on one date by weight × reps, larger first. For the sets (100 × 5) on day 2, (100 × 5) on
  day 1 and (80 × 10) on day 3, the top list is therefore (80 × 10)@3 then (100 × 5)@2
  (`Ranking.TopPrsExample`), although (100 × 5) is the heavier set.

## Model

| member | source | states |
|---|---|---|
| Escape.EntityFor | script_v3.js:231-236 | a character's entity is itself exactly when it is not one of `& < > " '`, and no entity contains `< > " '` |
| Escape.EscapeHtmlIsPerCharacter | script_v3.js:229-237 | the five chained global replacements equal replacing every character by its entity in one pass, so `&` is never escaped twice |
| Escape.EscapeHtmlAppend | script_v3.js:231-236 | escaping distributes over concatenation |
| Escape.EscapeOne | script_v3.js:231-236 | a single character escapes to its own entity |
| Escape.EscapeHtmlHasNoRawSpecials | script_v3.js:229-237 | escaped text contains no raw `<`, `>`, `"` or `'` |
| Escape.UnescapeEscape | script_v3.js:229-237 | decoding the five entities recovers the original text exactly: escaping loses nothing |
| Escape.EscapePlainText | script_v3.js:229-237 | text without special characters is left unchanged |
| Strings.Trim | script_v3.js:348-349 | the result is empty or starts and ends with a non-white-space character |
| Strings.TrimCutsOnlySpace | script_v3.js:348-349 | the result is a slice of the input, everything cut before and after it is white space, and its ends are not white space |
| Strings.TrimIdempotent | script_v3.js:251-252 | trimming twice equals trimming once |
| Strings.LowerAscii | script_v3.js:363 | lower-casing keeps the length and maps each ASCII capital to its small letter |
| Imgur.FormatImgurUrl | script_v3.js:250-268 | blank input gives null; a non-null result is a canonical `https://i.imgur.com/<id>.jpeg` URL or the trimmed input when that is an http(s) URL; with no Imgur pattern matching, the result is the trimmed input exactly when it is an http(s) URL |
| Imgur.DirectId | script_v3.js:254-256 | a direct-link match yields a non-empty alphanumeric id |
| Imgur.DirectIdSound | script_v3.js:254-256 | a direct-link match is the whole input: a direct host in any letter case, then exactly the id, then nothing or `.` and a listed extension |
| Imgur.DirectIdOfLink | script_v3.js:254-256 | conversely, every such input matches, with the id it carries |
| Imgur.PageId | script_v3.js:258-260 | a page, album or gallery match yields a non-empty alphanumeric id |
| Imgur.PageIdSound | script_v3.js:258-260 | a page-link match is the whole input: `http(s)://`, optional `www.`, `imgur.com/`, an optional `a/` or `gallery/`, then exactly the id, then a rest of the line that does not start with a letter or digit |
| Imgur.PageIdOfLink | script_v3.js:258-260 | conversely, every such input matches with the id it carries, except that without a section an id `a` or `gallery` followed by `/` and a letter or digit reads as a section |
| Imgur.BareId | script_v3.js:262-264 | a bare id is the whole input, 5 to 10 letters and digits |
| Imgur.ImgurId | script_v3.js:254-264 | whichever pattern matches first yields a non-empty alphanumeric id |
| Imgur.CanonicalIsCanonical | script_v3.js:256 | the rewritten URL has the canonical form |
| Imgur.DirectIdOfCanonical | script_v3.js:254-256 | a canonical URL is read back as a direct link to the same id |
| Imgur.FormatImgurUrlIdempotent | script_v3.js:250-268 | formatting an already formatted URL gives the same URL, so reading and writing images repeatedly is stable |
| Imgur.DirectLinkIsNormalised | script_v3.js:254-256 | a direct link, in any letter case, with or without a listed extension, becomes the canonical URL of its id |
| Imgur.PageLinkIsNormalised | script_v3.js:258-260 | an Imgur page, album or gallery link, over http or https, with or without `www.`, followed by anything on the same line that does not continue the id, becomes the canonical URL of its id |
| Imgur.BareIdIsNormalised | script_v3.js:262-264 | a bare id of 5 to 10 letters and digits becomes its canonical URL |
| Imgur.NoPatternPassesThrough | script_v3.js:250-268 | a trimmed input that starts with no direct host (any case) and no page host, and is not 5 to 10 letters and digits, matches no pattern and is kept exactly when it is an http(s) URL |
| Registry.NormalizeImage | script_v3.js:295 | a missing or empty image becomes null; otherwise the image is what `formatImgurUrl` returns |
| Registry.NormalizeImageIdempotent | script_v3.js:299-305 | normalising an image twice equals normalising it once |
| Registry.NormalizeMachines | script_v3.js:292-297 | the read path keeps every machine's id and name, in order, and normalises each image |
| Registry.NormalizeMachinesIdempotent | script_v3.js:299-305 | the read result has normalised images, and a list already normalised is read back unchanged |
| Registry.NewMachine | script_v3.js:347-375 | the three rejections (empty name, invalid image, name taken ignoring case), each exactly when its condition holds; on success the machine has the fresh id, the trimmed name, the normalised image, and a name not taken |
| Registry.AddKeepsRegistryWellFormed | script_v3.js:360-372 | adding an accepted machine with an unused id keeps the registry well formed |
| Registry.RemoveMachine | script_v3.js:390 | the filter never lengthens the list |
| Registry.RemoveMachineSingle | script_v3.js:390 | one machine is kept exactly when its id differs |
| Registry.RemoveMachineAppend | script_v3.js:390 | the filter distributes over concatenation, so with the previous row it keeps exactly the machines whose id differs, in order |
| Registry.RemoveMachineMembers | script_v3.js:390 | every remaining machine was registered and has a different id |
| Registry.RemoveMachineKeepsOthers | script_v3.js:390 | every machine with a different id remains |
| Registry.RemoveMachineUnused | script_v3.js:390 | an unknown id removes nothing |
| Registry.RemoveKeepsRegistryWellFormed | script_v3.js:388-392 | deleting a machine keeps the registry well formed |
| Registry.FindMachine | script_v3.js:413 | a machine is found exactly when its id is registered, and it is the first with that id |
| WorkoutLog.AcceptedSets | script_v3.js:744-751 | every kept set has weight >= 0 and reps > 0, and none is kept exactly when no row passes |
| WorkoutLog.AcceptedSetsSingle | script_v3.js:744-751 | one row gives its parsed set exactly when its weight parses to a number >= 0 and its reps to a number > 0, and nothing otherwise |
| WorkoutLog.AcceptedSetsAppend | script_v3.js:744-751 | the filter distributes over concatenation, so with the previous row it keeps exactly the accepted rows, in order |
| WorkoutLog.CollectSets | script_v3.js:742-751 | the loop collects exactly the accepted rows, in order, and its flag is set exactly when some row passes |
| WorkoutLog.RefreshEntry | script_v3.js:412-419 | id, sets and notes are kept; when the machine is registered, name and image are that machine's; otherwise the name is the stored one, or "Unknown Machine" when that is empty, and the image is the stored one normalised |
| WorkoutLog.ReadWorkouts | script_v3.js:408-421 | the read path keeps every record's date and refreshes each entry against the machines as read |
| WorkoutLog.SaveForm | script_v3.js:423-432 | the write path keeps every date and entry and normalises each entry's image |
| WorkoutLog.ShapeKeepsInvariants | script_v3.js:408-432 | the read and write paths change no date or machine id, so every log invariant holds before them exactly when it holds after them |
| WorkoutLog.SaveOfReadIsRead | script_v3.js:408-432 | writing what was read stores exactly what was read |
| WorkoutLog.ReadIdempotent | script_v3.js:408-421 | reading twice equals reading once |
| WorkoutLog.DayIndex | script_v3.js:759 | the index of the first record for the date, or -1 when there is none |
| WorkoutLog.EntryIndex | script_v3.js:774 | the index of the first entry for the machine, or -1 when there is none |
| WorkoutLog.MergeEntry | script_v3.js:795-797 | "Add These Sets" keeps the entry's machine, appends the new sets after the old ones, and lets non-empty new notes win |
| WorkoutLog.LogAppendsWhenNoConflict | script_v3.js:758-816 | a first entry for the machine that day is appended to the day's record, which is created at the end of the list when missing |
| WorkoutLog.LogResolvesConflict | script_v3.js:775-806 | with an entry already there, Replace overwrites it in place, Merge merges into it, and Cancel saves nothing |
| WorkoutLog.LogKeepsOneEntryPerMachine | script_v3.js:758-816 | logging keeps at most one entry per machine per day |
| WorkoutLog.LogKeepsDaysWellFormed | script_v3.js:758-816 | logging keeps one record per date and no empty record |
| WorkoutLog.LogKeepsSetsGood | script_v3.js:742-816 | logging valid sets keeps every stored set valid |
| WorkoutLog.EditReplacesOneEntry | script_v3.js:826-863 | an edit is refused exactly when the date or the index is unknown; otherwise only that entry changes and every date stays |
| WorkoutLog.EditSameMachineKeepsOneEntryPerMachine | script_v3.js:857-863 | an edit that keeps the entry's machine keeps one entry per machine per day |
| WorkoutLog.EditKeepsDaysWellFormed | script_v3.js:838-863 | an edit with valid sets keeps dates unique, records non-empty and every set valid |
| WorkoutLog.EditCanDuplicateMachine | script_v3.js:857-863 | counterexample: editing the second of two entries to the first entry's machine gives two entries for one machine on one day |
| WorkoutLog.SpliceOne | script_v3.js:897 | `splice(index, 1)` removes exactly the element at an index in range, counts a negative index from the end (clamped to the start), and leaves the list alone past the end |
| WorkoutLog.DeleteRemovesOneEntry | script_v3.js:893-901 | deleting removes exactly the chosen entry, keeps the others in order, and drops the record exactly when it becomes empty |
| WorkoutLog.DeleteUnknownDateSavesNothing | script_v3.js:895-896 | an unknown date changes nothing |
| WorkoutLog.DeleteKeepsInvariants | script_v3.js:893-901 | deleting an entry keeps every log invariant |
| WorkoutLog.WithoutMachine | script_v3.js:396 | the kept entries are exactly those for other machines |
| WorkoutLog.WithoutMachineSingle | script_v3.js:396 | one entry is kept exactly when it is for another machine |
| WorkoutLog.WithoutMachineAppend | script_v3.js:396 | the filter distributes over concatenation, so with the previous row it keeps exactly the other machines' entries, in order |
| WorkoutLog.PruneMachine | script_v3.js:394-398 | the `map` + `filter` loop computes the cascade |
| WorkoutLog.PrunedSingle | script_v3.js:394-398 | one record is kept, with the machine's entries removed, exactly when some entry for another machine remains |
| WorkoutLog.PrunedAppend | script_v3.js:394-398 | the cascade distributes over concatenation, so with the previous row it is the record-by-record filter, in order |
| WorkoutLog.PrunedHasNoMachine | script_v3.js:394-398 | after the cascade, no entry names the machine and no record is empty |
| WorkoutLog.PrunedOnlyKeeps | script_v3.js:394-398 | every surviving entry was in a record of the same date before |
| WorkoutLog.PrunedKeepsOthers | script_v3.js:394-398 | every entry for another machine survives, under its date |
| WorkoutLog.PrunedKeepsInvariants | script_v3.js:394-398 | the cascade keeps one entry per machine per day, unique dates and valid sets, and invents no date |
| WorkoutLog.PruneUnusedMachine | script_v3.js:394-398 | deleting a machine with no entries leaves a log without empty records unchanged |
| Statistics.Open | script_v3.js:945-952 | the per-entry step always opens the day's chart bucket |
| Statistics.AddSet | script_v3.js:954-971 | the per-set step appends the set to the PR candidates and keeps the name, image, count, last date and chart days |
| Statistics.AddSets | script_v3.js:954-972 | the per-entry set loop appends every set, dated, to the PR candidates |
| Statistics.FoldFromAppend | script_v3.js:933-974 | folding a concatenation equals folding one part after the other |
| Statistics.ComputeStatistics | script_v3.js:932-974 | the nested `forEach` loops compute the fold over every entry of every record |
| Statistics.TallyWorkout | script_v3.js:934-973 | the inner loop folds one record's entries |
| Statistics.TallyEntry | script_v3.js:935-972 | one entry's step: the bucket is seeded on first sight, then counted, dated and filled |
| Statistics.TallySets | script_v3.js:954-972 | the set loop equals the functional per-set fold |
| Statistics.FoldBuckets | script_v3.js:933-945 | a machine has a bucket exactly when it has an entry, and its bucket depends only on its own entries, seeded from the first one |
| Statistics.AddSetConsistent | script_v3.js:954-971 | a set keeps the totals, the heaviest set and the per-day figures in agreement with the candidates |
| Statistics.OpenConsistent | script_v3.js:945-952 | opening a day keeps the bucket consistent |
| Statistics.RunConsistent | script_v3.js:934-972 | every bucket's totals equal the sums over its sets; max weight is the heaviest set with the best reps at that weight; each chart day's volume and set count are that day's sums |
| Statistics.RunRecords | script_v3.js:934-972 | a bucket keeps the first entry's name and image, counts its entries, lists all its sets dated, and has one chart day per date |
| Statistics.RunLastDate | script_v3.js:946-949 | the last date is at least the epoch and every entry's date, and is the epoch or one of those dates |
| Statistics.AggregateDescribes | script_v3.js:932-974 | a machine has a bucket exactly when it has an entry; the bucket is consistent (totals, heaviest set and per-day figures are the sums over its sets), has the first entry's name and image, counts the entries, lists every set dated, has one chart day per entry date, and its last date is the epoch or the latest entry date, never before the epoch |
| Statistics.DailySums | script_v3.js:950-958 | in a consistent bucket, the day buckets' volumes add up to the total volume and their set counts to the number of sets |
| Ranking.SortPrsPermutes | script_v3.js:983 | the PR sort is a permutation of the candidates |
| Ranking.SortPrsRanked | script_v3.js:983 | the sorted list has later dates first and, on one date, larger weight × reps first |
| Ranking.SortPrsStable | script_v3.js:983 | candidates the comparator ties keep their relative order, as the language's stable sort does |
| Ranking.DedupKeys | script_v3.js:984-993 | deduplication keeps every (weight, reps) key |
| Ranking.DedupDistinct | script_v3.js:984-993 | deduplication keeps one element per key |
| Ranking.DedupKeepsFirst | script_v3.js:984-993 | each kept element is the first in the sorted list with its key |
| Ranking.TopThreeSize | script_v3.js:984-993 | the list holds three records, or the number of distinct keys when that is smaller |
| Ranking.SelectTopPrs | script_v3.js:984-993 | the loop with its `Set` of seen keys and its early `break` computes the first three distinct records |
| Ranking.TopPrsExample | script_v3.js:983-994 | (100×5)@2, (100×5)@1, (80×10)@3 rank as (80×10)@3 then (100×5)@2 |
| Ranking.AscendingDatesSpec | script_v3.js:1012 | the chart labels hold each bucket date exactly once, strictly ascending |
| Ranking.ChartSeries | script_v3.js:1012-1016 | a chart is drawn exactly when there are two or more days; its dates ascend and cover the bucket's days, each with that day's volume |
| Ranking.ChartSumsToTotal | script_v3.js:1012-1016 | the chart's points add up to the bucket's total volume, and its days' set counts to the number of sets |
| Ranking.ChartPointsAreDayVolumes | script_v3.js:1012-1016 | in a consistent bucket, each chart point is the total volume of that day's sets |
| Store.GymStore.SaveMachines | script_v3.js:299-305 | the stored registry is the list with images normalised; the log is untouched |
| Store.GymStore.SaveWorkouts | script_v3.js:423-432 | the stored log is the write form of the list; the registry is untouched |
| Store.GymStore.AddMachine | script_v3.js:347-375 | the outcome is the one `NewMachine` decides on the machines as read; on success exactly that machine is appended to storage; the log is untouched; validity is kept when the id is unused |
| Store.GymStore.DeleteMachine | script_v3.js:388-405 | the machine is gone from the registry, no stored entry names it, the log is the cascade of what was read, and validity is kept |
| Store.GymStore.LogExercise | script_v3.js:725-819 | each rejection happens exactly when its check fails, in the program's order; otherwise the outcome says whether the entry was logged, replaced, merged or cancelled, storage holds the result, and validity is kept |
| Store.GymStore.Record | script_v3.js:758-816 | the outcome is Logged exactly when the day has no entry for the machine; otherwise it follows the owner's choice; Cancel leaves storage unchanged; validity is kept |
| Store.GymStore.SaveEditedExercise | script_v3.js:822-873 | the three rejections in the program's order (entry not found, no valid set, no machine); on success storage holds the edit; dates, records and sets stay valid; one entry per machine per day is kept when the machine is unchanged |
| Store.GymStore.DeleteExercise | script_v3.js:893-907 | storage is rewritten exactly when the date has a record, and then holds that record with the entry at the index spliced out (none when the index is at or past the end) and the record dropped if left empty; otherwise storage is unchanged; validity is kept |
| Store.PlaceEntry | script_v3.js:758-816 | the find-or-create-then-append/replace/merge steps compute the log result, and report a conflict exactly when the day has an entry for the machine |
| Store.SpliceEntry | script_v3.js:893-901 | the splice steps compute the deletion result |
| Store.AddedMachineStored | script_v3.js:368-369 | writing back the registry read plus an accepted machine stores exactly that list |
| Store.LogKeepsValid | script_v3.js:758-816 | writing back a logged result keeps every log invariant |
| Store.EditKeepsValid | script_v3.js:857-863 | writing back an edit keeps dates, records and sets valid, and keeps one entry per machine per day when the machine is unchanged |
| Store.DeleteKeepsValid | script_v3.js:893-901 | writing back a deletion keeps every log invariant |

## Left out

- The DOM, modals, rendering, navigation, the weekly view, the edit form's population
  (`editExercise`) and `confirm…` dialogs: presentation only. The owner's answer in the conflict
  modal is a parameter `choice`, applied at once. In the program it arrives later, through a
  callback.
- `localStorage` itself, its read and write failures, corrupt JSON, storage size, export,
  import and "clear all data": I/O. The stored documents are the fields of `GymStore`.
- `isValidHttpUrl`: it calls the browser's URL parser, so it is the parameter `isHttpUrl`.
  `crypto.randomUUID()` is the parameter `freshId`. The clock's UTC date is the parameter `today`.
- `escapeHtml` on a non-string argument (`String(unsafe)`): the model is typed, so its
  argument is always a string.
- The first `handleLogExercise` (script_v3.js:462-548): the second declaration of the same
  name replaces it when the script loads.
- `toLowerCase` outside ASCII: `Strings.LowerAscii` folds only `A`–`Z`.
- Floating point: weights, volumes and totals are exact reals. Rounding, `NaN` and `-0` are
  not modelled. A row that `parseFloat`/`parseInt` cannot read is `None`.
- Dates: ISO date strings are day numbers, where 0 is 1970-01-01. Comparing them equals
  comparing the strings' `new Date` values.
- The PR key `` `${weight}-${reps}` `` is the pair (weight, reps). Two finite numbers print the
  same exactly when they are equal, so the two keys agree.
- The order of the statistics cards, the stat card's own image (`formatImgurUrl` on the
  bucket image), Chart.js and `toFixed`: presentation only.
- Ranking.ChartSeries: a specification (ghost) function. The labels are the bucket's days in
  ascending order, defined by repeatedly taking the earliest day, not by the library sort.
- Ranking.SortPrs: an insertion sort. `SortPrsPermutes`, `SortPrsRanked` and `SortPrsStable`
  together fix the result of any stable sort with this comparator.
- Statistics buckets: values rebuilt by the fold. The program mutates objects in a
  dictionary instead, and nothing else holds a reference to them.
- Registry.RemoveMachine: its own contract states only that the list does not grow. Which
  machines remain is stated by `RemoveMachineSingle`, `RemoveMachineAppend`,
  `RemoveMachineMembers`, `RemoveMachineKeepsOthers` and `RemoveMachineUnused`, which keeps
  the facts out of every caller's proof.
- Store.GymStore.AddMachine: keeps validity only when `freshId` is unused. The uniqueness of
  random UUIDs is not modelled.
- Store.GymStore.SaveEditedExercise: keeps one entry per machine per day only when the machine
  is unchanged. The program does not check the day for a second entry of the new machine
  (see `WorkoutLog.EditCanDuplicateMachine`).
