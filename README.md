# Batch image-edit gallery: a Dafny model of its job logic

The gallery keeps an ordered list of uploaded images. Each image is a work
item that moves `idle → processing → completed | error` when an external
image-editing call succeeds or fails. The model covers the batch logic of
`App.tsx`:

- adding one item per selected file;
- composing the effective prompt from the free text and the selected filter preset;
- processing one item, and the Process All sweep;
- removing one item and clearing the gallery;
- picking and naming the entries of the ZIP export;
- swapping the default prompt when the interface language changes.

Modules, leaves first:

- `Wrappers`: `Option`.
- `Seqs`: `filter`, the index `find` stops at, and duplicate-freedom.
- `Text`: JavaScript `trim` (ECMAScript whitespace and line terminators) and `split`/`join` on one character.
- `Prompt`: presets, the combined prompt, the two default prompts and the language-switch rule.
- `Items`: the item record, its per-item steps, and the list transformations, which map or filter by id. This module also holds the consistency invariants.
- `Batch`: the sweep, as the list threaded through one attempt per pending id.
- `Export`: selection, extension, entry names, a `Zip` object updated in place, and the `BuildArchive` loop.
- `Gallery`: class `App`, the component state. Its methods are proved against the functions above, and its `Valid()` invariant (consistent items, unique ids) is kept by every method.

The external calls are modelled as inputs. An edit's result is an
`Outcome`, either `Success(url)` or `Failure(message)`; a missing message
is the empty string. The sweep's outcomes are `nat -> Outcome`, indexed by
position in the sweep. The export's fetches are `string -> Fetched`.
`URL.revokeObjectURL` is modelled as a log, `revoked`. Each upload arrives
as an `Upload`, carrying its `Math.random` id and its `createObjectURL` URL.

Behaviour of the code that the model keeps as written:

- The Retry button calls `processImage(id)` without a prompt, so a retry reuses the item's stored prompt. Only a sweep sends the current selections.
- A sweep whose combined prompt is empty sends each item's own stored prompt (`currentPrompt || item.prompt`).
- A failure, or a re-run, keeps an earlier `processedUrl` (`FailedRerunKeepsResult`). So "has a result" does not imply `completed`.
- The success step does not clear `error`; only the processing step does. One uninterrupted attempt therefore keeps "a message only on failed items" (`ProcessOneKeepsStrict`). Two overlapping attempts on one id can leave a completed item with a stale message (`OverlapLeavesStaleError`).
- With an empty fragment, the combined prompt is the trimmed free text (`trim(global + " ")`), not the free text unchanged.
- Clear Gallery revokes no URL. `removeImage` revokes only the first match's `originalUrl`, and never a `processedUrl`.
- Updates apply to every item with the id. Without unique ids, a completed item that shares its id with a pending one is processed by a sweep too. `SweepSettles` holds without uniqueness; `SweepEffect` assumes it.

## Model

The handlers themselves are functions without contracts of their own, each specified by the lemmas in the table: `Items.ProcessOne` (`processImage`, App.tsx:462-485) by `Items.ProcessOneEffect` and `Items.ProcessOneUnique`; `Batch.Run` and `Batch.Sweep` (`processAll`, App.tsx:487-500) by `Batch.RunUnique`, `Batch.RunUntouched` and `Batch.SweepEffect`; `Items.RemoveById` (`removeImage`, App.tsx:533) by `Items.RemoveUnique` and `Items.RemoveDropsId`; `Export.Zipped` and `Export.ExportOf` (`handleBatchDownload`, App.tsx:502-515) by `Export.ZippedFails`, `Export.ZippedEntries` and `Export.ExportCases`; `Prompt.CombinedPrompt` (App.tsx:449-450) by `Prompt.CombinedWithoutFragment` and `Prompt.Compose`.

| member | source | states |
|---|---|---|
| `Seqs.Filter` | App.tsx:488 | the result holds exactly the elements satisfying the predicate, all taken from the input |
| `Seqs.FirstIndex` | App.tsx:463 | the first index satisfying the predicate, or the length when none does |
| `Text.TrimStart` | App.tsx:450 | the result is a suffix of the input, only whitespace was removed, and it does not start with whitespace |
| `Text.TrimEnd` | App.tsx:450 | the result is a prefix of the input, only whitespace was removed, and it does not end with whitespace |
| `Text.Trim` | App.tsx:450 | the result has no whitespace at either end and is the input itself when the input is already trimmed |
| `Text.TrimFactor` | App.tsx:450 | the trimmed text is the input with only whitespace removed from its start and only whitespace removed from its end: a factor of the input, nothing else changed |
| `Text.Split` | App.tsx:512 | at least one piece, none containing the separator |
| `Text.JoinSplit` | App.tsx:512 | joining the pieces of a split gives back the string |
| `Text.SplitJoin` | App.tsx:512 | splitting a join of separator-free pieces gives back the pieces |
| `Prompt.FindPreset` | App.tsx:449 | no result exactly when no preset has the id, otherwise the first preset with it |
| `Prompt.Compose` | App.tsx:450 | the combined prompt is always trimmed |
| `Prompt.ComposeEmptyFragment` | App.tsx:450 | with an empty fragment the combined prompt is the trimmed free text |
| `Prompt.ComposeEmptyGlobal` | App.tsx:450 | with empty free text the combined prompt is the trimmed fragment |
| `Prompt.ComposeTrimmedParts` | App.tsx:450 | two trimmed non-empty parts are joined by exactly one space |
| `Prompt.CombinedWithoutFragment` | App.tsx:449-450 | a missing preset, or one with an empty fragment, gives the trimmed free text |
| `Prompt.PromptAfterSwitch` | App.tsx:438-443 | the prompt is either kept or becomes the new language's default |
| `Prompt.SwitchFollowsDefault` | App.tsx:438-443 | a prompt equal to the old language's default becomes the new language's default |
| `Prompt.SwitchKeepsOwnText` | App.tsx:438-443 | any other prompt is left unchanged |
| `Prompt.SwitchTwice` | App.tsx:438-443 | toggling away and back restores the prompt if and only if it was not the other language's default |
| `Items.AddFiles` | App.tsx:447-459 | no file list changes nothing; otherwise one idle item per file, with no result, no error and the given prompt, is appended after the unchanged existing items |
| `Items.AddKeepsUniqueIds` | App.tsx:452-457 | fresh, distinct upload ids keep ids unique |
| `Items.PendingAfterAdd` | App.tsx:488 | new uploads join the end of the pending selection |
| `Items.FindById` | App.tsx:463 | no result exactly when no item has the id, otherwise the first item with it |
| `Items.FindUnique` | App.tsx:463 | with unique ids the item found is the one carrying the id |
| `Items.MarkProcessing` | App.tsx:467-469 | each item with the id gets status processing, no error and the target prompt, and keeps its id, original URL and processed URL; every other item is unchanged |
| `Items.ApplyOutcome` | App.tsx:477-483 | every item with the id keeps its id, original URL and prompt; on success it becomes completed with the new URL and keeps its error field; on failure it becomes error with the message, or "API Error" when the message is empty, and keeps its processed URL; every other item is unchanged |
| `Items.ProcessOneEffect` | App.tsx:462-485 | an unknown id changes nothing. Otherwise only items with that id change. Each ends completed with the new URL and no error, or error with the message or "API Error" and its old result URL kept. Each gets the target prompt: the explicit prompt if non-empty, else the first match's stored prompt |
| `Items.ProcessOneUnique` | App.tsx:462-485 | with unique ids, one attempt changes exactly the item carrying the id, to its processing step followed by the outcome |
| `Items.ProcessOneSettles` | App.tsx:477-483 | items with the id end completed or error, other items are untouched |
| `Items.ProcessOneKeepsIds` | App.tsx:467-483 | an attempt never changes any id or the length of the list |
| `Items.RemoveUnique` | App.tsx:529-534 | with unique ids, removal gives the list without that one item, in order, and revokes its original URL when it is non-empty |
| `Items.RemoveDropsId` | App.tsx:533 | no item with the id remains and every item with another id stays |
| `Items.RemoveUndoesAdd` | App.tsx:533 | removing a just-added upload by its fresh id restores the previous list |
| `Items.LateOutcomeDropped` | App.tsx:477-483 | an outcome arriving after its item was removed leaves the list as it is |
| `Items.RemoveKeepsUniqueIds` | App.tsx:533 | removal keeps ids unique |
| `Items.FilterKeepsUniqueIds` | App.tsx:488 | any filtered selection of a list with unique ids has unique ids |
| `Items.StepsKeepConsistent` | App.tsx:447-483 | adding, the processing step, an outcome and removal each keep every item consistent, in any order |
| `Items.ProcessOneKeepsStrict` | App.tsx:466-483 | an uninterrupted attempt keeps a message only on failed items |
| `Items.OverlapLeavesStaleError` | App.tsx:477-479 | two overlapping attempts (failure, then success) leave a completed item carrying an error message |
| `Items.FailedRerunKeepsResult` | App.tsx:481-483 | a failed re-run of a completed item keeps its earlier result URL |
| `Batch.RunKeepsIds` | App.tsx:496-498 | the sweep loop never changes ids or length |
| `Batch.RunUntouched` | App.tsx:496-498 | an item whose id the loop does not hold is left exactly as it was |
| `Batch.RunSettles` | App.tsx:496-498 | an item whose id the loop holds ends completed or error |
| `Batch.RunUnique` | App.tsx:496-498 | with unique ids, the item holding the k-th id ends as its processing step followed by the k-th outcome |
| `Batch.SweepIdsNoDup` | App.tsx:494 | with unique ids the fixed id list has no duplicates |
| `Batch.SweepEffect` | App.tsx:487-500 | with unique ids, each idle or error item is processed once with the sweep's prompt (or its own when that is empty) and the outcome numbered by the pending items before it; completed and processing items are unchanged |
| `Batch.SweepNothingPending` | App.tsx:489 | with nothing idle or failed the sweep changes nothing |
| `Batch.SweepSettles` | App.tsx:488-498 | without assuming unique ids: ids are kept, items whose id is not selected are unchanged, every idle or error item ends completed or error |
| `Batch.RunKeepsInvariants` | App.tsx:496-498 | the sweep keeps all items consistent, and keeps the strict invariant |
| `Export.Extension` | App.tsx:512 | the extension is never empty and contains no slash |
| `Export.ExtensionOfMime` | App.tsx:512 | a `type/subtype` content type gives its subtype |
| `Export.ExtensionFallback` | App.tsx:512 | a content type without a slash, or ending in its only slash, gives "png" |
| `Export.ExtensionSecondSegment` | App.tsx:512 | every content type with a slash gives its second `/`-segment, or "png" when that segment is empty, whatever segments follow |
| `Export.EntryNameInjective` | App.tsx:513 | for dot-free ids, an entry name determines its id and extension |
| `Export.Put` | App.tsx:513 | the entry is in the archive, and a new name is appended at the end |
| `Export.PutReplaces` | App.tsx:513 | a name already present has its first entry replaced where it stands, and every other entry is kept in order |
| `Export.ZippedFails` | App.tsx:509-515 | no archive exactly when some selected result fails to fetch |
| `Export.ZippedEntries` | App.tsx:509-515 | with distinct dot-free ids and every fetch succeeding, one entry per selected item in order, named from its id and content type |
| `Export.ExportCases` | App.tsx:502-527 | nothing is exported exactly when no item is completed with a result URL; export fails exactly when a selected fetch fails; otherwise the archive holds the zipped selection |
| `Export.ExportArchive` | App.tsx:503-515 | for a gallery with unique dot-free ids whose results all fetch, the archive has one correctly named entry per completed item, in gallery order |
| `Export.BuildArchive` | App.tsx:508-515 | the loop filling the zip gives exactly the zipped selection, or nothing at the first failed fetch |
| `Export.Zip.constructor` | App.tsx:508 | a new zip has no files |
| `Export.Zip.File` | App.tsx:513 | adding a file replaces an entry of the same name in place or appends it |
| `Gallery.App.constructor` | App.tsx:416-423 | Chinese interface, its default prompt, preset "none", ratio "1:1", empty gallery, both flags down |
| `Gallery.App.EditPrompt` | App.tsx:677 | the free text becomes the typed text |
| `Gallery.App.SelectFilter` | App.tsx:706 | the selected preset id changes |
| `Gallery.App.SelectRatio` | App.tsx:727 | the selected aspect ratio changes |
| `Gallery.App.ToggleLanguage` | App.tsx:438-443 | the language flips. The old language's default prompt becomes the new one's default; any other prompt is kept |
| `Gallery.App.HandleFiles` | App.tsx:447-459 | the list becomes the old list plus the new items with the current combined prompt, keeping the invariant |
| `Gallery.App.BeginProcessing` | App.tsx:462-469 | an unknown id gives no request and no change. Otherwise it returns the original URL, target prompt and ratio, and the items with the id are marked processing |
| `Gallery.App.FinishProcessing` | App.tsx:471-484 | the outcome is applied by id to the list as it is when the call resolves |
| `Gallery.App.ProcessImage` | App.tsx:462-485 | the list becomes one uninterrupted attempt on the old list |
| `Gallery.App.ProcessAll` | App.tsx:487-500 | the list becomes the sweep of the old list with the prompt computed once. With nothing pending, nothing changes, flag included; otherwise the flag is up throughout the loop and down after it. It is called only when `CanProcessAll` holds (no sweep running and a non-empty gallery, the button guard at App.tsx:650-651), and afterwards the button is enabled again |
| `Gallery.App.HandleBatchDownload` | App.tsx:502-527 | the result is the export of the current list; the zipping flag is only raised around a non-empty export and is down afterwards |
| `Gallery.App.RemoveImage` | App.tsx:529-534 | the list loses exactly the items with the id, and the first match's non-empty original URL is logged as revoked |
| `Gallery.App.ClearGallery` | App.tsx:753 | the list becomes empty and nothing is revoked |

## Left out

- Rendering: JSX, styling, icons, the lightbox, drag and drop, and the `ImageCard` markup (including its per-item `.png` download link) are presentation.
- The comparison slider's position maths and the brightness, contrast and saturation preview use DOM geometry and floating point, and change no stored data.
- `editImage`, `fileToBase64`, `fetch`/`blob`, `URL.createObjectURL`, `URL.revokeObjectURL` and JSZip's `generateAsync` are foreign calls. Their results are inputs, and revocation is a log. A failure of `generateAsync` and the download link itself are not modelled.
- `./types` and `./services/geminiService` are not part of this model. The item fields are taken from their use in `App.tsx`.
- Asynchronous timing: React's batching of state updates, and the staleness of `imagesRef` before the effect at App.tsx:433-436 runs, are not modelled. The sweep runs each attempt's two halves back to back. `BeginProcessing` and `FinishProcessing` are separate methods, so a removal between them can be stated, but no scheduler interleaves them.
- The preset, aspect-ratio and translation catalogues are opaque. A preset is its id and fragment. Of the translations, only the two default prompts are kept.
- Gallery.App.HandleFiles: requires the new ids to be distinct and unused. The source draws them from `Math.random` without checking.
- Export.BuildArchive: fetches one result at a time and adds entries in selection order. The source starts all fetches at once, so its zip receives entries in completion order. It also rejects on the first failure, possibly after other entries were added to the discarded zip. With distinct names, the archive holds the same files either way.
- Export.EntryNameInjective: assumes dot-free ids. Base-36 `Math.random` ids have no dot, but the model does not derive this.
