/**
 * The component's state and its handlers: the item list behind `setImages`,
 * the prompt and preset selections, the sweep and zip flags, and a log of the
 * object URLs handed to `URL.revokeObjectURL`.
 */
module Gallery {

  import opened Wrappers
  import opened Seqs
  import opened Prompt
  import opened Items
  import opened Batch
  import opened Export

  /** What one processing attempt hands the external calls: the image to fetch, the prompt and the aspect ratio. */
  datatype Request = Request(sourceUrl: string, prompt: string, aspectRatio: string)

  const InitialFilterId: string := "none"
  const InitialRatio: string := "1:1"

  class App {
    const presets: seq<Preset>
    var lang: Language
    var globalPrompt: string
    var selectedFilterId: string
    var selectedRatio: string
    var images: seq<Item>
    var isProcessingAll: bool
    var isZipping: bool
    var revoked: seq<string>

    /** Every item is consistent, and ids are unique (the assumption standing in for `Math.random`). */
    ghost predicate Valid()
      reads this
    {
      AllConsistent(images) && UniqueIds(images)
    }

    constructor (presets: seq<Preset>)
      ensures Valid()
      ensures this.presets == presets && lang == Zh && globalPrompt == DefaultPrompt(Zh)
      ensures selectedFilterId == InitialFilterId && selectedRatio == InitialRatio
      ensures images == [] && !isProcessingAll && !isZipping && revoked == []
    {
      this.presets := presets;
      lang := Zh;
      globalPrompt := DefaultPrompt(Zh);
      selectedFilterId := InitialFilterId;
      selectedRatio := InitialRatio;
      images := [];
      isProcessingAll := false;
      isZipping := false;
      revoked := [];
    }

    /** The combined prompt for the current selections. */
    function CurrentPrompt(): string
      reads this
    {
      CombinedPrompt(globalPrompt, presets, selectedFilterId)
    }

    /** The Process All button is enabled only outside a sweep and with a non-empty gallery. */
    predicate CanProcessAll()
      reads this
    {
      !isProcessingAll && |images| > 0
    }

    /** The prompt text area. */
    method EditPrompt(text: string)
      modifies this`globalPrompt
      ensures globalPrompt == text
    {
      globalPrompt := text;
    }

    /** A preset button. */
    method SelectFilter(id: string)
      modifies this`selectedFilterId
      ensures selectedFilterId == id
    {
      selectedFilterId := id;
    }

    /** An aspect-ratio button. */
    method SelectRatio(ratio: string)
      modifies this`selectedRatio
      ensures selectedRatio == ratio
    {
      selectedRatio := ratio;
    }

    /** The language toggle followed by the effect that swaps the default prompt. */
    method ToggleLanguage()
      modifies this`lang, this`globalPrompt
      ensures lang == Other(old(lang))
      ensures globalPrompt == PromptAfterSwitch(old(globalPrompt), lang)
      ensures old(globalPrompt) == DefaultPrompt(old(lang)) ==> globalPrompt == DefaultPrompt(lang)
      ensures old(globalPrompt) != DefaultPrompt(old(lang)) ==> globalPrompt == old(globalPrompt)
    {
      lang := Other(lang);
      assert Other(lang) == old(lang);
      globalPrompt := PromptAfterSwitch(globalPrompt, lang);
    }

    /** `handleFiles`: the uploads get fresh ids, so the invariant is kept. */
    method HandleFiles(files: Option<seq<Upload>>)
      requires Valid()
      requires files.Some? ==> FreshUploads(images, files.value)
      modifies this`images
      ensures Valid()
      ensures images == AddFiles(old(images), files, CurrentPrompt())
    {
      if files.None? {
        return;
      }
      var prompt := CurrentPrompt();
      StepsKeepConsistent(images, files, "", prompt, Failure(""));
      AddKeepsUniqueIds(images, files.value, prompt);
      images := AddFiles(images, files, prompt);
    }

    /**
     * The synchronous first half of `processImage`: nothing for an unknown
     * id; otherwise every item with the id is marked processing and the
     * request for the external edit is returned.
     */
    method BeginProcessing(id: string, currentPrompt: string) returns (req: Option<Request>)
      requires Valid()
      modifies this`images
      ensures Valid()
      ensures FindById(old(images), id).None? ==> req.None? && images == old(images)
      ensures FindById(old(images), id).Some? ==>
                var it := FindById(old(images), id).value;
                var target := TargetPrompt(currentPrompt, it.prompt);
                && req == Some(Request(it.originalUrl, target, selectedRatio))
                && images == MarkProcessing(old(images), id, target)
    {
      match FindById(images, id)
      case None =>
        req := None;
      case Some(it) =>
        var target := TargetPrompt(currentPrompt, it.prompt);
        req := Some(Request(it.originalUrl, target, selectedRatio));
        StepsKeepConsistent(images, None, id, target, Failure(""));
        images := MarkProcessing(images, id, target);
    }

    /** The continuation of `processImage` once the edit has resolved: applied by id, so dropped after a removal. */
    method FinishProcessing(id: string, outcome: Outcome)
      requires Valid()
      modifies this`images
      ensures Valid()
      ensures images == ApplyOutcome(old(images), id, outcome)
    {
      StepsKeepConsistent(images, None, id, "", outcome);
      images := ApplyOutcome(images, id, outcome);
    }

    /** `processImage(id, currentPrompt)` with nothing happening between its two halves. */
    method ProcessImage(id: string, currentPrompt: string, outcome: Outcome)
      requires Valid()
      modifies this`images
      ensures Valid()
      ensures images == ProcessOne(old(images), id, currentPrompt, outcome)
    {
      var req := BeginProcessing(id, currentPrompt);
      if req.Some? {
        FinishProcessing(id, outcome);
      }
    }

    /**
     * `processAll`: nothing when no item is idle or failed; otherwise the flag
     * is raised, the pending ids are fixed, each is processed in turn with the
     * prompt computed once, and the flag is lowered.
     */
    method ProcessAll(outcomes: nat -> Outcome)
      requires Valid() && CanProcessAll()
      modifies this`images, this`isProcessingAll
      ensures Valid()
      ensures images == Sweep(old(images), CurrentPrompt(), outcomes)
      ensures Pending(old(images)) == [] ==> images == old(images) && isProcessingAll == old(isProcessingAll)
      ensures Pending(old(images)) != [] ==> !isProcessingAll
      ensures CanProcessAll()
    {
      var pending := Pending(images);
      if pending == [] {
        return;
      }
      isProcessingAll := true;
      var prompt := CurrentPrompt();
      var pendingIds := Ids(pending);
      ghost var start := images;
      for i := 0 to |pendingIds|
        invariant Valid()
        invariant images == Run(start, pendingIds[..i], prompt, outcomes)
        invariant isProcessingAll
      {
        RunStep(start, pendingIds, prompt, outcomes, i);
        ProcessImage(pendingIds[i], prompt, outcomes(i));
      }
      assert pendingIds[..|pendingIds|] == pendingIds;
      assert pendingIds == SweepIds(start);
      SweepSettles(start, prompt, outcomes);
      isProcessingAll := false;
    }

    /** `handleBatchDownload`: the zipping flag is raised only around a non-empty export. */
    method HandleBatchDownload(fetch: string -> Fetched) returns (r: ExportResult)
      modifies this`isZipping
      ensures r == ExportOf(images, fetch)
      ensures !isZipping || (r.NothingToExport? && isZipping == old(isZipping))
    {
      var completed := Selection(images);
      if completed == [] {
        return NothingToExport;
      }
      isZipping := true;
      var files := BuildArchive(completed, fetch);
      r := if files.None? then ExportFailed else Archive(files.value);
      isZipping := false;
    }

    /** `removeImage`: drops every item with the id and revokes the first match's original URL. */
    method RemoveImage(id: string)
      requires Valid()
      modifies this`images, this`revoked
      ensures Valid()
      ensures images == RemoveById(old(images), id)
      ensures revoked == old(revoked) + RevokedOnRemove(old(images), id)
    {
      revoked := revoked + RevokedOnRemove(images, id);
      StepsKeepConsistent(images, None, id, "", Failure(""));
      RemoveKeepsUniqueIds(images, id);
      images := RemoveById(images, id);
    }

    /** The Clear Gallery button: `setImages([])`, revoking nothing. */
    method ClearGallery()
      modifies this`images
      ensures Valid()
      ensures images == []
    {
      images := [];
    }
  }
}
