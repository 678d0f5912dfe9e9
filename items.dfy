/**
 * The work items of the gallery and the pure list transformations the
 * component applies to them: adding uploads, the processing step, applying
 * an outcome by id, removal, and the selection a sweep takes.
 */
module Items {

  import opened Wrappers
  import opened Seqs

  datatype Status = Idle | Processing | Completed | Error

  /** One uploaded image. `error` and `processedUrl` are `undefined` when `None`. */
  datatype Item = Item(
    id: string,
    originalUrl: string,
    processedUrl: Option<string>,
    status: Status,
    prompt: string,
    error: Option<string>)

  /** One selected file, with the id `Math.random` gave it and the object URL `URL.createObjectURL` gave it. */
  datatype Upload = Upload(id: string, objectUrl: string)

  /** The result of one external edit: a new image URL, or the thrown error's message ("" when it has none). */
  datatype Outcome = Success(url: string) | Failure(message: string)

  const FallbackError: string := "API Error"

  function Ids(items: seq<Item>): (ids: seq<string>)
    ensures |ids| == |items|
    ensures forall k :: 0 <= k < |items| ==> ids[k] == items[k].id
  {
    seq(|items|, k requires 0 <= k < |items| => items[k].id)
  }

  /** No two items share an id: what `Math.random` ids are taken to give. */
  predicate UniqueIds(items: seq<Item>)
  {
    NoDup(Ids(items))
  }

  // ---------------------------------------------------------------- adding

  function NewItem(u: Upload, prompt: string): Item
  {
    Item(u.id, u.objectUrl, None, Idle, prompt, None)
  }

  function NewItems(files: seq<Upload>, prompt: string): (r: seq<Item>)
    ensures |r| == |files|
  {
    seq(|files|, k requires 0 <= k < |files| => NewItem(files[k], prompt))
  }

  /**
   * `handleFiles`: no file list changes nothing; otherwise one idle item per
   * file is appended, carrying the combined prompt, and the existing items
   * keep their values and order.
   */
  function AddFiles(items: seq<Item>, files: Option<seq<Upload>>, prompt: string): (r: seq<Item>)
    ensures files.None? ==> r == items
    ensures files.Some? ==> |r| == |items| + |files.value| && r[..|items|] == items
    ensures files.Some? ==> forall k :: 0 <= k < |files.value| ==>
              r[|items| + k] == Item(files.value[k].id, files.value[k].objectUrl, None, Idle, prompt, None)
  {
    match files
    case None => items
    case Some(fs) => items + NewItems(fs, prompt)
  }

  /** The uploads' ids are distinct and none is already in use. */
  predicate FreshUploads(items: seq<Item>, files: seq<Upload>)
  {
    && (forall i, j :: 0 <= i < |files| && 0 <= j < |files| && files[i].id == files[j].id ==> i == j)
    && (forall i, j :: 0 <= i < |files| && 0 <= j < |items| ==> files[i].id != items[j].id)
  }

  lemma AddKeepsUniqueIds(items: seq<Item>, files: seq<Upload>, prompt: string)
    requires UniqueIds(items) && FreshUploads(items, files)
    ensures UniqueIds(AddFiles(items, Some(files), prompt))
  {
    var r := AddFiles(items, Some(files), prompt);
    forall i, j | 0 <= i < |r| && 0 <= j < |r| && Ids(r)[i] == Ids(r)[j]
      ensures i == j
    {
      if i < |items| && j < |items| {
        assert Ids(items)[i] == Ids(items)[j];
      } else if i >= |items| && j >= |items| {
        assert files[i - |items|].id == files[j - |items|].id;
      }
    }
  }

  // ---------------------------------------------------------------- lookup

  /** `find(img => img.id === id)`: the first item with that id. */
  function FindById(items: seq<Item>, id: string): (r: Option<Item>)
    ensures r.None? <==> forall k :: 0 <= k < |items| ==> items[k].id != id
    ensures forall k :: (0 <= k < |items| && items[k].id == id
                         && forall j :: 0 <= j < k ==> items[j].id != id) ==> r == Some(items[k])
  {
    var k := FirstIndex(items, (it: Item) => it.id == id);
    if k < |items| then Some(items[k]) else None
  }

  /** With unique ids, the item found for an id is the one item carrying it. */
  lemma FindUnique(items: seq<Item>, j: int)
    requires UniqueIds(items) && 0 <= j < |items|
    ensures FindById(items, items[j].id) == Some(items[j])
  {
    forall i | 0 <= i < j
      ensures items[i].id != items[j].id
    {
      assert Ids(items)[i] != Ids(items)[j];
    }
  }

  // ---------------------------------------------------------------- processing

  /** `currentPrompt || item.prompt`: an explicit non-empty prompt wins over the stored one. */
  function TargetPrompt(currentPrompt: string, stored: string): string
  {
    if currentPrompt != "" then currentPrompt else stored
  }

  /** The processing step on one item (App.tsx:468). */
  function Started(it: Item, target: string): Item
  {
    it.(status := Processing, error := None, prompt := target)
  }

  /** The outcome step on one item (App.tsx:478, App.tsx:482); neither branch touches the other's field. */
  function Finished(it: Item, outcome: Outcome): Item
  {
    match outcome
    case Success(url) => it.(processedUrl := Some(url), status := Completed)
    case Failure(message) => it.(status := Error, error := Some(if message != "" then message else FallbackError))
  }

  /** `prev.map(...)`: every item with the id is marked as processing with the target prompt. */
  function MarkProcessing(items: seq<Item>, id: string, target: string): (r: seq<Item>)
    ensures |r| == |items|
    ensures forall k :: 0 <= k < |items| && items[k].id != id ==> r[k] == items[k]
    ensures forall k :: 0 <= k < |items| && items[k].id == id ==>
      && r[k].id == id && r[k].originalUrl == items[k].originalUrl && r[k].processedUrl == items[k].processedUrl
      && r[k].status == Processing && r[k].error == None && r[k].prompt == target
  {
    seq(|items|, k requires 0 <= k < |items| => if items[k].id == id then Started(items[k], target) else items[k])
  }

  /** `prev.map(...)`: the outcome is applied to every item with the id, and to nothing else. */
  function ApplyOutcome(items: seq<Item>, id: string, outcome: Outcome): (r: seq<Item>)
    ensures |r| == |items|
    ensures forall k :: 0 <= k < |items| && items[k].id != id ==> r[k] == items[k]
    ensures forall k :: 0 <= k < |items| && items[k].id == id ==>
      r[k].id == id && r[k].originalUrl == items[k].originalUrl && r[k].prompt == items[k].prompt
    ensures outcome.Success? ==> forall k :: 0 <= k < |items| && items[k].id == id ==>
      r[k].status == Completed && r[k].processedUrl == Some(outcome.url) && r[k].error == items[k].error
    ensures outcome.Failure? ==> forall k :: 0 <= k < |items| && items[k].id == id ==>
      && r[k].status == Error && r[k].processedUrl == items[k].processedUrl
      && r[k].error == Some(if outcome.message != "" then outcome.message else FallbackError)
  {
    seq(|items|, k requires 0 <= k < |items| => if items[k].id == id then Finished(items[k], outcome) else items[k])
  }

  /**
   * `processImage(id, currentPrompt)` with the external edit resolving to
   * `outcome`: nothing happens for an unknown id; otherwise the processing
   * step and then the outcome step, for every item with that id.
   */
  function ProcessOne(items: seq<Item>, id: string, currentPrompt: string, outcome: Outcome): seq<Item>
  {
    match FindById(items, id)
    case None => items
    case Some(it) => ApplyOutcome(MarkProcessing(items, id, TargetPrompt(currentPrompt, it.prompt)), id, outcome)
  }

  /**
   * What one processing attempt does to the items: an absent id leaves the
   * list as it is; otherwise only the items with that id change, each ending
   * `completed` with the new URL or `error` with the message (or
   * "API Error"), its error cleared on success, its earlier `processedUrl`
   * kept on failure, and its prompt the target prompt computed from the
   * first item with the id.
   */
  lemma ProcessOneEffect(items: seq<Item>, id: string, currentPrompt: string, outcome: Outcome)
    ensures FindById(items, id).None? ==> ProcessOne(items, id, currentPrompt, outcome) == items
    ensures FindById(items, id).Some? ==>
      var r := ProcessOne(items, id, currentPrompt, outcome);
      var target := TargetPrompt(currentPrompt, FindById(items, id).value.prompt);
      && |r| == |items|
      && Ids(r) == Ids(items)
      && forall k :: 0 <= k < |items| ==>
           if items[k].id != id then r[k] == items[k]
           else
             && r[k].originalUrl == items[k].originalUrl
             && r[k].prompt == target
             && (outcome.Success? ==> r[k].status == Completed && r[k].processedUrl == Some(outcome.url) && r[k].error == None)
             && (outcome.Failure? ==> r[k].status == Error && r[k].processedUrl == items[k].processedUrl
                                      && r[k].error == Some(if outcome.message != "" then outcome.message else FallbackError))
  {
  }

  /** With unique ids, one attempt on the item at `j` is the processing step then the outcome step on that item alone. */
  lemma ProcessOneUnique(items: seq<Item>, j: int, currentPrompt: string, outcome: Outcome)
    requires UniqueIds(items) && 0 <= j < |items|
    ensures var r := ProcessOne(items, items[j].id, currentPrompt, outcome);
      && |r| == |items|
      && r[j] == Finished(Started(items[j], TargetPrompt(currentPrompt, items[j].prompt)), outcome)
      && forall k :: 0 <= k < |items| && k != j ==> r[k] == items[k]
  {
    FindUnique(items, j);
    forall k | 0 <= k < |items| && k != j
      ensures items[k].id != items[j].id
    {
      assert Ids(items)[k] != Ids(items)[j];
    }
  }

  /** One attempt settles every item carrying its id and leaves every other item alone. */
  lemma ProcessOneSettles(items: seq<Item>, id: string, currentPrompt: string, outcome: Outcome, k: int)
    requires 0 <= k < |items|
    ensures |ProcessOne(items, id, currentPrompt, outcome)| == |items|
    ensures items[k].id == id ==> ProcessOne(items, id, currentPrompt, outcome)[k].status in {Completed, Error}
    ensures items[k].id != id ==> ProcessOne(items, id, currentPrompt, outcome)[k] == items[k]
  {
  }

  lemma ProcessOneKeepsIds(items: seq<Item>, id: string, currentPrompt: string, outcome: Outcome)
    ensures Ids(ProcessOne(items, id, currentPrompt, outcome)) == Ids(items)
  {
  }

  // ---------------------------------------------------------------- removal

  /** `prev.filter(img => img.id !== id)` */
  function RemoveById(items: seq<Item>, id: string): seq<Item>
  {
    Filter(items, (it: Item) => it.id != id)
  }

  /** The URL `removeImage` revokes: the first match's `originalUrl`, when there is a match and it is non-empty. */
  function RevokedOnRemove(items: seq<Item>, id: string): seq<string>
  {
    match FindById(items, id)
    case Some(it) => if it.originalUrl != "" then [it.originalUrl] else []
    case None => []
  }

  /** Removal keeps exactly the items with other ids, in order, and revokes the removed item's URL. */
  lemma RemoveUnique(items: seq<Item>, j: int)
    requires UniqueIds(items) && 0 <= j < |items|
    ensures RemoveById(items, items[j].id) == items[..j] + items[j + 1..]
    ensures RevokedOnRemove(items, items[j].id) == if items[j].originalUrl != "" then [items[j].originalUrl] else []
  {
    var id := items[j].id;
    var p := (it: Item) => it.id != id;
    var before, after := items[..j], items[j + 1..];
    forall k | 0 <= k < |before|
      ensures p(before[k])
    {
      assert Ids(items)[k] != Ids(items)[j];
    }
    forall k | 0 <= k < |after|
      ensures p(after[k])
    {
      assert Ids(items)[j + 1 + k] != Ids(items)[j];
    }
    assert items == before + [items[j]] + after;
    FilterOut(before, items[j], after, p);
    FindUnique(items, j);
  }

  /** No item with the removed id is left, and every other item stays. */
  lemma RemoveDropsId(items: seq<Item>, id: string)
    ensures forall k :: 0 <= k < |RemoveById(items, id)| ==> RemoveById(items, id)[k].id != id
    ensures forall k :: 0 <= k < |items| && items[k].id != id ==> items[k] in RemoveById(items, id)
  {
  }

  /** Removing a just-added upload by its fresh id gives back the list before the upload. */
  lemma RemoveUndoesAdd(items: seq<Item>, u: Upload, prompt: string)
    requires forall k :: 0 <= k < |items| ==> items[k].id != u.id
    ensures RemoveById(AddFiles(items, Some([u]), prompt), u.id) == items
  {
    var p := (it: Item) => it.id != u.id;
    var added := AddFiles(items, Some([u]), prompt);
    assert added == items + [NewItem(u, prompt)];
    FilterAppend(items, [NewItem(u, prompt)], p);
    FilterAll(items, p);
    FilterNone([NewItem(u, prompt)], p);
  }

  /**
   * An outcome that arrives for an id that is no longer in the list changes
   * nothing: a result after removal is dropped and cannot touch another item.
   */
  lemma LateOutcomeDropped(items: seq<Item>, id: string, outcome: Outcome)
    ensures ApplyOutcome(RemoveById(items, id), id, outcome) == RemoveById(items, id)
  {
    RemoveDropsId(items, id);
  }

  lemma RemoveKeepsUniqueIds(items: seq<Item>, id: string)
    requires UniqueIds(items)
    ensures UniqueIds(RemoveById(items, id))
  {
    FilterKeepsUniqueIds(items, (it: Item) => it.id != id);
  }

  lemma UniqueTail(items: seq<Item>)
    requires UniqueIds(items) && items != []
    ensures UniqueIds(items[1..])
    ensures forall k :: 1 <= k < |items| ==> items[k].id != items[0].id
  {
    var rest := items[1..];
    forall i, j | 0 <= i < |rest| && 0 <= j < |rest| && Ids(rest)[i] == Ids(rest)[j]
      ensures i == j
    {
      assert Ids(items)[i + 1] == Ids(items)[j + 1];
    }
    forall k | 1 <= k < |items|
      ensures items[k].id != items[0].id
    {
      assert Ids(items)[k] != Ids(items)[0];
    }
  }

  lemma UniqueCons(x: Item, s: seq<Item>)
    requires UniqueIds(s)
    requires forall k :: 0 <= k < |s| ==> s[k].id != x.id
    ensures UniqueIds([x] + s)
  {
    var r := [x] + s;
    forall i, j | 0 <= i < |r| && 0 <= j < |r| && Ids(r)[i] == Ids(r)[j]
      ensures i == j
    {
      if i > 0 && j > 0 {
        assert Ids(s)[i - 1] == Ids(s)[j - 1];
      }
    }
  }

  lemma {:induction false} FilterKeepsUniqueIds(items: seq<Item>, p: Item -> bool)
    requires UniqueIds(items)
    ensures UniqueIds(Filter(items, p))
  {
    if items != [] {
      UniqueTail(items);
      FilterKeepsUniqueIds(items[1..], p);
      var fr := Filter(items[1..], p);
      if p(items[0]) {
        forall k | 0 <= k < |fr|
          ensures fr[k].id != items[0].id
        {
          var m :| 0 <= m < |items[1..]| && items[1..][m] == fr[k];
          assert items[m + 1] == fr[k];
        }
        UniqueCons(items[0], fr);
        assert Filter(items, p) == [items[0]] + fr;
      } else {
        assert Filter(items, p) == [] + fr;
      }
    }
  }

  // ---------------------------------------------------------------- selection

  /** The items a sweep selects. */
  predicate IsPending(it: Item)
  {
    it.status == Idle || it.status == Error
  }

  /** `imagesRef.current.filter(img => img.status === 'idle' || img.status === 'error')` */
  function Pending(items: seq<Item>): seq<Item>
  {
    Filter(items, IsPending)
  }

  /** New uploads are idle, so they join the end of the pending selection. */
  lemma PendingAfterAdd(items: seq<Item>, files: seq<Upload>, prompt: string)
    ensures Pending(AddFiles(items, Some(files), prompt)) == Pending(items) + NewItems(files, prompt)
  {
    FilterAppend(items, NewItems(files, prompt), IsPending);
    FilterAll(NewItems(files, prompt), IsPending);
  }

  // ---------------------------------------------------------------- invariants

  /**
   * What every item satisfies, whatever order the asynchronous steps run in:
   * an idle item has neither result nor error, a processing one has no error,
   * a failed one has a message and a completed one has a result.
   */
  predicate Consistent(it: Item)
  {
    && (it.status == Idle ==> it.processedUrl.None? && it.error.None?)
    && (it.status == Processing ==> it.error.None?)
    && (it.status == Error ==> it.error.Some?)
    && (it.status == Completed ==> it.processedUrl.Some?)
  }

  predicate AllConsistent(items: seq<Item>)
  {
    forall k :: 0 <= k < |items| ==> Consistent(items[k])
  }

  /** Consistency plus: a message is present only on a failed item. */
  predicate Strict(it: Item)
  {
    Consistent(it) && (it.error.Some? ==> it.status == Error)
  }

  predicate AllStrict(items: seq<Item>)
  {
    forall k :: 0 <= k < |items| ==> Strict(items[k])
  }

  /** Every step keeps every item consistent, taken one at a time in any order. */
  lemma StepsKeepConsistent(items: seq<Item>, files: Option<seq<Upload>>, id: string, target: string, outcome: Outcome)
    requires AllConsistent(items)
    ensures AllConsistent(AddFiles(items, files, target))
    ensures AllConsistent(MarkProcessing(items, id, target))
    ensures AllConsistent(ApplyOutcome(items, id, outcome))
    ensures AllConsistent(RemoveById(items, id))
  {
    var r := RemoveById(items, id);
    forall k | 0 <= k < |r|
      ensures Consistent(r[k])
    {
      var m :| 0 <= m < |items| && items[m] == r[k];
    }
  }

  /**
   * A whole attempt, run without interruption, keeps the stricter invariant:
   * the processing step clears the message and success does not set one.
   */
  lemma ProcessOneKeepsStrict(items: seq<Item>, id: string, currentPrompt: string, outcome: Outcome)
    requires AllStrict(items)
    ensures AllStrict(ProcessOne(items, id, currentPrompt, outcome))
  {
  }

  /**
   * Two overlapping attempts on one item (a retry clicked while a sweep
   * still holds the id) can leave a completed item carrying a stale message:
   * the success step does not clear `error`.
   */
  lemma OverlapLeavesStaleError(it: Item, target: string, message: string, url: string)
    requires Strict(it)
    ensures var twice := Finished(Finished(Started(Started(it, target), target), Failure(message)), Success(url));
      twice.status == Completed && twice.error.Some? && !Strict(twice)
  {
  }

  /** A failed re-run of a completed item keeps its earlier result URL. */
  lemma FailedRerunKeepsResult(it: Item, target: string, message: string)
    requires Consistent(it) && it.status == Completed
    ensures Finished(Started(it, target), Failure(message)).processedUrl == it.processedUrl
    ensures Finished(Started(it, target), Failure(message)).processedUrl.Some?
  {
  }
}
