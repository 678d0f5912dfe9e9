/**
 * The sweep of `processAll`: a fixed, in-order list of ids taken from the
 * pending items, processed one after another with one prompt, each attempt
 * seeing the list the previous one left.
 */
module Batch {

  import opened Wrappers
  import opened Seqs
  import opened Items

  /**
   * The list after attempting `ids` in order with `prompt`, the attempt on
   * `ids[k]` resolving to `outcomes(k)`.
   */
  function Run(items: seq<Item>, ids: seq<string>, prompt: string, outcomes: nat -> Outcome): seq<Item>
    decreases |ids|
  {
    if ids == [] then items
    else ProcessOne(Run(items, ids[..|ids| - 1], prompt, outcomes), ids[|ids| - 1], prompt, outcomes(|ids| - 1))
  }

  /** One more iteration of the loop is one more attempt on the list the previous ones left. */
  lemma RunStep(items: seq<Item>, ids: seq<string>, prompt: string, outcomes: nat -> Outcome, i: int)
    requires 0 <= i < |ids|
    ensures Run(items, ids[..i + 1], prompt, outcomes)
            == ProcessOne(Run(items, ids[..i], prompt, outcomes), ids[i], prompt, outcomes(i))
  {
    var s := ids[..i + 1];
    assert s[..|s| - 1] == ids[..i] && s[|s| - 1] == ids[i];
  }

  /** `pending.map(p => p.id)`: the ids a sweep works through, fixed when it starts. */
  function SweepIds(items: seq<Item>): seq<string>
  {
    Ids(Pending(items))
  }

  /** The list after a whole sweep. */
  function Sweep(items: seq<Item>, prompt: string, outcomes: nat -> Outcome): seq<Item>
  {
    Run(items, SweepIds(items), prompt, outcomes)
  }

  lemma {:induction false} RunKeepsIds(items: seq<Item>, ids: seq<string>, prompt: string, outcomes: nat -> Outcome)
    ensures Ids(Run(items, ids, prompt, outcomes)) == Ids(items)
    decreases |ids|
  {
    if ids != [] {
      var before := Run(items, ids[..|ids| - 1], prompt, outcomes);
      RunKeepsIds(items, ids[..|ids| - 1], prompt, outcomes);
      ProcessOneKeepsIds(before, ids[|ids| - 1], prompt, outcomes(|ids| - 1));
    }
  }

  /** An item whose id the sweep does not hold is left exactly as it was. */
  lemma {:induction false} RunUntouched(items: seq<Item>, ids: seq<string>, prompt: string, outcomes: nat -> Outcome, j: int)
    requires 0 <= j < |items| && items[j].id !in ids
    ensures |Run(items, ids, prompt, outcomes)| == |items|
    ensures Run(items, ids, prompt, outcomes)[j] == items[j]
    decreases |ids|
  {
    RunKeepsIds(items, ids, prompt, outcomes);
    if ids != [] {
      var before := Run(items, ids[..|ids| - 1], prompt, outcomes);
      assert items[j].id !in ids[..|ids| - 1];
      RunUntouched(items, ids[..|ids| - 1], prompt, outcomes, j);
      ProcessOneEffect(before, ids[|ids| - 1], prompt, outcomes(|ids| - 1));
    }
  }

  /** Every item whose id the sweep holds ends `completed` or `error`: nothing is left processing or idle. */
  lemma {:induction false} RunSettles(items: seq<Item>, ids: seq<string>, prompt: string, outcomes: nat -> Outcome, j: int)
    requires 0 <= j < |items| && items[j].id in ids
    ensures |Run(items, ids, prompt, outcomes)| == |items|
    ensures Run(items, ids, prompt, outcomes)[j].status in {Completed, Error}
    decreases |ids|
  {
    RunKeepsIds(items, ids, prompt, outcomes);
    var before := Run(items, ids[..|ids| - 1], prompt, outcomes);
    RunKeepsIds(items, ids[..|ids| - 1], prompt, outcomes);
    assert Ids(before)[j] == items[j].id;
    var last := ids[|ids| - 1];
    ProcessOneSettles(before, last, prompt, outcomes(|ids| - 1), j);
    if items[j].id != last {
      assert items[j].id in ids[..|ids| - 1] by {
        var m :| 0 <= m < |ids| && ids[m] == items[j].id;
        assert ids[..|ids| - 1][m] == ids[m];
      }
      RunSettles(items, ids[..|ids| - 1], prompt, outcomes, j);
    }
  }

  /**
   * With unique ids and a duplicate-free id list, the item holding `ids[k]`
   * ends as its own processing step followed by the `k`-th outcome.
   */
  lemma {:induction false} RunUnique(items: seq<Item>, ids: seq<string>, prompt: string, outcomes: nat -> Outcome, j: int, k: int)
    requires UniqueIds(items) && NoDup(ids)
    requires 0 <= j < |items| && 0 <= k < |ids| && items[j].id == ids[k]
    ensures |Run(items, ids, prompt, outcomes)| == |items|
    ensures Run(items, ids, prompt, outcomes)[j]
            == Finished(Started(items[j], TargetPrompt(prompt, items[j].prompt)), outcomes(k))
    decreases |ids|
  {
    RunKeepsIds(items, ids, prompt, outcomes);
    var n := |ids|;
    var prefix := ids[..n - 1];
    var before := Run(items, prefix, prompt, outcomes);
    RunKeepsIds(items, prefix, prompt, outcomes);
    assert UniqueIds(before);
    assert Ids(before)[j] == items[j].id;
    NoDupDropLast(ids);
    if k == n - 1 {
      RunUntouched(items, prefix, prompt, outcomes, j);
      ProcessOneUnique(before, j, prompt, outcomes(n - 1));
    } else {
      assert prefix[k] == ids[k];
      RunUnique(items, prefix, prompt, outcomes, j, k);
      assert ids[n - 1] != items[j].id;
      ProcessOneSettles(before, ids[n - 1], prompt, outcomes(n - 1), j);
    }
  }

  /** With unique ids, the sweep's ids are duplicate-free. */
  lemma SweepIdsNoDup(items: seq<Item>)
    requires UniqueIds(items)
    ensures NoDup(SweepIds(items))
  {
    FilterKeepsUniqueIds(items, IsPending);
  }

  /**
   * The sweep, with unique ids: every pending item is processed once, with
   * the sweep's prompt (or its own when that is empty) and the outcome
   * numbered by how many pending items precede it; every completed or
   * processing item is left exactly as it was.
   */
  lemma SweepEffect(items: seq<Item>, prompt: string, outcomes: nat -> Outcome)
    requires UniqueIds(items)
    ensures |Sweep(items, prompt, outcomes)| == |items|
    ensures forall j :: 0 <= j < |items| ==>
      Sweep(items, prompt, outcomes)[j]
        == if IsPending(items[j])
           then Finished(Started(items[j], TargetPrompt(prompt, items[j].prompt)), outcomes(|Pending(items[..j])|))
           else items[j]
  {
    var ids := SweepIds(items);
    RunKeepsIds(items, ids, prompt, outcomes);
    SweepIdsNoDup(items);
    forall j | 0 <= j < |items|
      ensures Sweep(items, prompt, outcomes)[j]
        == if IsPending(items[j])
           then Finished(Started(items[j], TargetPrompt(prompt, items[j].prompt)), outcomes(|Pending(items[..j])|))
           else items[j]
    {
      if IsPending(items[j]) {
        FilterAt(items, IsPending, j);
        var k := |Pending(items[..j])|;
        assert ids[k] == items[j].id;
        RunUnique(items, ids, prompt, outcomes, j, k);
      } else {
        assert items[j].id !in ids by {
          forall m | 0 <= m < |ids|
            ensures ids[m] != items[j].id
          {
            var x := Pending(items)[m];
            var i :| 0 <= i < |items| && items[i] == x;
            assert i != j;
            assert Ids(items)[i] != Ids(items)[j];
          }
        }
        RunUntouched(items, ids, prompt, outcomes, j);
      }
    }
  }

  /** A sweep with nothing pending leaves the list unchanged. */
  lemma SweepNothingPending(items: seq<Item>, prompt: string, outcomes: nat -> Outcome)
    requires Pending(items) == []
    ensures Sweep(items, prompt, outcomes) == items
  {
  }

  /** Without any uniqueness assumption: ids are kept, untouched ids stay, selected ids settle. */
  lemma SweepSettles(items: seq<Item>, prompt: string, outcomes: nat -> Outcome)
    ensures Ids(Sweep(items, prompt, outcomes)) == Ids(items)
    ensures forall j :: 0 <= j < |items| && items[j].id !in SweepIds(items) ==> Sweep(items, prompt, outcomes)[j] == items[j]
    ensures forall j :: 0 <= j < |items| && IsPending(items[j]) ==> Sweep(items, prompt, outcomes)[j].status in {Completed, Error}
  {
    var ids := SweepIds(items);
    RunKeepsIds(items, ids, prompt, outcomes);
    forall j | 0 <= j < |items| && items[j].id !in ids
      ensures Sweep(items, prompt, outcomes)[j] == items[j]
    {
      RunUntouched(items, ids, prompt, outcomes, j);
    }
    forall j | 0 <= j < |items| && IsPending(items[j])
      ensures Sweep(items, prompt, outcomes)[j].status in {Completed, Error}
    {
      FilterAt(items, IsPending, j);
      assert ids[|Pending(items[..j])|] == items[j].id;
      RunSettles(items, ids, prompt, outcomes, j);
    }
  }

  /** A sweep keeps every item consistent and, run without interruption, strict. */
  lemma {:induction false} RunKeepsInvariants(items: seq<Item>, ids: seq<string>, prompt: string, outcomes: nat -> Outcome)
    ensures AllConsistent(items) ==> AllConsistent(Run(items, ids, prompt, outcomes))
    ensures AllStrict(items) ==> AllStrict(Run(items, ids, prompt, outcomes))
    decreases |ids|
  {
    if ids != [] {
      var before := Run(items, ids[..|ids| - 1], prompt, outcomes);
      var id := ids[|ids| - 1];
      RunKeepsInvariants(items, ids[..|ids| - 1], prompt, outcomes);
      if AllStrict(before) {
        ProcessOneKeepsStrict(before, id, prompt, outcomes(|ids| - 1));
      }
      if AllConsistent(before) {
        match FindById(before, id)
        case None =>
        case Some(it) =>
          var target := TargetPrompt(prompt, it.prompt);
          StepsKeepConsistent(before, None, id, target, outcomes(|ids| - 1));
          StepsKeepConsistent(MarkProcessing(before, id, target), None, id, target, outcomes(|ids| - 1));
      }
    }
  }
}
