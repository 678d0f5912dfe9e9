/**
 * Sequence operations the batch logic is built from: `Array.prototype.filter`,
 * the index `Array.prototype.find` stops at, and duplicate-freedom.
 */
module Seqs {

  /** The elements of `s` that satisfy `p`, in their original order. */
  function Filter<T>(s: seq<T>, p: T -> bool): (r: seq<T>)
    ensures |r| <= |s|
    ensures forall k :: 0 <= k < |r| ==> r[k] in s && p(r[k])
    ensures forall k :: 0 <= k < |s| && p(s[k]) ==> s[k] in r
  {
    if s == [] then [] else (if p(s[0]) then [s[0]] else []) + Filter(s[1..], p)
  }

  lemma {:induction false} FilterAppend<T>(a: seq<T>, b: seq<T>, p: T -> bool)
    ensures Filter(a + b, p) == Filter(a, p) + Filter(b, p)
  {
    if a == [] {
      assert a + b == b;
    } else {
      assert (a + b)[0] == a[0];
      assert (a + b)[1..] == a[1..] + b;
      FilterAppend(a[1..], b, p);
    }
  }

  lemma {:induction false} FilterAll<T>(s: seq<T>, p: T -> bool)
    requires forall k :: 0 <= k < |s| ==> p(s[k])
    ensures Filter(s, p) == s
  {
    if s != [] {
      FilterAll(s[1..], p);
    }
  }

  lemma {:induction false} FilterNone<T>(s: seq<T>, p: T -> bool)
    requires forall k :: 0 <= k < |s| ==> !p(s[k])
    ensures Filter(s, p) == []
  {
    if s != [] {
      FilterNone(s[1..], p);
    }
  }

  /** Filtering out a single rejected element between two wholly kept parts leaves the two parts. */
  lemma FilterOut<T>(before: seq<T>, x: T, after: seq<T>, p: T -> bool)
    requires forall k :: 0 <= k < |before| ==> p(before[k])
    requires forall k :: 0 <= k < |after| ==> p(after[k])
    requires !p(x)
    ensures Filter(before + [x] + after, p) == before + after
  {
    assert Filter([x], p) == [] by {
      assert [x][0] == x && [x][1..] == [];
    }
    FilterAll(before, p);
    FilterAll(after, p);
    FilterAppend(before, [x], p);
    assert Filter(before + [x], p) == before;
    FilterAppend(before + [x], after, p);
  }

  /** An element kept by the filter lands at the position given by the number of kept elements before it. */
  lemma FilterAt<T>(s: seq<T>, p: T -> bool, j: int)
    requires 0 <= j < |s| && p(s[j])
    ensures |Filter(s[..j], p)| < |Filter(s, p)|
    ensures Filter(s, p)[|Filter(s[..j], p)|] == s[j]
  {
    var tail := [s[j]] + s[j + 1..];
    assert s == s[..j] + tail;
    FilterAppend(s[..j], tail, p);
    assert tail[0] == s[j] && tail[1..] == s[j + 1..];
    assert Filter(tail, p) == [s[j]] + Filter(s[j + 1..], p);
  }

  /** The index `find`/`findIndex` stops at: the first element satisfying `p`, or `|s|` if there is none. */
  function FirstIndex<T>(s: seq<T>, p: T -> bool): (k: nat)
    ensures k <= |s|
    ensures forall j :: 0 <= j < k ==> !p(s[j])
    ensures k < |s| ==> p(s[k])
  {
    if s == [] then 0 else if p(s[0]) then 0 else 1 + FirstIndex(s[1..], p)
  }

  /** No value occurs twice in `s`. */
  predicate NoDup<T(==)>(s: seq<T>)
  {
    forall i, j :: 0 <= i < |s| && 0 <= j < |s| && s[i] == s[j] ==> i == j
  }

  /** Dropping the last element keeps a sequence duplicate-free, and the dropped value is not in what remains. */
  lemma NoDupDropLast<T>(s: seq<T>)
    requires NoDup(s) && s != []
    ensures NoDup(s[..|s| - 1])
    ensures s[|s| - 1] !in s[..|s| - 1]
  {
    var prefix := s[..|s| - 1];
    forall a, b | 0 <= a < |prefix| && 0 <= b < |prefix| && prefix[a] == prefix[b]
      ensures a == b
    {
      assert s[a] == s[b];
    }
    forall m | 0 <= m < |prefix|
      ensures prefix[m] != s[|s| - 1]
    {
      assert s[m] != s[|s| - 1];
    }
  }
}
