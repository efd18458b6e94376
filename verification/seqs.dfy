/**
 The three array operations the course accessors are built from:
 `Array.prototype.filter`, `Array.prototype.find` (as the index it stops at)
 and `Array.prototype.some`, each with a reference characterisation.
 */
module Seqs {
  import opened Optional

  /** True iff every element of `s` satisfies `p`. */
  ghost predicate All<T>(s: seq<T>, p: T -> bool) {
    forall i :: 0 <= i < |s| ==> p(s[i])
  }

  /** Reference definition for filtering: the positions of `s` whose element
      is kept, in increasing order. */
  function KeptIndices<T>(s: seq<T>, keep: T -> bool): (idx: seq<nat>)
    ensures forall k :: 0 <= k < |idx| ==> idx[k] < |s| && keep(s[idx[k]])
    ensures forall i :: 0 <= i < |s| && keep(s[i]) ==> i in idx
    ensures forall j, k :: 0 <= j < k < |idx| ==> idx[j] < idx[k]
  {
    if |s| == 0 then []
    else
      var pre := KeptIndices(s[..|s| - 1], keep);
      if keep(s[|s| - 1]) then pre + [|s| - 1] else pre
  }

  /** `r` consists of exactly the kept elements of `s`, in the order of `s`. */
  ghost predicate SelectsInOrder<T>(s: seq<T>, keep: T -> bool, r: seq<T>) {
    var idx := KeptIndices(s, keep);
    |r| == |idx| && forall k :: 0 <= k < |r| ==> r[k] == s[idx[k]]
  }

  /** `s.filter(keep)`. */
  function Filter<T>(s: seq<T>, keep: T -> bool): (r: seq<T>)
    ensures |r| <= |s|
  {
    if |s| == 0 then []
    else
      var last := s[|s| - 1];
      var pre := Filter(s[..|s| - 1], keep);
      if keep(last) then pre + [last] else pre
  }

  /** The filtered sequence is the sequence of kept positions' elements. */
  lemma {:induction false} FilterSelectsInOrder<T>(s: seq<T>, keep: T -> bool)
    ensures SelectsInOrder(s, keep, Filter(s, keep))
    decreases |s|
  {
    if |s| > 0 {
      var s' := s[..|s| - 1];
      var last := s[|s| - 1];
      FilterSelectsInOrder(s', keep);
      var pre := Filter(s', keep);
      var idx' := KeptIndices(s', keep);
      assert Same: forall k :: 0 <= k < |pre| ==> pre[k] == s[idx'[k]] by {
        forall k | 0 <= k < |pre|
          ensures pre[k] == s[idx'[k]]
        {
          assert pre[k] == s'[idx'[k]];
        }
      }
      if keep(last) {
        var r, idx := pre + [last], idx' + [|s| - 1];
        assert Filter(s, keep) == r && KeptIndices(s, keep) == idx;
        forall k | 0 <= k < |r|
          ensures r[k] == s[idx[k]]
        {
          if k < |pre| {
            assert r[k] == pre[k] && idx[k] == idx'[k];
          }
        }
      } else {
        assert Filter(s, keep) == pre && KeptIndices(s, keep) == idx';
      }
    }
  }

  /** A filter keeps exactly the elements that pass it. */
  lemma FilterMembers<T>(s: seq<T>, keep: T -> bool)
    ensures forall k :: 0 <= k < |Filter(s, keep)| ==> Filter(s, keep)[k] in s && keep(Filter(s, keep)[k])
    ensures forall i :: 0 <= i < |s| && keep(s[i]) ==> s[i] in Filter(s, keep)
  {
    var r := Filter(s, keep);
    var idx := KeptIndices(s, keep);
    FilterSelectsInOrder(s, keep);
    forall i | 0 <= i < |s| && keep(s[i])
      ensures s[i] in r
    {
      var k :| 0 <= k < |idx| && idx[k] == i;
      assert r[k] == s[i];
    }
  }

  /** Filtering commutes with concatenation; in particular filtering a
      store that grew at the end only adds to the end of the result. */
  lemma {:induction false} FilterAppend<T>(a: seq<T>, b: seq<T>, keep: T -> bool)
    ensures Filter(a + b, keep) == Filter(a, keep) + Filter(b, keep)
    decreases |b|
  {
    if |b| == 0 {
      assert a + b == a;
    } else {
      var b' := b[..|b| - 1];
      assert (a + b)[..|a + b| - 1] == a + b';
      assert (a + b)[|a + b| - 1] == b[|b| - 1];
      FilterAppend(a, b', keep);
    }
  }

  /** A filter that keeps every element returns its input unchanged. */
  lemma {:induction false} FilterKeepsAll<T>(s: seq<T>, keep: T -> bool)
    requires All(s, keep)
    ensures Filter(s, keep) == s
    decreases |s|
  {
    if |s| > 0 {
      var s' := s[..|s| - 1];
      assert All(s', keep);
      FilterKeepsAll(s', keep);
      assert Filter(s, keep) == Filter(s', keep) + [s[|s| - 1]];
    }
  }

  /** `s.findIndex(p)` seen as an option: the first position whose element
      satisfies `p`, or `None` when there is none. */
  function FindFirst<T>(s: seq<T>, p: T -> bool): (r: Option<nat>)
    ensures r.Some? ==> r.value < |s| && p(s[r.value])
    ensures r.Some? ==> forall j :: 0 <= j < r.value ==> !p(s[j])
    ensures r.None? <==> forall j :: 0 <= j < |s| ==> !p(s[j])
  {
    if |s| == 0 then None
    else if p(s[0]) then Some(0)
    else
      match FindFirst(s[1..], p)
      case None => None
      case Some(i) => Some(i + 1)
  }

  /** A position that satisfies `p` and has no earlier satisfying position
      is what `FindFirst` returns. */
  lemma FindFirstIs<T>(s: seq<T>, p: T -> bool, k: nat)
    requires k < |s| && p(s[k])
    requires forall j :: 0 <= j < k ==> !p(s[j])
    ensures FindFirst(s, p) == Some(k)
  {
  }

  /** Appending elements never changes a search that already succeeded. */
  lemma FindFirstAppendFound<T>(a: seq<T>, b: seq<T>, p: T -> bool)
    requires FindFirst(a, p).Some?
    ensures FindFirst(a + b, p) == FindFirst(a, p)
  {
    var i := FindFirst(a, p).value;
    assert (a + b)[i] == a[i];
    forall j | 0 <= j < i
      ensures !p((a + b)[j])
    {
      assert (a + b)[j] == a[j];
    }
    FindFirstIs(a + b, p, i);
  }

  /** `s.some(p)`. */
  function Exists<T>(s: seq<T>, p: T -> bool): (b: bool)
    ensures b <==> exists i :: 0 <= i < |s| && p(s[i])
  {
    if |s| == 0 then false
    else if p(s[0]) then true
    else
      var rest := Exists(s[1..], p);
      assert forall i :: 1 <= i < |s| ==> s[i] == s[1..][i - 1];
      rest
  }
}
