/** `Array.prototype.filter` with a side-effect-free callback: the elements the
    callback keeps, in their original order. */
module Selection {

  function Select<T>(s: seq<T>, keep: T -> bool): (r: seq<T>)
    ensures |r| <= |s|
    ensures forall k :: 0 <= k < |r| ==> keep(r[k])
  {
    if s == [] then []
    else (if keep(s[0]) then [s[0]] else []) + Select(s[1..], keep)
  }

  /** Every position of `indices` moved one place to the right. */
  function Shifted(indices: seq<nat>): (r: seq<nat>)
    ensures |r| == |indices|
    ensures forall k :: 0 <= k < |r| ==> r[k] == indices[k] + 1
  {
    seq(|indices|, k requires 0 <= k < |indices| => indices[k] + 1)
  }

  lemma ShiftedMembership(indices: seq<nat>, i: nat)
    ensures i in Shifted(indices) <==> i >= 1 && i - 1 in indices
  {
    var r := Shifted(indices);
    if i in r {
      var k :| 0 <= k < |r| && r[k] == i;
      assert indices[k] == i - 1;
    }
    if i >= 1 && i - 1 in indices {
      var k :| 0 <= k < |indices| && indices[k] == i - 1;
      assert r[k] == i;
    }
  }

  /** The positions of the kept elements, in increasing order. */
  function KeptPositions<T>(s: seq<T>, keep: T -> bool): (idx: seq<nat>)
    ensures forall k :: 0 <= k < |idx| ==> idx[k] < |s|
  {
    if s == [] then []
    else (if keep(s[0]) then [0] else []) + Shifted(KeptPositions(s[1..], keep))
  }

  /** Reading the source at the kept positions gives the selection. */
  lemma {:induction false} PositionsRead<T>(s: seq<T>, keep: T -> bool)
    ensures |KeptPositions(s, keep)| == |Select(s, keep)|
    ensures forall k :: 0 <= k < |KeptPositions(s, keep)| ==>
      Select(s, keep)[k] == s[KeptPositions(s, keep)[k]]
  {
    if s != [] {
      PositionsRead(s[1..], keep);
      var idx := KeptPositions(s, keep);
      var tail := KeptPositions(s[1..], keep);
      var r := Select(s, keep);
      var rest := Select(s[1..], keep);
      var head: seq<nat> := if keep(s[0]) then [0] else [];
      assert idx == head + Shifted(tail);
      assert r == (if keep(s[0]) then [s[0]] else []) + rest;
      forall k | 0 <= k < |idx|
        ensures r[k] == s[idx[k]]
      {
        if k >= |head| {
          assert idx[k] == tail[k - |head|] + 1;
          assert r[k] == rest[k - |head|];
          assert s[idx[k]] == s[1..][tail[k - |head|]];
        }
      }
    }
  }

  /** The kept positions strictly increase, so the selection keeps the source order. */
  lemma {:induction false} PositionsIncrease<T>(s: seq<T>, keep: T -> bool)
    ensures forall k, l :: 0 <= k < l < |KeptPositions(s, keep)| ==>
      KeptPositions(s, keep)[k] < KeptPositions(s, keep)[l]
  {
    if s != [] {
      PositionsIncrease(s[1..], keep);
      var idx := KeptPositions(s, keep);
      var tail := KeptPositions(s[1..], keep);
      var head: seq<nat> := if keep(s[0]) then [0] else [];
      assert idx == head + Shifted(tail);
      forall k, l | 0 <= k < l < |idx|
        ensures idx[k] < idx[l]
      {
        assert idx[l] == tail[l - |head|] + 1;
        if k >= |head| {
          assert idx[k] == tail[k - |head|] + 1;
        }
      }
    }
  }

  /** A position is kept exactly when the callback keeps its element. */
  lemma {:induction false} PositionsKept<T>(s: seq<T>, keep: T -> bool, i: nat)
    requires i < |s|
    ensures keep(s[i]) <==> i in KeptPositions(s, keep)
  {
    var tail := KeptPositions(s[1..], keep);
    ShiftedMembership(tail, i);
    if i > 0 {
      PositionsKept(s[1..], keep, i - 1);
      assert s[i] == s[1..][i - 1];
    }
  }

  /** The selection is the source read at increasing positions `idx`, and those
      positions are exactly the ones whose element the callback keeps. */
  lemma SelectPositions<T>(s: seq<T>, keep: T -> bool) returns (idx: seq<nat>)
    ensures |idx| == |Select(s, keep)|
    ensures forall k :: 0 <= k < |idx| ==> idx[k] < |s| && Select(s, keep)[k] == s[idx[k]]
    ensures forall k, l :: 0 <= k < l < |idx| ==> idx[k] < idx[l]
    ensures forall i :: 0 <= i < |s| ==> (keep(s[i]) <==> i in idx)
  {
    idx := KeptPositions(s, keep);
    PositionsRead(s, keep);
    PositionsIncrease(s, keep);
    forall i | 0 <= i < |s|
      ensures keep(s[i]) <==> i in idx
    {
      PositionsKept(s, keep, i);
    }
  }

  /** An element is selected exactly when it is in the source and kept. */
  lemma {:induction false} SelectMembership<T>(s: seq<T>, keep: T -> bool)
    ensures forall x :: x in Select(s, keep) <==> x in s && keep(x)
  {
    if s != [] {
      SelectMembership(s[1..], keep);
      assert s == [s[0]] + s[1..];
    }
  }

  /** Selecting from a concatenation selects from each part. */
  lemma {:induction false} SelectAppend<T>(a: seq<T>, b: seq<T>, keep: T -> bool)
    ensures Select(a + b, keep) == Select(a, keep) + Select(b, keep)
  {
    if a == [] {
      assert a + b == b;
    } else {
      assert (a + b)[0] == a[0];
      assert (a + b)[1..] == a[1..] + b;
      SelectAppend(a[1..], b, keep);
    }
  }

  /** Selecting again from a selection changes nothing. */
  lemma {:induction false} SelectIdempotent<T>(s: seq<T>, keep: T -> bool)
    ensures Select(Select(s, keep), keep) == Select(s, keep)
  {
    if s != [] {
      var head := if keep(s[0]) then [s[0]] else [];
      SelectAppend(head, Select(s[1..], keep), keep);
      SelectIdempotent(s[1..], keep);
      if head != [] {
        assert head[1..] == [];
      }
    }
  }

  /** When the callback keeps every element of the source, the whole source is selected. */
  lemma {:induction false} SelectAll<T>(s: seq<T>, keep: T -> bool)
    requires forall i :: 0 <= i < |s| ==> keep(s[i])
    ensures Select(s, keep) == s
  {
    if s != [] {
      SelectAll(s[1..], keep);
      assert s == [s[0]] + s[1..];
    }
  }

  /** Selecting from a prefix one longer adds the next element when it is kept. */
  lemma SelectPrefixStep<T>(s: seq<T>, keep: T -> bool, k: nat)
    requires k < |s|
    ensures Select(s[..k + 1], keep) == Select(s[..k], keep) + (if keep(s[k]) then [s[k]] else [])
  {
    assert s[..k + 1] == s[..k] + [s[k]];
    SelectAppend(s[..k], [s[k]], keep);
    assert [s[k]][1..] == [];
  }

  /** Longer prefixes never select fewer elements. */
  lemma {:induction false} SelectPrefixGrows<T>(s: seq<T>, keep: T -> bool, k: nat, l: nat)
    requires k <= l <= |s|
    ensures |Select(s[..k], keep)| <= |Select(s[..l], keep)|
    decreases l - k
  {
    if k < l {
      SelectPrefixStep(s, keep, k);
      SelectPrefixGrows(s, keep, k + 1, l);
    }
  }

  /** Two kept positions with the same number of kept elements before them are
      the same position. */
  lemma SelectRankUnique<T>(s: seq<T>, keep: T -> bool, i: nat, j: nat)
    requires i < |s| && j < |s| && keep(s[i]) && keep(s[j])
    requires |Select(s[..i], keep)| == |Select(s[..j], keep)|
    ensures i == j
  {
    if i < j {
      SelectPrefixStep(s, keep, i);
      SelectPrefixGrows(s, keep, i + 1, j);
    } else if j < i {
      SelectPrefixStep(s, keep, j);
      SelectPrefixGrows(s, keep, j + 1, i);
    }
  }

  /** Selecting from a list without repeated elements gives a list without
      repeated elements. */
  lemma {:induction false} SelectDistinct<T>(s: seq<T>, keep: T -> bool)
    requires forall i, j :: 0 <= i < j < |s| ==> s[i] != s[j]
    ensures forall i, j :: 0 <= i < j < |Select(s, keep)| ==> Select(s, keep)[i] != Select(s, keep)[j]
  {
    if s != [] {
      SelectDistinct(s[1..], keep);
      SelectMembership(s[1..], keep);
      assert s[0] !in s[1..];
    }
  }
}
