/**
 * Time ranges and the two list operations the poller applies to them:
 * the left-to-right merge of the finished list (`balanceStatus`) and the
 * exact-duplicate filter used before enqueueing a request (`addRequest`).
 * Timestamps are only ever compared for equality, so they are opaque strings.
 */
module Intervals {

  /** A `[start, end]` pair of timestamp strings. */
  datatype TimeRange = TimeRange(start: string, end: string)

  /** Range `i` of `rs` opens a new merged range: it is the first one, or its
      predecessor's end differs from its start. */
  predicate StartsRun(rs: seq<TimeRange>, i: nat)
    requires i < |rs|
  {
    i == 0 || rs[i - 1].end != rs[i].start
  }

  /** No two list neighbours touch. */
  predicate Merged(rs: seq<TimeRange>) {
    forall k :: 0 < k < |rs| ==> rs[k - 1].end != rs[k].start
  }

  /** One step of the merge fold: the callback given to `reduce`. */
  function Absorb(p: seq<TimeRange>, c: TimeRange): (r: seq<TimeRange>)
    ensures |p| <= |r| <= |p| + 1 && |r| > 0 && r[|r| - 1].end == c.end
  {
    if |p| == 0 then [c]
    else if p[|p| - 1].end == c.start then p[..|p| - 1] + [TimeRange(p[|p| - 1].start, c.end)]
    else p + [c]
  }

  /** The finished list after `balanceStatus`: a left fold of `Absorb` from the empty list. */
  function Balance(rs: seq<TimeRange>): (r: seq<TimeRange>)
    ensures |r| <= |rs|
    ensures |r| == 0 <==> |rs| == 0
    ensures |rs| > 0 ==> r[0].start == rs[0].start && r[|r| - 1].end == rs[|rs| - 1].end
  {
    if |rs| == 0 then [] else Absorb(Balance(rs[..|rs| - 1]), rs[|rs| - 1])
  }

  /** The indices at which `Balance` opens a new output range, in increasing
      order (see RunStartsExact). */
  function RunStarts(rs: seq<TimeRange>): (s: seq<nat>)
    ensures forall k :: 0 <= k < |s| ==> s[k] < |rs|
    ensures forall k :: 0 < k < |s| ==> 0 < s[k]
  {
    if |rs| == 0 then []
    else RunStarts(rs[..|rs| - 1]) + (if StartsRun(rs, |rs| - 1) then [|rs| - 1] else [])
  }

  /** RunStarts lists exactly the indices that open a run, in increasing order. */
  lemma {:induction false} RunStartsExact(rs: seq<TimeRange>)
    ensures forall i :: 0 <= i < |rs| ==> (StartsRun(rs, i) <==> i in RunStarts(rs))
    ensures forall j, k :: 0 <= j < k < |RunStarts(rs)| ==> RunStarts(rs)[j] < RunStarts(rs)[k]
  {
    if |rs| > 0 {
      var p := rs[..|rs| - 1];
      RunStartsExact(p);
      assert forall i :: 0 <= i < |p| ==> StartsRun(p, i) == StartsRun(rs, i);
    }
  }

  /** The index of the last input range folded into output range `k`:
      one before the next run's start, or the last input index. */
  function RunEnd(rs: seq<TimeRange>, k: nat): (e: nat)
    requires k < |RunStarts(rs)|
    ensures e < |rs|
  {
    var s := RunStarts(rs);
    if k + 1 < |s| then s[k + 1] - 1 else |rs| - 1
  }

  /** What `balanceStatus` computes, range by range: there is one output range
      per run start, from the start of the run's first input to the end of its
      last input. */
  lemma {:induction false} BalanceRuns(rs: seq<TimeRange>)
    ensures |Balance(rs)| == |RunStarts(rs)|
    ensures forall k :: 0 <= k < |Balance(rs)| ==>
      Balance(rs)[k] == TimeRange(rs[RunStarts(rs)[k]].start, rs[RunEnd(rs, k)].end)
    decreases |rs|, 1
  {
    if |rs| > 0 {
      if StartsRun(rs, |rs| - 1) {
        BalanceRunsOpen(rs);
      } else {
        BalanceRunsJoin(rs);
      }
    }
  }

  /** Inductive step of BalanceRuns when the last input opens a new run. */
  lemma BalanceRunsOpen(rs: seq<TimeRange>)
    requires |rs| > 0 && StartsRun(rs, |rs| - 1)
    decreases |rs|, 0
    ensures |Balance(rs)| == |RunStarts(rs)|
    ensures forall k :: 0 <= k < |Balance(rs)| ==>
      Balance(rs)[k] == TimeRange(rs[RunStarts(rs)[k]].start, rs[RunEnd(rs, k)].end)
  {
    var n := |rs|;
    var p := rs[..n - 1];
    BalanceRuns(p);
    var b, s := Balance(p), RunStarts(p);
    assert RunStarts(rs) == s + [n - 1];
    BalanceOpenStep(rs);
    forall k | 0 <= k < |Balance(rs)|
      ensures Balance(rs)[k] == TimeRange(rs[RunStarts(rs)[k]].start, rs[RunEnd(rs, k)].end)
    {
      if k < |s| {
        RunEndOpen(rs, k);
        var e := RunEnd(p, k);
        assert b[k] == TimeRange(p[s[k]].start, p[e].end);
        assert p[s[k]] == rs[s[k]] && p[e] == rs[e];
        assert Balance(rs)[k] == b[k];
        assert RunStarts(rs)[k] == s[k] && RunEnd(rs, k) == e;
      } else {
        assert k == |b| && k + 1 == |RunStarts(rs)|;
        assert Balance(rs)[k] == rs[n - 1];
        assert RunStarts(rs)[k] == n - 1 && RunEnd(rs, k) == n - 1;
      }
    }
  }

  /** Inductive step of BalanceRuns when the last input touches its predecessor. */
  lemma BalanceRunsJoin(rs: seq<TimeRange>)
    requires |rs| > 0 && !StartsRun(rs, |rs| - 1)
    decreases |rs|, 0
    ensures |Balance(rs)| == |RunStarts(rs)|
    ensures forall k :: 0 <= k < |Balance(rs)| ==>
      Balance(rs)[k] == TimeRange(rs[RunStarts(rs)[k]].start, rs[RunEnd(rs, k)].end)
  {
    var n := |rs|;
    var p := rs[..n - 1];
    BalanceRuns(p);
    var b, s := Balance(p), RunStarts(p);
    assert RunStarts(rs) == s;
    BalanceJoinStep(rs);
    forall k | 0 <= k < |Balance(rs)|
      ensures Balance(rs)[k] == TimeRange(rs[RunStarts(rs)[k]].start, rs[RunEnd(rs, k)].end)
    {
      assert p[s[k]] == rs[s[k]];
      if k < |s| - 1 {
        assert RunEnd(rs, k) == RunEnd(p, k);
        assert p[RunEnd(p, k)] == rs[RunEnd(p, k)];
      }
    }
  }

  /** When the last input opens a new run, the earlier runs keep their bounds. */
  lemma RunEndOpen(rs: seq<TimeRange>, k: nat)
    requires |rs| > 0 && StartsRun(rs, |rs| - 1) && k < |RunStarts(rs[..|rs| - 1])|
    ensures k < |RunStarts(rs)|
    ensures RunStarts(rs)[k] == RunStarts(rs[..|rs| - 1])[k]
    ensures RunEnd(rs, k) == RunEnd(rs[..|rs| - 1], k)
  {
    var s := RunStarts(rs[..|rs| - 1]);
    assert RunStarts(rs) == s + [|rs| - 1];
  }

  /** Unfolding of Balance when the last input opens a new run. */
  lemma BalanceOpenStep(rs: seq<TimeRange>)
    requires |rs| > 0 && StartsRun(rs, |rs| - 1)
    ensures Balance(rs) == Balance(rs[..|rs| - 1]) + [rs[|rs| - 1]]
  {
    var p := rs[..|rs| - 1];
    if |p| > 0 {
      assert p[|p| - 1] == rs[|rs| - 2];
    }
  }

  /** Unfolding of Balance when the last input touches its predecessor. */
  lemma BalanceJoinStep(rs: seq<TimeRange>)
    requires |rs| > 0 && !StartsRun(rs, |rs| - 1)
    ensures var b := Balance(rs[..|rs| - 1]);
      |b| > 0 && Balance(rs) == b[..|b| - 1] + [TimeRange(b[|b| - 1].start, rs[|rs| - 1].end)]
  {
    var p := rs[..|rs| - 1];
    assert p[|p| - 1] == rs[|rs| - 2];
  }

  /** No two consecutive ranges of the balanced list touch. */
  lemma {:induction false} BalanceMerged(rs: seq<TimeRange>)
    ensures Merged(Balance(rs))
  {
    if |rs| > 0 {
      var n := |rs|;
      var p := rs[..n - 1];
      BalanceMerged(p);
      var b := Balance(p);
      if |b| > 0 && b[|b| - 1].end == rs[n - 1].start {
        var r := Balance(rs);
        assert r == b[..|b| - 1] + [TimeRange(b[|b| - 1].start, rs[n - 1].end)];
        forall k | 0 < k < |r|
          ensures r[k - 1].end != r[k].start
        {
          if k == |r| - 1 {
            assert r[k].start == b[k].start;
          }
        }
      }
    }
  }

  /** A list whose neighbours never touch is left as it is. */
  lemma {:induction false} BalanceFixesMerged(rs: seq<TimeRange>)
    requires Merged(rs)
    ensures Balance(rs) == rs
  {
    if |rs| > 0 {
      var p := rs[..|rs| - 1];
      assert Merged(p);
      BalanceFixesMerged(p);
      assert rs == p + [rs[|rs| - 1]];
    }
  }

  /** The merge is idempotent, and its fixed points are exactly the lists
      without touching neighbours. */
  lemma BalanceIdempotent(rs: seq<TimeRange>)
    ensures Balance(Balance(rs)) == Balance(rs)
    ensures Balance(rs) == rs <==> Merged(rs)
  {
    BalanceMerged(rs);
    BalanceFixesMerged(Balance(rs));
    if Merged(rs) {
      BalanceFixesMerged(rs);
    }
  }

  /** The merge only joins a range onto a predecessor that ends where it starts:
      a predecessor that starts where it ends, and an overlapping predecessor,
      are left apart. */
  lemma BalanceLeavesNonTouchingPairs(a: string, b: string, c: string, d: string)
    requires a != c && b != c
    ensures Balance([TimeRange(b, c), TimeRange(a, b)]) == [TimeRange(b, c), TimeRange(a, b)]
    ensures Balance([TimeRange(a, c), TimeRange(b, d)]) == [TimeRange(a, c), TimeRange(b, d)]
  {
    BalanceFixesMerged([TimeRange(b, c), TimeRange(a, b)]);
    BalanceFixesMerged([TimeRange(a, c), TimeRange(b, d)]);
  }

  /** The merge is not an interval union: ranges that touch but are separated
      in the list by another range stay apart. */
  lemma BalanceKeepsSeparated(a: string, b: string, c: string, x: string, y: string)
    requires b != x && y != b
    ensures var rs := [TimeRange(a, b), TimeRange(x, y), TimeRange(b, c)];
      Balance(rs) == rs
  {
    BalanceFixesMerged([TimeRange(a, b), TimeRange(x, y), TimeRange(b, c)]);
  }

  /** The entries of `rs` identical to `r`, in order: the `filter` of `addRequest`. */
  function Matches(rs: seq<TimeRange>, r: TimeRange): (d: seq<TimeRange>)
    ensures |d| == multiset(rs)[r]
    ensures |d| == 0 <==> r !in rs
    ensures forall x :: x in d ==> x == r
  {
    if |rs| == 0 then []
    else
      assert rs == [rs[0]] + rs[1..];
      (if rs[0] == r then [rs[0]] else []) + Matches(rs[1..], r)
  }
}
