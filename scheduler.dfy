/**
 * The next-window decision of `initRequest`: where the next window starts,
 * whether it is enqueued, and the status it leaves behind. The wall-clock
 * values (now floored to the minute, and five minutes before it) are
 * parameters, and the saved status is the optional result of reading the
 * status file.
 */
module Scheduler {
  import opened Wrappers
  import opened Intervals
  import opened StatusStore

  /** The start of the next window: the default start, overridden by the end of
      the last finished range, overridden in turn by the end of the last
      requested range. */
  function StartDate(saved: Option<StatusValue>, defaultStart: string): (start: string)
    ensures saved.None? ==> start == defaultStart
    ensures saved.Some? && |saved.value.requested| > 0 ==>
      start == saved.value.requested[|saved.value.requested| - 1].end
    ensures saved.Some? && |saved.value.requested| == 0 && |saved.value.finished| > 0 ==>
      start == saved.value.finished[|saved.value.finished| - 1].end
    ensures saved.Some? && |saved.value.requested| == 0 && |saved.value.finished| == 0 ==>
      start == defaultStart
  {
    var afterFinished :=
      if saved.Some? && |saved.value.finished| > 0
      then saved.value.finished[|saved.value.finished| - 1].end
      else defaultStart;
    if saved.Some? && |saved.value.requested| > 0
    then saved.value.requested[|saved.value.requested| - 1].end
    else afterFinished
  }

  /** The window `initRequest` enqueues, if any: `[start, endDate]` when the two differ. */
  function NextWindow(saved: Option<StatusValue>, defaultStart: string, endDate: string): (w: Option<TimeRange>)
    ensures w.Some? <==> StartDate(saved, defaultStart) != endDate
    ensures w.Some? ==> w.value == TimeRange(StartDate(saved, defaultStart), endDate)
  {
    var start := StartDate(saved, defaultStart);
    if start != endDate then Some(TimeRange(start, endDate)) else None
  }

  /** The status `initRequest` works on and, when it writes one, the document written. */
  function Scheduled(saved: Option<StatusValue>, defaultStart: string, endDate: string): (r: (StatusValue, Option<StatusValue>))
    ensures r.1.Some? <==> NextWindow(saved, defaultStart, endDate).Some?
    ensures r.1.Some? ==> r.1.value == r.0 && NextWindow(saved, defaultStart, endDate).value in r.0.requested
    ensures r.1.None? ==> r.0 == saved.GetOr(Empty)
  {
    var base := saved.GetOr(Empty);
    var w := NextWindow(saved, defaultStart, endDate);
    if w.Some? then (Updated(base, w), Some(Updated(base, w))) else (base, None)
  }

  /** `initRequest`: decide the start step by step, then enqueue `[start, endDate]`,
      balance and write, unless the start already equals the end. */
  method InitRequest(saved: Option<StatusValue>, defaultStart: string, endDate: string)
    returns (status: Status, written: Option<StatusValue>)
    ensures fresh(status)
    ensures (status.Value(), written) == Scheduled(saved, defaultStart, endDate)
  {
    status := new Status(Empty);
    var startDate := defaultStart;
    if saved.Some? {
      status := new Status(saved.value);
      if |status.finished| > 0 {
        startDate := status.finished[|status.finished| - 1].end;
      }
      if |status.requested| > 0 {
        startDate := status.requested[|status.requested| - 1].end;
      }
    }
    written := None;
    if startDate != endDate {
      var doc := status.UpdateStatus(Some(TimeRange(startDate, endDate)));
      written := Some(doc);
    }
  }

  /** Continuing from the last finished range: with nothing queued, the next
      window runs from the end of the last finished range to now. */
  lemma ContinuesFromFinished(finished: seq<TimeRange>, defaultStart: string, endDate: string)
    requires |finished| > 0 && finished[|finished| - 1].end != endDate
    ensures NextWindow(Some(StatusValue([], finished)), defaultStart, endDate)
      == Some(TimeRange(finished[|finished| - 1].end, endDate))
  {
  }

  /** Nothing new is requested when the last queued window already ends now:
      no window, no write, and the status is left as loaded. */
  lemma NoOpWhenCurrent(s: StatusValue, defaultStart: string, endDate: string)
    requires |s.requested| > 0 && s.requested[|s.requested| - 1].end == endDate
    ensures NextWindow(Some(s), defaultStart, endDate).None?
    ensures Scheduled(Some(s), defaultStart, endDate) == (s, None)
  {
  }

  /** Queued windows abut: each starts where the previous one ends. */
  predicate Chained(rs: seq<TimeRange>) {
    forall k :: 0 < k < |rs| ==> rs[k - 1].end == rs[k].start
  }

  /** A saved status whose queued windows abut keeps them abutting after
      `initRequest`. */
  lemma {:induction false} ScheduledKeepsChain(s: StatusValue, defaultStart: string, endDate: string)
    requires Chained(s.requested)
    ensures Chained(Scheduled(Some(s), defaultStart, endDate).0.requested)
  {
    var w := NextWindow(Some(s), defaultStart, endDate);
    if w.Some? && w.value !in s.requested {
      var r := Enqueue(s.requested, w.value);
      assert r == s.requested + [w.value];
      forall k | 0 < k < |r|
        ensures r[k - 1].end == r[k].start
      {
        if k == |r| - 1 {
          assert r[k] == w.value;
        } else {
          assert r[k - 1] == s.requested[k - 1] && r[k] == s.requested[k];
        }
      }
    }
  }

  /** When `initRequest` writes, the document written is valid and holds the
      new window, provided the saved requests were duplicate-free. */
  lemma ScheduledValid(s: StatusValue, defaultStart: string, endDate: string)
    requires Distinct(s.requested)
    ensures var (status, written) := Scheduled(Some(s), defaultStart, endDate);
      written.Some? ==>
        && Valid(status)
        && written.value == status
        && NextWindow(Some(s), defaultStart, endDate).value in status.requested
  {
    var w := NextWindow(Some(s), defaultStart, endDate);
    if w.Some? {
      UpdatedValid(s, w);
    }
  }

  /** The decision compares the two strings only for equality: a window whose
      start lies after its end is still enqueued. */
  lemma ReversedWindowAccepted(s: StatusValue, defaultStart: string)
    requires |s.requested| > 0 && s.requested[|s.requested| - 1].end == "b"
    ensures NextWindow(Some(s), defaultStart, "a") == Some(TimeRange("b", "a"))
  {
  }
}
