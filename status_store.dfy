/**
 * The persisted status document `{requested: [...], finished: [...]}` and the
 * in-place updates the poller makes to it: `addRequest`, `balanceStatus` and
 * `updateStatus` (whose file write is modelled as the value it writes).
 */
module StatusStore {
  import opened Wrappers
  import opened Intervals

  /** The status as a value: what is read from and written to the status file. */
  datatype StatusValue = StatusValue(requested: seq<TimeRange>, finished: seq<TimeRange>)

  /** The status a run starts from when there is no saved one. */
  const Empty := StatusValue([], [])

  /** No window is queued twice. */
  predicate Distinct(rs: seq<TimeRange>) {
    forall i, j :: 0 <= i < j < |rs| ==> rs[i] != rs[j]
  }

  /** The invariants the status keeps: no duplicate requests and a fully merged finished list. */
  predicate Valid(s: StatusValue) {
    Distinct(s.requested) && Merged(s.finished)
  }

  /** The requested list after `addRequest`: the pair is appended when no
      identical pair is queued yet. */
  function Enqueue(requested: seq<TimeRange>, request: TimeRange): (r: seq<TimeRange>)
    ensures request in r
    ensures request in requested ==> r == requested
    ensures request !in requested ==> r == requested + [request]
  {
    if |Matches(requested, request)| == 0 then requested + [request] else requested
  }

  /** Enqueueing the same pair again changes nothing. */
  lemma EnqueueIdempotent(requested: seq<TimeRange>, request: TimeRange)
    ensures Enqueue(Enqueue(requested, request), request) == Enqueue(requested, request)
  {
  }

  /** `n` consecutive enqueues of one pair. */
  function EnqueueTimes(requested: seq<TimeRange>, request: TimeRange, n: nat): (r: seq<TimeRange>) {
    if n == 0 then requested else Enqueue(EnqueueTimes(requested, request, n - 1), request)
  }

  /** However often a pair that was not queued is enqueued, it is queued exactly once,
      after all the earlier entries. */
  lemma {:induction false} EnqueueRepeated(requested: seq<TimeRange>, request: TimeRange, n: nat)
    requires n > 0 && request !in requested
    ensures EnqueueTimes(requested, request, n) == requested + [request]
    ensures multiset(EnqueueTimes(requested, request, n))[request] == 1
  {
    if n > 1 {
      EnqueueRepeated(requested, request, n - 1);
    }
    assert multiset(requested + [request])[request] == multiset(requested)[request] + 1;
  }

  /** Enqueueing keeps the requested list free of duplicates. */
  lemma EnqueueKeepsDistinct(requested: seq<TimeRange>, request: TimeRange)
    requires Distinct(requested)
    ensures Distinct(Enqueue(requested, request))
  {
  }

  /** The status after `updateStatus(status, request)`: the optional request is
      enqueued, then the finished list is balanced. */
  function Updated(s: StatusValue, request: Option<TimeRange>): (u: StatusValue)
    ensures Merged(u.finished) && |u.finished| <= |s.finished|
    ensures |s.requested| <= |u.requested| && u.requested[..|s.requested|] == s.requested
    ensures request.Some? ==> request.value in u.requested
    ensures request.None? ==> u.requested == s.requested
  {
    BalanceMerged(s.finished);
    StatusValue(
      if request.Some? then Enqueue(s.requested, request.value) else s.requested,
      Balance(s.finished))
  }

  /** `updateStatus` establishes the merged finished list and keeps requests distinct;
      the queued windows are the old ones plus the request. */
  lemma UpdatedValid(s: StatusValue, request: Option<TimeRange>)
    requires Distinct(s.requested)
    ensures Valid(Updated(s, request))
    ensures forall r :: r in Updated(s, request).requested <==>
      r in s.requested || (request.Some? && r == request.value)
  {
    BalanceMerged(s.finished);
    if request.Some? {
      EnqueueKeepsDistinct(s.requested, request.value);
    }
  }

  /** The mutable status object of the poller. */
  class Status {
    var requested: seq<TimeRange>
    var finished: seq<TimeRange>

    /** The status as a value. */
    function Value(): (v: StatusValue)
      reads this
    {
      StatusValue(requested, finished)
    }

    constructor (s: StatusValue)
      ensures Value() == s
    {
      requested := s.requested;
      finished := s.finished;
    }

    /** `addRequest`: append the pair unless an identical pair is already queued. */
    method AddRequest(request: TimeRange)
      modifies this`requested
      ensures requested == Enqueue(old(requested), request)
      ensures request in requested
    {
      if |Matches(requested, request)| == 0 {
        requested := requested + [request];
      }
    }

    /** `balanceStatus`: fold the finished list left to right, collapsing a range
        into the previous one when the previous one's end equals its start. */
    method BalanceStatus()
      modifies this`finished
      ensures finished == Balance(old(finished))
      ensures Merged(finished) && |finished| <= |old(finished)|
    {
      var p: seq<TimeRange> := [];
      for i := 0 to |finished|
        invariant p == Balance(finished[..i])
      {
        var c := finished[i];
        assert finished[..i + 1] == finished[..i] + [c];
        if |p| == 0 {
          p := p + [c];
        } else if p[|p| - 1].end == c.start {
          p := p[..|p| - 1] + [TimeRange(p[|p| - 1].start, c.end)];
        } else {
          p := p + [c];
        }
      }
      assert finished[..|finished|] == finished;
      BalanceMerged(finished);
      finished := p;
    }

    /** `updateStatus`: enqueue the optional request, balance, and write the
        status; `written` is the document written to the status file. */
    method UpdateStatus(request: Option<TimeRange>) returns (written: StatusValue)
      modifies this
      ensures Value() == Updated(old(Value()), request)
      ensures written == Value()
    {
      if request.Some? {
        AddRequest(request.value);
      }
      BalanceStatus();
      written := Value();
    }
  }
}
