/**
 * One run of the poller (`program`): schedule the next window, reload the
 * status, then fetch every requested window in order and, after each one,
 * write the status with every window fetched so far moved to the finished
 * list. The fetch itself is a parameter: `fetched(i)` is whether the fetch of
 * the activities of the window visited in iteration `i` completed.
 */
module Ingestion {
  import opened Wrappers
  import opened Intervals
  import opened StatusStore
  import opened Scheduler

  /** The key under which a completed window is recorded: start and end concatenated. */
  function Key(r: TimeRange): (k: string)
    ensures |k| == |r.start| + |r.end|
  {
    r.start + r.end
  }

  /** The names every plain object inherits from `Object.prototype`, for which
      the `in` operator holds although the object never stored them. */
  const InheritedKeys: set<string> := {
    "constructor", "hasOwnProperty", "isPrototypeOf", "propertyIsEnumerable",
    "toLocaleString", "toString", "valueOf", "__proto__",
    "__defineGetter__", "__defineSetter__", "__lookupGetter__", "__lookupSetter__"
  }

  /** The keys `k` for which `k in finished` holds when the completed-windows
      object `finished` has stored the keys `completed` and still has
      `Object.prototype` as its prototype (storing `"__proto__"` would replace it). */
  function InMap(completed: set<string>): (keys: set<string>)
    ensures completed <= keys && InheritedKeys <= keys
  {
    completed + InheritedKeys
  }

  /** The keys stored for the windows among the first `|rs|` iterations whose fetch completed. */
  function Done(rs: seq<TimeRange>, fetched: nat -> bool): (d: set<string>)
    ensures forall i :: 0 <= i < |rs| && fetched(i) ==> Key(rs[i]) in d
  {
    set i | 0 <= i < |rs| && fetched(i) :: Key(rs[i])
  }

  /** Recording one more window adds its key exactly when its fetch completed. */
  lemma DoneSnoc(rs: seq<TimeRange>, x: TimeRange, fetched: nat -> bool)
    ensures Done(rs + [x], fetched) == Done(rs, fetched) + (if fetched(|rs|) then {Key(x)} else {})
  {
    var l, r := Done(rs + [x], fetched), Done(rs, fetched) + (if fetched(|rs|) then {Key(x)} else {});
    forall k | k in l ensures k in r {
      var i :| 0 <= i < |rs| + 1 && fetched(i) && Key((rs + [x])[i]) == k;
      if i < |rs| {
        assert (rs + [x])[i] == rs[i];
      }
    }
    forall k | k in r ensures k in l {
      if k !in Done(rs, fetched) {
        assert (rs + [x])[|rs|] == x;
      } else {
        var i :| 0 <= i < |rs| && fetched(i) && Key(rs[i]) == k;
        assert (rs + [x])[i] == rs[i];
      }
    }
  }

  /** One step of the partition fold: a completed window goes to `finished`, any other stays requested. */
  function Route(p: StatusValue, c: TimeRange, done: set<string>): (r: StatusValue)
    ensures |r.requested| + |r.finished| == |p.requested| + |p.finished| + 1
    ensures |r.finished| == |p.finished| + 1 <==> Key(c) in done
    ensures c in r.requested + r.finished
  {
    if Key(c) in done then StatusValue(p.requested, p.finished + [c])
    else StatusValue(p.requested + [c], p.finished)
  }

  /** The status built by the partition `reduce` over the requested list `rs`,
      starting from no requests and the old finished list. */
  function Partition(rs: seq<TimeRange>, done: set<string>, finished: seq<TimeRange>): (p: StatusValue)
    ensures |p.requested| + |p.finished| == |rs| + |finished|
  {
    if |rs| == 0 then StatusValue([], finished)
    else Route(Partition(rs[..|rs| - 1], done, finished), rs[|rs| - 1], done)
  }

  /** The entries of `rs` whose key is in `done` (`completed`) or is not (`!completed`), in order. */
  function Select(rs: seq<TimeRange>, done: set<string>, completed: bool): (q: seq<TimeRange>)
    ensures |q| <= |rs|
  {
    if |rs| == 0 then []
    else (if (Key(rs[0]) in done) == completed then [rs[0]] else []) + Select(rs[1..], done, completed)
  }

  /** A window is selected exactly when it is in `rs` and its key's membership in `done` matches. */
  lemma {:induction false} SelectMembers(rs: seq<TimeRange>, done: set<string>, completed: bool)
    ensures forall x :: x in Select(rs, done, completed) <==> x in rs && (Key(x) in done) == completed
  {
    if |rs| > 0 {
      SelectMembers(rs[1..], done, completed);
      assert rs == [rs[0]] + rs[1..];
    }
  }

  /** Selecting from a list extended at the back extends the selection at the back. */
  lemma {:induction false} SelectSnoc(rs: seq<TimeRange>, x: TimeRange, done: set<string>, completed: bool)
    ensures Select(rs + [x], done, completed)
      == Select(rs, done, completed) + (if (Key(x) in done) == completed then [x] else [])
  {
    if |rs| > 0 {
      assert (rs + [x])[0] == rs[0] && (rs + [x])[1..] == rs[1..] + [x];
      SelectSnoc(rs[1..], x, done, completed);
      var head := if (Key(rs[0]) in done) == completed then [rs[0]] else [];
      assert Select(rs + [x], done, completed) == head + Select(rs[1..] + [x], done, completed);
      assert Select(rs, done, completed) == head + Select(rs[1..], done, completed);
    }
  }

  /** The partition keeps the windows that are not done, in their order, and
      appends the done ones, in their order, to the old finished list. */
  lemma {:induction false} PartitionSelects(rs: seq<TimeRange>, done: set<string>, finished: seq<TimeRange>)
    ensures Partition(rs, done, finished)
      == StatusValue(Select(rs, done, false), finished + Select(rs, done, true))
  {
    if |rs| > 0 {
      var p := rs[..|rs| - 1];
      var x := rs[|rs| - 1];
      PartitionSelects(p, done, finished);
      assert rs == p + [x];
      assert Partition(rs, done, finished) == Route(Partition(p, done, finished), x, done);
      SelectSnoc(p, x, done, false);
      SelectSnoc(p, x, done, true);
    }
  }

  /** Every requested window lands in exactly one of the two lists. */
  lemma {:induction false} SelectSplits(rs: seq<TimeRange>, done: set<string>)
    ensures multiset(Select(rs, done, true)) + multiset(Select(rs, done, false)) == multiset(rs)
  {
    if |rs| > 0 {
      var x, rest := rs[0], rs[1..];
      SelectSplits(rest, done);
      assert multiset(rs) == multiset{x} + multiset(rest) by {
        assert rs == [x] + rest;
      }
      if Key(x) in done {
        assert Select(rs, done, true) == [x] + Select(rest, done, true);
        assert Select(rs, done, false) == Select(rest, done, false);
      } else {
        assert Select(rs, done, true) == Select(rest, done, true);
        assert Select(rs, done, false) == [x] + Select(rest, done, false);
      }
    }
  }

  /** The partition, element by element: each window of `rs` is kept requested or
      appended to `finished` according to whether its key is done, and nothing
      is lost, duplicated or invented. */
  lemma PartitionRoutes(rs: seq<TimeRange>, done: set<string>, finished: seq<TimeRange>)
    ensures var p := Partition(rs, done, finished);
      && |finished| <= |p.finished|
      && p.finished[..|finished|] == finished
      && multiset(p.requested) + multiset(p.finished[|finished|..]) == multiset(rs)
      && (forall x :: x in p.requested <==> x in rs && Key(x) !in done)
      && (forall x :: x in p.finished[|finished|..] <==> x in rs && Key(x) in done)
  {
    PartitionSelects(rs, done, finished);
    SelectSplits(rs, done);
    SelectMembers(rs, done, true);
    SelectMembers(rs, done, false);
    var p := Partition(rs, done, finished);
    assert p.finished[|finished|..] == Select(rs, done, true);
  }

  /** Keys of timestamps of one fixed width identify their window. */
  lemma KeyInjective(a: TimeRange, b: TimeRange)
    requires |a.start| == |b.start| && Key(a) == Key(b)
    ensures a == b
  {
    assert a.start == Key(a)[..|a.start|];
    assert b.start == Key(b)[..|b.start|];
    assert a.end == Key(a)[|a.start|..];
    assert b.end == Key(b)[|b.start|..];
  }

  /** All start timestamps have the same length, as the poller's fixed ISO-8601 format gives. */
  predicate FixedWidth(rs: seq<TimeRange>) {
    forall i, j :: 0 <= i < |rs| && 0 <= j < |rs| ==> |rs[i].start| == |rs[j].start|
  }

  /** With fixed-width timestamps the key of window `j` is stored exactly when
      some iteration before `n` fetched a copy of that very window. */
  lemma DoneExact(rs: seq<TimeRange>, n: nat, fetched: nat -> bool, j: nat)
    requires FixedWidth(rs) && n <= |rs| && j < |rs|
    ensures Key(rs[j]) in Done(rs[..n], fetched) <==> exists i :: 0 <= i < n && fetched(i) && rs[i] == rs[j]
  {
    if Key(rs[j]) in Done(rs[..n], fetched) {
      var i :| 0 <= i < n && fetched(i) && Key(rs[..n][i]) == Key(rs[j]);
      KeyInjective(rs[i], rs[j]);
    }
    if exists i :: 0 <= i < n && fetched(i) && rs[i] == rs[j] {
      var i :| 0 <= i < n && fetched(i) && rs[i] == rs[j];
      assert rs[..n][i] == rs[i];
    }
  }

  /** Keys are concatenations, so different windows can share one: here fetching
      only `["a", "bc"]` also promotes `["ab", "c"]`. */
  lemma KeyCollision(fetched: nat -> bool)
    requires fetched(0)
    ensures var a, b := TimeRange("a", "bc"), TimeRange("ab", "c");
      Partition([a, b], InMap(Done([a], fetched)), []) == StatusValue([], [a, b])
  {
    var a, b := TimeRange("a", "bc"), TimeRange("ab", "c");
    assert Key(b) == Key(a);
    assert Key(a) in Done([a], fetched);
  }

  /** The `in` test also accepts inherited names: a window whose key is
      `"toString"` is moved to the finished list whether or not its fetch
      completed. */
  lemma InheritedKeyPromoted(fetched: nat -> bool)
    ensures var w := TimeRange("toStr", "ing");
      WriteAfter(StatusValue([w], []), fetched, 0) == StatusValue([], [w])
  {
    var w := TimeRange("toStr", "ing");
    assert Key(w) == "toString";
    assert Partition([w], InMap(Done([w], fetched)), []) == StatusValue([], [w]);
  }

  /** The document written after window `i` of `s.requested` has been fetched. */
  function WriteAfter(s: StatusValue, fetched: nat -> bool, i: nat): (w: StatusValue)
    requires i < |s.requested|
    ensures Merged(w.finished) && |w.requested| <= |s.requested|
  {
    var p := Partition(s.requested, InMap(Done(s.requested[..i + 1], fetched)), s.finished);
    BalanceMerged(p.finished);
    PartitionSelects(s.requested, InMap(Done(s.requested[..i + 1], fetched)), s.finished);
    Updated(p, None)
  }

  /** Selecting from a duplicate-free list gives a duplicate-free list. */
  lemma {:induction false} SelectDistinct(rs: seq<TimeRange>, done: set<string>, completed: bool)
    requires Distinct(rs)
    ensures Distinct(Select(rs, done, completed))
  {
    if |rs| > 0 {
      var rest := rs[1..];
      assert Distinct(rest);
      SelectDistinct(rest, done, completed);
      SelectMembers(rest, done, completed);
      assert rs[0] !in rest;
    }
  }

  /** Every document the loop writes keeps the status invariants: requests stay
      duplicate-free and the finished list is fully merged. */
  lemma LoopWritesValid(s: StatusValue, fetched: nat -> bool, i: nat)
    requires Distinct(s.requested) && i < |s.requested|
    ensures Valid(WriteAfter(s, fetched, i))
  {
    var done := InMap(Done(s.requested[..i + 1], fetched));
    PartitionSelects(s.requested, done, s.finished);
    SelectDistinct(s.requested, done, false);
  }

  /** Selecting by keys none of which is in `done` keeps every window requested. */
  lemma {:induction false} SelectNoneDone(rs: seq<TimeRange>, done: set<string>)
    requires forall x :: x in rs ==> Key(x) !in done
    ensures Select(rs, done, false) == rs && Select(rs, done, true) == []
  {
    if |rs| > 0 {
      assert rs[0] in rs;
      assert forall x :: x in rs[1..] ==> x in rs;
      SelectNoneDone(rs[1..], done);
      assert rs == [rs[0]] + rs[1..];
    }
  }

  /** When no fetch up to window `i` completed, the write after window `i`
      keeps every window requested and only merges the finished list: the
      case of a fetch that never returns a result. */
  lemma NoFetchKeepsRequested(s: StatusValue, fetched: nat -> bool, i: nat)
    requires i < |s.requested|
    requires forall k :: 0 <= k <= i ==> !fetched(k)
    requires forall x :: x in s.requested ==> Key(x) !in InheritedKeys
    ensures WriteAfter(s, fetched, i) == StatusValue(s.requested, Balance(s.finished))
  {
    var rs := s.requested;
    var d := Done(rs[..i + 1], fetched);
    assert d == {};
    assert InMap(d) == InheritedKeys;
    SelectNoneDone(rs, InheritedKeys);
    PartitionSelects(rs, InheritedKeys, s.finished);
    assert s.finished + [] == s.finished;
  }

  /** Resuming after a crash: for distinct windows with fixed-width timestamps
      whose keys are not inherited names, the document written after window `i`
      keeps as requested exactly the windows not fetched in the first `i + 1`
      iterations, with every later window, and appends to the old finished list
      exactly the windows fetched so far, before merging. */
  lemma CrashResume(s: StatusValue, fetched: nat -> bool, i: nat)
    requires FixedWidth(s.requested) && Distinct(s.requested) && i < |s.requested|
    requires forall x :: x in s.requested ==> Key(x) !in InheritedKeys
    ensures var p := Partition(s.requested, InMap(Done(s.requested[..i + 1], fetched)), s.finished);
      && WriteAfter(s, fetched, i) == StatusValue(p.requested, Balance(p.finished))
      && |s.finished| <= |p.finished|
      && p.finished[..|s.finished|] == s.finished
      && (forall j :: 0 <= j < |s.requested| ==>
            (s.requested[j] in p.requested <==> !(j <= i && fetched(j))))
      && (forall j :: 0 <= j < |s.requested| ==>
            (s.requested[j] in p.finished[|s.finished|..] <==> j <= i && fetched(j)))
  {
    var rs := s.requested;
    var done := InMap(Done(rs[..i + 1], fetched));
    PartitionRoutes(rs, done, s.finished);
    forall j | 0 <= j < |rs|
      ensures Key(rs[j]) in done <==> j <= i && fetched(j)
    {
      assert Key(rs[j]) in done <==> Key(rs[j]) in Done(rs[..i + 1], fetched);
      DoneExact(rs, i + 1, fetched, j);
      if exists k :: 0 <= k < i + 1 && fetched(k) && rs[k] == rs[j] {
        var k :| 0 <= k < i + 1 && fetched(k) && rs[k] == rs[j];
        assert k == j;
      }
    }
  }

  /** The loop of `program` over the requested windows: fetch each, record it
      in the completed map when the fetch completed, partition, then balance
      and write. `writes[i]` is the document written after window `i`. */
  method RunRequested(status: StatusValue, fetched: nat -> bool) returns (writes: seq<StatusValue>)
    ensures |writes| == |status.requested|
    ensures forall i :: 0 <= i < |writes| ==> writes[i] == WriteAfter(status, fetched, i)
  {
    var rs := status.requested;
    var completed: map<string, TimeRange> := map[];
    writes := [];
    for i := 0 to |rs|
      invariant |writes| == i
      invariant completed.Keys == Done(rs[..i], fetched)
      invariant forall j :: 0 <= j < i ==> writes[j] == WriteAfter(status, fetched, j)
    {
      var range := rs[i];
      assert rs[..i + 1] == rs[..i] + [range];
      DoneSnoc(rs[..i], range, fetched);
      if fetched(i) {
        completed := completed[Key(range) := range];
      }
      assert completed.Keys == Done(rs[..i + 1], fetched);
      var updated := new Status(Partition(rs, InMap(completed.Keys), status.finished));
      var written := updated.UpdateStatus(None);
      assert written == WriteAfter(status, fetched, i);
      writes := writes + [written];
    }
  }

  /** The documents the loop of `program` writes, one per requested window. */
  function RunWrites(s: StatusValue, fetched: nat -> bool): (ws: seq<StatusValue>)
    ensures |ws| == |s.requested|
  {
    seq(|s.requested|, i requires 0 <= i < |s.requested| => WriteAfter(s, fetched, i))
  }

  /** The status `program` reloads after `initRequest`: the document just written,
      or else the saved one. */
  function Reloaded(saved: Option<StatusValue>, defaultStart: string, endDate: string): (r: Option<StatusValue>)
    ensures r.None? <==> saved.None? && defaultStart == endDate
    ensures saved.None? && defaultStart != endDate ==>
      r == Some(StatusValue([TimeRange(defaultStart, endDate)], []))
  {
    var written := Scheduled(saved, defaultStart, endDate).1;
    assert saved.None? && defaultStart != endDate ==>
      written == Some(StatusValue([TimeRange(defaultStart, endDate)], [])) by {
      if saved.None? && defaultStart != endDate {
        var w := TimeRange(defaultStart, endDate);
        assert NextWindow(saved, defaultStart, endDate) == Some(w);
        assert Enqueue([], w) == [w];
      }
    }
    if written.Some? then written else saved
  }

  /** `program`: schedule and possibly write, reload, then run every requested
      window. Only when there is no saved status and the default window is
      empty is there nothing to reload: the run then fails (`ok` is false)
      having written nothing. */
  method Program(saved: Option<StatusValue>, defaultStart: string, endDate: string, fetched: nat -> bool)
    returns (writes: seq<StatusValue>, ok: bool)
    ensures var first := Scheduled(saved, defaultStart, endDate).1;
      var loaded := Reloaded(saved, defaultStart, endDate);
      && (ok <==> loaded.Some?)
      && writes == (if first.Some? then [first.value] else [])
                   + (if ok then RunWrites(loaded.value, fetched) else [])
  {
    var status, written := InitRequest(saved, defaultStart, endDate);
    if written.Some? {
      var run := RunRequested(written.value, fetched);
      assert run == RunWrites(written.value, fetched);
      writes, ok := [written.value] + run, true;
    } else if saved.Some? {
      writes := RunRequested(saved.value, fetched);
      assert writes == RunWrites(saved.value, fetched);
      ok := true;
    } else {
      writes, ok := [], false;
    }
  }
}
