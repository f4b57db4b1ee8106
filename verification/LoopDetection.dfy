/** The sliding-window loop detector against the full iteration history. */
module LoopDetection {
  import opened Wrappers

  /** A call on a detector with the clock reading it took. */
  datatype Call = Record(now: real) | Look(now: real) | Reset

  /** The times at or after a cutoff, in order. */
  function Since(times: seq<real>, cutoff: real): (r: seq<real>)
    ensures |r| <= |times|
  {
    if times == [] then []
    else
      var front, last := Since(times[..|times| - 1], cutoff), times[|times| - 1];
      if last >= cutoff then front + [last] else front
  }

  function Before(times: seq<real>, cutoff: real): seq<real> {
    if times == [] then []
    else
      var front, last := Before(times[..|times| - 1], cutoff), times[|times| - 1];
      if last >= cutoff then front else front + [last]
  }

  function Added(call: Call): seq<real> {
    if call.Record? then [call.now] else []
  }

  /** Every iteration recorded since the last reset. */
  function History(run: seq<Call>): seq<real> {
    if run == [] || run[|run| - 1].Reset? then []
    else History(run[..|run| - 1]) + Added(run[|run| - 1])
  }

  /** What the detector still holds. */
  function Kept(run: seq<Call>, window: real): seq<real> {
    if run == [] || run[|run| - 1].Reset? then []
    else
      var call := run[|run| - 1];
      Since(Kept(run[..|run| - 1], window) + Added(call), call.now - window)
  }

  /** What it has pruned since the last reset. */
  function Pruned(run: seq<Call>, window: real): seq<real> {
    if run == [] || run[|run| - 1].Reset? then []
    else
      var front, call := run[..|run| - 1], run[|run| - 1];
      Pruned(front, window) + Before(Kept(front, window) + Added(call), call.now - window)
  }

  /** No reading of the run is after now. */
  predicate NotBefore(run: seq<Call>, now: real) {
    forall c :: c in run && !c.Reset? ==> c.now <= now
  }

  lemma {:induction false} SinceJoin(a: seq<real>, b: seq<real>, cutoff: real)
    ensures Since(a + b, cutoff) == Since(a, cutoff) + Since(b, cutoff)
  {
    if b == [] {
      assert a + b == a;
    } else {
      SinceJoin(a, b[..|b| - 1], cutoff);
      assert (a + b)[..|a + b| - 1] == a + b[..|b| - 1];
    }
  }

  lemma {:induction false} SinceMembers(times: seq<real>, cutoff: real, t: real)
    ensures t in Since(times, cutoff) <==> t in times && t >= cutoff
    ensures t in Before(times, cutoff) <==> t in times && t < cutoff
  {
    if times != [] {
      SinceMembers(times[..|times| - 1], cutoff, t);
      assert times == times[..|times| - 1] + [times[|times| - 1]];
    }
  }

  /** Filtering splits a count: at one cutoff, what another cutoff keeps and what it drops. */
  lemma {:induction false} SinceSplit(times: seq<real>, first: real, cutoff: real)
    ensures |Since(times, cutoff)| == |Since(Since(times, first), cutoff)| + |Since(Before(times, first), cutoff)|
  {
    if times != [] {
      var front, last := times[..|times| - 1], times[|times| - 1];
      SinceSplit(front, first, cutoff);
      SinceJoin(Since(front, first), [last], cutoff);
      SinceJoin(Before(front, first), [last], cutoff);
    }
  }

  /** One call moves what it drops from the kept to the pruned. */
  lemma PruneStep(kept: seq<real>, added: seq<real>, pruned: seq<real>, first: real, cutoff: real)
    ensures |Since(kept, cutoff)| + |Since(added, cutoff)| + |Since(pruned, cutoff)|
      == |Since(Since(kept + added, first), cutoff)| + |Since(pruned + Before(kept + added, first), cutoff)|
  {
    hide Since, Before;
    SinceSplit(kept + added, first, cutoff);
    SinceJoin(kept, added, cutoff);
    SinceJoin(pruned, Before(kept + added, first), cutoff);
  }

  lemma LastCall(run: seq<Call>, window: real)
    requires run != [] && !run[|run| - 1].Reset?
    ensures var front, call := run[..|run| - 1], run[|run| - 1];
      && History(run) == History(front) + Added(call)
      && Kept(run, window) == Since(Kept(front, window) + Added(call), call.now - window)
      && Pruned(run, window) == Pruned(front, window) + Before(Kept(front, window) + Added(call), call.now - window)
  {
  }

  /** Nothing is lost: whatever the clock does, kept and pruned make up the history. */
  lemma {:induction false} KeptAndPruned(run: seq<Call>, window: real, cutoff: real)
    ensures |Since(History(run), cutoff)| == |Since(Kept(run, window), cutoff)| + |Since(Pruned(run, window), cutoff)|
  {
    if run == [] || run[|run| - 1].Reset? {
      assert Since([], cutoff) == [];
    } else {
      hide *;
      var front, call := run[..|run| - 1], run[|run| - 1];
      LastCall(run, window);
      KeptAndPruned(front, window, cutoff);
      PruneStep(Kept(front, window), Added(call), Pruned(front, window), call.now - window, cutoff);
      SinceJoin(History(front), Added(call), cutoff);
    }
  }

  lemma SinceNone(times: seq<real>, cutoff: real)
    ensures |Since(times, cutoff)| == 0 <==> forall t :: t in times ==> t < cutoff
  {
    hide Since;
    if |Since(times, cutoff)| != 0 {
      SinceMembers(times, cutoff, Since(times, cutoff)[0]);
    }
    forall t | t in times ensures t in Since(times, cutoff) <==> t >= cutoff {
      SinceMembers(times, cutoff, t);
    }
  }

  /** The i-th call of the run recorded t, and there was no reset since. */
  predicate RecordedAt(run: seq<Call>, t: real, i: int) {
    0 <= i < |run| && run[i] == Record(t) && forall j :: i <= j < |run| ==> !run[j].Reset?
  }

  /** At the j-th call, t was out of the window. */
  predicate OutAt(run: seq<Call>, window: real, t: real, j: int) {
    0 <= j < |run| && !run[j].Reset? && t < run[j].now - window
  }

  /** Some iteration at time t has been in the run since the last reset, and out of the window at its
      own or a later reading. */
  ghost predicate WasOut(run: seq<Call>, window: real, t: real) {
    exists i, j :: i <= j && RecordedAt(run, t, i) && OutAt(run, window, t, j)
  }

  /** Some iteration at time t has been in every window since it was recorded. */
  ghost predicate StayedIn(run: seq<Call>, window: real, t: real) {
    exists i :: RecordedAt(run, t, i) && NeverOut(run, window, t, i)
  }

  predicate NeverOut(run: seq<Call>, window: real, t: real, i: int) {
    forall j :: i <= j < |run| ==> !OutAt(run, window, t, j)
  }

  /** What one more call does to these facts. */
  lemma StayedStep(run: seq<Call>, call: Call, window: real, t: real)
    requires !call.Reset?
    ensures StayedIn(run + [call], window, t) <==>
      (StayedIn(run, window, t) || call == Record(t)) && t >= call.now - window
  {
    var all := run + [call];
    if StayedIn(run, window, t) && t >= call.now - window {
      var i :| RecordedAt(run, t, i) && NeverOut(run, window, t, i);
      assert RecordedAt(all, t, i);
      forall j | i <= j < |all| ensures !OutAt(all, window, t, j) {
        assert j < |run| ==> !OutAt(run, window, t, j);
      }
    }
    if call == Record(t) && t >= call.now - window {
      assert RecordedAt(all, t, |run|) && NeverOut(all, window, t, |run|);
    }
    if StayedIn(all, window, t) {
      var i :| RecordedAt(all, t, i) && NeverOut(all, window, t, i);
      assert !OutAt(all, window, t, |run|);
      StayedBefore(run, call, window, t, i);
    }
  }

  lemma StayedBefore(run: seq<Call>, call: Call, window: real, t: real, i: int)
    requires RecordedAt(run + [call], t, i) && NeverOut(run + [call], window, t, i)
    ensures StayedIn(run, window, t) || call == Record(t)
  {
    var all := run + [call];
    if i < |run| {
      RecordedBefore(run, call, t, i);
      forall j | i <= j < |run| ensures !OutAt(run, window, t, j) {
        assert !OutAt(all, window, t, j) && all[j] == run[j];
      }
      assert NeverOut(run, window, t, i);
    }
  }

  lemma RecordedBefore(run: seq<Call>, call: Call, t: real, i: int)
    requires RecordedAt(run + [call], t, i) && i < |run|
    ensures RecordedAt(run, t, i)
  {
    forall j | i <= j < |run| ensures !run[j].Reset? {
      assert (run + [call])[j] == run[j];
    }
  }

  lemma OutStep(run: seq<Call>, call: Call, window: real, t: real)
    requires !call.Reset?
    ensures WasOut(run + [call], window, t) <==>
      WasOut(run, window, t) || ((StayedIn(run, window, t) || call == Record(t)) && t < call.now - window)
  {
    var all := run + [call];
    if WasOut(run, window, t) {
      var i, j :| i <= j && RecordedAt(run, t, i) && OutAt(run, window, t, j);
      assert RecordedAt(all, t, i) && OutAt(all, window, t, j);
    }
    if StayedIn(run, window, t) && t < call.now - window {
      var i :| RecordedAt(run, t, i) && NeverOut(run, window, t, i);
      assert RecordedAt(all, t, i) && OutAt(all, window, t, |run|);
    }
    if call == Record(t) && t < call.now - window {
      assert RecordedAt(all, t, |run|) && OutAt(all, window, t, |run|);
    }
    if WasOut(all, window, t) {
      var i, j :| i <= j && RecordedAt(all, t, i) && OutAt(all, window, t, j);
      OutBefore(run, call, window, t, i, j);
    }
  }

  lemma OutBefore(run: seq<Call>, call: Call, window: real, t: real, i: int, j: int)
    requires !call.Reset? && i <= j && RecordedAt(run + [call], t, i) && OutAt(run + [call], window, t, j)
    ensures WasOut(run, window, t) || ((StayedIn(run, window, t) || call == Record(t)) && t < call.now - window)
  {
    if i < |run| {
      RecordedBefore(run, call, t, i);
      if j < |run| {
        assert OutAt(run, window, t, j);
      } else if NeverOut(run, window, t, i) {
        assert StayedIn(run, window, t);
      }
    }
  }

  /** What is kept has stayed in the window, what is pruned has been out of it. */
  lemma {:induction false} KeptMeaning(run: seq<Call>, window: real, t: real)
    ensures t in Kept(run, window) <==> StayedIn(run, window, t)
    ensures t in Pruned(run, window) <==> WasOut(run, window, t)
  {
    if run != [] && !run[|run| - 1].Reset? {
      hide *;
      var front, call := run[..|run| - 1], run[|run| - 1];
      assert run == front + [call];
      KeptMeaning(front, window, t);
      LastCall(run, window);
      var held, cutoff := Kept(front, window) + Added(call), call.now - window;
      SinceMembers(held, cutoff, t);
      AddedMeaning(call, t);
      StayedStep(front, call, window, t);
      OutStep(front, call, window, t);
    } else if run != [] {
      assert forall i :: !RecordedAt(run, t, i);
    }
  }

  lemma AddedMeaning(call: Call, t: real)
    requires !call.Reset?
    ensures t in Added(call) <==> call == Record(t)
  {
  }

  /** The pruned window counts what the full history counts exactly when the present window reaches
      back to no iteration that was out of the window at an earlier reading. */
  lemma PrunedExact(run: seq<Call>, window: real, now: real)
    ensures |Since(Kept(run, window), now - window)| == |Since(History(run), now - window)|
      <==> forall t :: WasOut(run, window, t) ==> t < now - window
  {
    hide *;
    KeptAndPruned(run, window, now - window);
    SinceNone(Pruned(run, window), now - window);
    forall t ensures t in Pruned(run, window) <==> WasOut(run, window, t) {
      KeptMeaning(run, window, t);
    }
  }

  /** A clock that has not gone back makes pruning invisible. */
  lemma SteadyClock(run: seq<Call>, window: real, now: real)
    requires NotBefore(run, now)
    ensures |Since(Kept(run, window), now - window)| == |Since(History(run), now - window)|
  {
    hide Since, Kept, History;
    PrunedExact(run, window, now);
    forall t | WasOut(run, window, t) ensures t < now - window {
      var i, j :| i <= j && RecordedAt(run, t, i) && OutAt(run, window, t, j);
      assert run[j] in run;
    }
  }

  /** When the clock goes back, a window that the full history overfills goes unnoticed. */
  lemma ClockBackMisses()
    ensures var run := [Record(0.0), Record(100.0), Record(5.0)];
      |Kept(run, 10.0)| == 2 && |Since(History(run), 5.0 - 10.0)| == 3
  {
    var a, b, c := [Record(0.0)], [Record(0.0), Record(100.0)], [Record(0.0), Record(100.0), Record(5.0)];
    assert b[..1] == a && c[..2] == b && a[..0] == [];
    assert History(a) == [0.0] && History(b) == [0.0, 100.0] && History(c) == [0.0, 100.0, 5.0];
    SinceThree(0.0, 100.0, 5.0, -5.0);
    assert [] + [0.0] == [0.0];
    SinceOne(0.0, -10.0);
    assert Kept(a, 10.0) == [0.0];
    SinceTwo(0.0, 100.0, 90.0);
    assert [0.0] + [100.0] == [0.0, 100.0];
    assert Kept(b, 10.0) == [100.0];
    SinceTwo(100.0, 5.0, -5.0);
    assert [100.0] + [5.0] == [100.0, 5.0];
  }

  lemma SinceOne(x: real, cutoff: real)
    ensures Since([x], cutoff) == if x >= cutoff then [x] else []
  {
    assert [x][..0] == [];
  }

  lemma SinceTwo(x: real, y: real, cutoff: real)
    ensures Since([x, y], cutoff) == Since([x], cutoff) + if y >= cutoff then [y] else []
  {
    assert [x, y][..1] == [x];
  }

  lemma SinceThree(x: real, y: real, z: real, cutoff: real)
    ensures Since([x, y, z], cutoff) == Since([x], cutoff)
      + (if y >= cutoff then [y] else []) + if z >= cutoff then [z] else []
  {
    assert [x, y, z][..2] == [x, y];
    SinceTwo(x, y, cutoff);
  }

  lemma {:induction false} SinceStable(times: seq<real>, cutoff: real)
    ensures Since(Since(times, cutoff), cutoff) == Since(times, cutoff)
  {
    if times != [] {
      SinceStable(times[..|times| - 1], cutoff);
      SinceJoin(Since(times[..|times| - 1], cutoff), [times[|times| - 1]], cutoff);
    }
  }

  /** What is held after a call, against the full history. */
  lemma Counted(run: seq<Call>, window: real)
    requires run != [] && !run[|run| - 1].Reset?
    ensures var now := run[|run| - 1].now;
      && |Kept(run, window)| <= |Since(History(run), now - window)|
      && (NotBefore(run[..|run| - 1], now) ==> |Kept(run, window)| == |Since(History(run), now - window)|)
  {
    hide Since, History, Pruned;
    var front, call := run[..|run| - 1], run[|run| - 1];
    assert run == front + [call];
    SinceStable(Kept(front, window) + Added(call), call.now - window);
    KeptAndPruned(run, window, call.now - window);
    if NotBefore(front, call.now) {
      SteadyClock(run, window, call.now);
    }
  }

  datatype Finding = Finding(action: string, count: nat)

  class LoopDetector {
    const maxIterations: int
    const window: real
    const action: string
    var timestamps: seq<real>
    /** Every call so far. */
    ghost var run: seq<Call>

    ghost predicate Valid()
      reads this
    {
      timestamps == Kept(run, window)
    }

    constructor (maxIterations: int, window: real, action: string)
      ensures Valid() && run == []
      ensures this.maxIterations == maxIterations && this.window == window && this.action == action
    {
      this.maxIterations := maxIterations;
      this.window := window;
      this.action := action;
      timestamps := [];
      run := [];
    }

    /** `record_iteration`: unless the clock has gone back, it fires exactly when the complete history
        has more than the allowed iterations in the window, and reports how many. */
    method RecordIteration(now: real) returns (r: Option<Finding>)
      requires Valid()
      modifies this
      ensures Valid() && run == old(run) + [Record(now)]
      ensures |timestamps| <= |Since(History(run), now - window)|
      ensures r == if |timestamps| > maxIterations then Some(Finding(action, |timestamps|)) else None
      ensures NotBefore(old(run), now) ==> |timestamps| == |Since(History(run), now - window)|
    {
      hide Since, History, NotBefore;
      assert (run + [Record(now)])[..|run|] == run;
      run := run + [Record(now)];
      timestamps := timestamps + [now];
      var cutoff := now - window;
      timestamps := Since(timestamps, cutoff);
      Counted(run, window);
      if |timestamps| > maxIterations {
        return Some(Finding(action, |timestamps|));
      }
      return None;
    }

    /** `get_iteration_count` */
    method GetIterationCount(now: real) returns (n: nat)
      requires Valid()
      modifies this
      ensures Valid() && run == old(run) + [Look(now)]
      ensures n == |timestamps| <= |Since(History(run), now - window)|
      ensures NotBefore(old(run), now) ==> n == |Since(History(run), now - window)|
    {
      hide Since, History, NotBefore;
      assert (run + [Look(now)])[..|run|] == run;
      assert timestamps + [] == timestamps;
      run := run + [Look(now)];
      var cutoff := now - window;
      timestamps := Since(timestamps, cutoff);
      Counted(run, window);
      n := |timestamps|;
    }

    method Clear()
      requires Valid()
      modifies this
      ensures Valid() && run == old(run) + [Reset] && timestamps == []
    {
      run := run + [Reset];
      timestamps := [];
    }
  }
}
