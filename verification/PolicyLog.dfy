/** Policy snapshots: a bounded buffer per tenant, searched by time. */
module PolicyLog {
  import opened Wrappers

  const SNAPSHOT_MAX := 100

  /** A snapshot with the time it was taken. */
  datatype Snapshot = Snapshot(version: string, time: real, rules: string)

  /** `tenant_id or "__global__"` */
  function BufferKey(tenant: Option<string>): string {
    if tenant.Some? && tenant.value != "" then tenant.value else "__global__"
  }

  /** The last snapshots of a history, as many as a buffer retains. */
  function Retained(full: seq<Snapshot>): seq<Snapshot> {
    if |full| <= SNAPSHOT_MAX then full else full[|full| - SNAPSHOT_MAX..]
  }

  /** The last snapshot at or before a time. */
  function LastAt(full: seq<Snapshot>, t: real): Option<Snapshot> {
    if full == [] then None
    else if full[|full| - 1].time <= t then Some(full[|full| - 1])
    else LastAt(full[..|full| - 1], t)
  }

  predicate Ordered(full: seq<Snapshot>) {
    forall i, j :: 0 <= i < j < |full| ==> full[i].time <= full[j].time
  }

  /** No snapshot taken after t comes before one taken at or before t. */
  predicate Divided(full: seq<Snapshot>, t: real) {
    forall i, j :: 0 <= i < j < |full| && full[j].time <= t ==> full[i].time <= t
  }

  /** Time order is being divided at every time. */
  lemma OrderedDivided(full: seq<Snapshot>)
    ensures Ordered(full) <==> forall t :: Divided(full, t)
  {
    if forall t :: Divided(full, t) {
      forall i, j | 0 <= i < j < |full| ensures full[i].time <= full[j].time {
        assert Divided(full, full[j].time);
      }
    }
  }

  predicate SomeAt(full: seq<Snapshot>, t: real) {
    exists s :: s in full && s.time <= t
  }

  lemma {:induction false} LastAtMeaning(full: seq<Snapshot>, t: real)
    ensures LastAt(full, t).Some? <==> SomeAt(full, t)
    ensures LastAt(full, t).Some? ==> LastAt(full, t).value in full && LastAt(full, t).value.time <= t
  {
    if full != [] {
      var front, last := full[..|full| - 1], full[|full| - 1];
      assert full == front + [last];
      LastAtMeaning(front, t);
    }
  }

  /** The search stops between the snapshots up to t and those after it. */
  lemma {:induction false} LastAtBoundary(full: seq<Snapshot>, t: real, n: nat)
    requires n <= |full|
    requires n > 0 ==> full[n - 1].time <= t
    requires forall i :: n <= i < |full| ==> full[i].time > t
    ensures LastAt(full, t) == if n == 0 then None else Some(full[n - 1])
  {
    if n < |full| {
      LastAtBoundary(full[..|full| - 1], t, n);
    }
  }

  /** Evicting the oldest snapshots loses no answer that a retained one gives. */
  lemma {:induction false} LastAtSuffix(full: seq<Snapshot>, k: nat, t: real)
    requires k <= |full|
    ensures SomeAt(full[k..], t) ==> LastAt(full[k..], t) == LastAt(full, t)
  {
    if k < |full| {
      var part := full[k..];
      var front, last := part[..|part| - 1], part[|part| - 1];
      assert part == front + [last] && front == full[..|full| - 1][k..];
      LastAtSuffix(full[..|full| - 1], k, t);
    }
  }

  /** The probes of the binary search between two indices, with the best snapshot so far. */
  function Probe(buf: seq<Snapshot>, t: real, lo: nat, hi: int, best: Option<Snapshot>): Option<Snapshot>
    requires lo <= hi + 1 <= |buf|
    decreases hi + 1 - lo
  {
    if lo > hi then best
    else
      var mid := (lo + hi) / 2;
      if buf[mid].time <= t then Probe(buf, t, mid + 1, hi, Some(buf[mid])) else Probe(buf, t, lo, mid - 1, best)
  }

  /** The binary search. On any buffer it returns a snapshot at or before t or none; on one divided at
      t, the last one. */
  method Search(buf: seq<Snapshot>, t: real) returns (r: Option<Snapshot>)
    ensures r == Probe(buf, t, 0, |buf| - 1, None)
    ensures r.Some? ==> r.value in buf && r.value.time <= t
    ensures Divided(buf, t) ==> r == LastAt(buf, t)
  {
    hide LastAt;
    r := None;
    var lo, hi := 0, |buf| - 1;
    while lo <= hi
      invariant 0 <= lo <= hi + 1 <= |buf|
      invariant if lo == 0 then r == None else r == Some(buf[lo - 1]) && buf[lo - 1].time <= t
      invariant Probe(buf, t, lo, hi, r) == Probe(buf, t, 0, |buf| - 1, None)
      invariant Divided(buf, t) ==> forall i :: hi < i < |buf| ==> buf[i].time > t
    {
      var mid := (lo + hi) / 2;
      if buf[mid].time <= t {
        r := Some(buf[mid]);
        lo := mid + 1;
      } else {
        hi := mid - 1;
      }
    }
    if Divided(buf, t) {
      LastAtBoundary(buf, t, lo);
    }
  }

  /** Snapshots taken while the clock went back can hide one another. */
  lemma UndividedMisses()
    ensures var buf := [Snapshot("v2", 5.0, ""), Snapshot("v1", 1.0, "")];
      Probe(buf, 1.0, 0, 1, None) == None && LastAt(buf, 1.0) == Some(buf[1]) && !Divided(buf, 1.0)
  {
  }

  lemma RetainedAnswers(full: seq<Snapshot>, t: real)
    requires Divided(full, t)
    ensures Divided(Retained(full), t)
    ensures LastAt(Retained(full), t) == if SomeAt(Retained(full), t) then LastAt(full, t) else None
  {
    hide LastAt;
    LastAtMeaning(Retained(full), t);
    if |full| > SNAPSHOT_MAX {
      LastAtSuffix(full, |full| - SNAPSHOT_MAX, t);
    }
  }

  lemma RetainedStep(full: seq<Snapshot>, snap: Snapshot)
    ensures var buf := Retained(full) + [snap];
      Retained([]) == [] && Retained(full + [snap]) == if |buf| > SNAPSHOT_MAX then buf[1..] else buf
  {
  }

  /** What a history answers: the search over what is retained of it. */
  function Answer(full: seq<Snapshot>, t: real): Option<Snapshot> {
    Probe(Retained(full), t, 0, |Retained(full)| - 1, None)
  }

  /** Two callers are the same tenant when they give the same name; no name, the empty name and the
      reserved name are one tenant. */
  predicate SameTenant(a: Option<string>, b: Option<string>) {
    a == b || (a in {None, Some(""), Some("__global__")} && b in {None, Some(""), Some("__global__")})
  }

  lemma TenantsApart(a: Option<string>, b: Option<string>)
    ensures BufferKey(a) == BufferKey(b) <==> SameTenant(a, b)
  {
    assert |"__global__"| == 10;
  }

  class PolicyLog {
    var buffers: map<string, seq<Snapshot>>
    /** Every snapshot ever taken, by buffer. */
    ghost var full: map<string, seq<Snapshot>>

    ghost predicate Valid()
      reads this
    {
      && buffers.Keys == full.Keys
      && forall k :: k in buffers ==> buffers[k] == Retained(full[k])
    }

    ghost function Taken(key: string): seq<Snapshot>
      reads this
    {
      if key in full then full[key] else []
    }

    constructor ()
      ensures Valid() && full == map[]
    {
      buffers := map[];
      full := map[];
    }

    /** `snapshot_policy`, given the version and the rules text and the clock's time. */
    method SnapshotPolicy(version: string, rules: string, time: real, tenant: Option<string>) returns (snap: Snapshot)
      requires Valid()
      modifies this
      ensures Valid() && snap == Snapshot(version, time, rules)
      ensures forall other :: SameTenant(tenant, other) ==>
                Taken(BufferKey(other)) == old(Taken(BufferKey(other))) + [snap]
      ensures forall other :: !SameTenant(tenant, other) ==> Taken(BufferKey(other)) == old(Taken(BufferKey(other)))
    {
      hide Retained, BufferKey, SameTenant;
      forall other ensures BufferKey(other) == BufferKey(tenant) <==> SameTenant(tenant, other) {
        TenantsApart(tenant, other);
      }
      snap := Snapshot(version, time, rules);
      var key := BufferKey(tenant);
      ghost var taken := Taken(key);
      var buf := (if key in buffers then buffers[key] else []) + [snap];
      if |buf| > SNAPSHOT_MAX {
        buf := buf[1..];
      }
      RetainedStep(taken, snap);
      buffers := buffers[key := buf];
      full := full[key := taken + [snap]];
    }

    /** `get_policy_at_time`: divided at t, the search answers as the full history does whenever some
        retained snapshot is old enough, and answers nothing only when every retained one is later. */
    method GetPolicyAtTime(t: real, tenant: Option<string>) returns (r: Option<Snapshot>)
      requires Valid()
      ensures var taken := Taken(BufferKey(tenant));
        && r == Answer(taken, t)
        && (r.Some? ==> r.value in Retained(taken) && r.value.time <= t)
        && (Divided(taken, t) ==> r == if SomeAt(Retained(taken), t) then LastAt(taken, t) else None)
    {
      var key := BufferKey(tenant);
      ghost var taken := Taken(key);
      if key !in buffers || buffers[key] == [] {
        return None;
      }
      r := Search(buffers[key], t);
      if Divided(taken, t) {
        RetainedAnswers(taken, t);
      }
    }
  }

  /** In time order, the buffer has no answer where the full history has one exactly when the full
      history's answer has been evicted and every retained snapshot is later. */
  lemma EvictedAnswer(full: seq<Snapshot>, t: real)
    requires Ordered(full)
    ensures LastAt(full, t).Some? && !SomeAt(Retained(full), t)
      <==> |full| > 100 && full[0].time <= t < full[|full| - 100].time
  {
    LastAtMeaning(full, t);
    if |full| > SNAPSHOT_MAX {
      var kept := full[|full| - SNAPSHOT_MAX..];
      assert kept[0] in kept && full[0] in full;
      assert forall s :: s in kept ==> kept[0].time <= s.time;
      assert forall s :: s in full ==> full[0].time <= s.time;
    }
  }
}
