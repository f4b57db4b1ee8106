/** Whole runs of the outbox: configuring, persisting, resolving, failing and crashing in any
    order. */
module OutboxRuns {
  import opened Wrappers
  import opened Strings
  import opened Outbox

  datatype Op =
    | Configured(value: Option<Config>, fault: Fault)
    | Persisted(id: string, size: nat, fault: Fault)
    | Acknowledged(id: string, fault: Fault)
    | DeadLettered(id: string, reason: string, fault: Fault)
    | Crashed

  ghost function Apply(alnum: char -> bool, s: State, op: Op): State {
    match op
    case Configured(value, fault) => Configure(s, value, fault)
    case Persisted(id, size, fault) => Persist(s, id, size, fault)
    case Acknowledged(id, fault) => Acknowledge(s, id, fault)
    case DeadLettered(id, reason, fault) => DeadLetter(alnum, s, id, reason, fault)
    case Crashed => Crash(s)
  }

  predicate InPending(s: State, id: string) {
    PendingName(id) in s.pending
  }

  ghost predicate InDead(alnum: char -> bool, s: State, id: string) {
    exists reason :: DeadName(alnum, id, reason) in s.dead
  }

  /** The state together with what has happened to record ids, and the directory contents when
      the counters were last recounted. */
  datatype World = World(
    s: State,
    created: set<string>,
    acked: set<string>,
    basePending: nat,
    baseBytes: nat)

  ghost function Step(alnum: char -> bool, w: World, op: Op): World {
    var s' := Apply(alnum, w.s, op);
    var entered := if op.Persisted? && !InPending(w.s, op.id) && InPending(s', op.id) then {op.id} else {};
    var acked := if op.Acknowledged? && InPending(w.s, op.id) && !InPending(s', op.id) then {op.id} else {};
    World(s', w.created + entered, w.acked + acked,
          if op.Configured? then |w.s.pending| else w.basePending,
          if op.Configured? then DiskUsage(w.s) else w.baseBytes)
  }

  /** Ids are drawn from a clock and a random UUID, so a new one names no file. */
  ghost predicate Fresh(alnum: char -> bool, w: World, op: Op) {
    op.Persisted? ==> op.id !in w.created && !InPending(w.s, op.id) && !InDead(alnum, w.s, op.id)
  }

  ghost function Run(alnum: char -> bool, w: World, ops: seq<Op>): World
    decreases |ops|
  {
    if ops == [] then w else Run(alnum, Step(alnum, w, ops[0]), ops[1..])
  }

  ghost predicate FreshRun(alnum: char -> bool, w: World, ops: seq<Op>)
    decreases |ops|
  {
    ops != [] ==> Fresh(alnum, w, ops[0]) && FreshRun(alnum, Step(alnum, w, ops[0]), ops[1..])
  }

  /** A fault that leaves the counters behind the directories: the operation took effect and was not
      counted, or existing files were not recounted. */
  predicate Uncounted(s: State, op: Op) {
    match op
    case Configured(value, fault) => value.Some? && fault != NoFault && (s.pending != map[] || s.dead != map[])
    case Persisted(_, size, fault) =>
      fault == Late && s.config.Some? && s.status.bytesOnDisk + size <= s.config.value.maxBytes
    case Acknowledged(id, fault) => fault == Late && s.config.Some? && InPending(s, id)
    case DeadLettered(id, _, fault) => fault == Late && s.config.Some? && InPending(s, id)
    case Crashed => false
  }

  /** No step of the run is an uncounted one. */
  ghost predicate CountedRun(alnum: char -> bool, w: World, ops: seq<Op>)
    decreases |ops|
  {
    ops != [] ==> !Uncounted(w.s, ops[0]) && CountedRun(alnum, Step(alnum, w, ops[0]), ops[1..])
  }

  // ----- Where every record is -----

  /** Exactly one of the three. */
  predicate OneOf(a: bool, b: bool, c: bool) {
    (a || b || c) && !(a && b) && !(b && c) && !(a && c)
  }

  ghost predicate Placed(alnum: char -> bool, w: World, id: string) {
    OneOf(InPending(w.s, id), id in w.acked, InDead(alnum, w.s, id))
  }

  /** A file in the pending directory holds the record of a created id, under its name. */
  ghost predicate HoldsRecord(w: World, name: string)
    requires name in w.s.pending
  {
    var record := w.s.pending[name].record;
    record.Some? && name == PendingName(record.value) && record.value in w.created
  }

  /** Every id created is in exactly one place, and the pending directory holds nothing else. */
  ghost predicate Ledger(alnum: char -> bool, w: World) {
    && (forall id :: id in w.created ==> Placed(alnum, w, id))
    && (forall name :: name in w.s.pending ==> HoldsRecord(w, name))
    && w.acked <= w.created
  }

  lemma PendingNameInjective(a: string, b: string)
    requires PendingName(a) == PendingName(b)
    ensures a == b
  {
    Cancel(a, ".json", b, ".json");
  }

  lemma DeadNameDetermines(alnum: char -> bool, a: string, r: string, b: string, q: string)
    requires !alnum('.') && DeadName(alnum, a, r) == DeadName(alnum, b, q)
    ensures a == b
  {
    var x, y := SafeReason(alnum, r), SafeReason(alnum, q);
    Cancel(a + "." + x, ".json", b + "." + y, ".json");
    LastMark(a, x, b, y, '.');
  }

  /** Only acknowledging and dead-lettering a record take it out of the pending directory. */
  lemma LeavesPending(alnum: char -> bool, w: World, op: Op, id: string)
    requires InPending(w.s, id) && !InPending(Step(alnum, w, op).s, id)
    ensures (op.Acknowledged? || op.DeadLettered?) && op.id == id
  {
    if op.Acknowledged? || op.DeadLettered? {
      PendingNameInjective(id, op.id);
    }
  }

  /** A dead-lettered file stays, and gains only the record that was moved. */
  lemma DeadAfter(alnum: char -> bool, w: World, op: Op, id: string)
    requires !alnum('.')
    ensures var s' := Apply(alnum, w.s, op);
      InDead(alnum, s', id) <==> InDead(alnum, w.s, id) || (op.DeadLettered? && op.id == id && s' != w.s)
  {
    var s' := Apply(alnum, w.s, op);
    if InDead(alnum, w.s, id) {
      var reason :| DeadName(alnum, id, reason) in w.s.dead;
      assert DeadName(alnum, id, reason) in s'.dead;
    }
    if op.DeadLettered? && s' != w.s {
      var moved := DeadName(alnum, op.id, op.reason);
      assert moved in s'.dead;
      if InDead(alnum, s', id) {
        var reason :| DeadName(alnum, id, reason) in s'.dead;
        if DeadName(alnum, id, reason) == moved {
          DeadNameDetermines(alnum, id, reason, op.id, op.reason);
        }
      }
    }
  }

  lemma PendingAfter(alnum: char -> bool, w: World, op: Op, id: string)
    ensures var s' := Apply(alnum, w.s, op);
      InPending(s', id) <==>
        if s' == w.s then InPending(w.s, id)
        else if op.Persisted? && op.id == id then InPending(w.s, id) || s'.pending != w.s.pending
        else if (op.Acknowledged? || op.DeadLettered?) && op.id == id then false
        else InPending(w.s, id)
  {
    if (op.Persisted? || op.Acknowledged? || op.DeadLettered?) && PendingName(op.id) == PendingName(id) {
      PendingNameInjective(op.id, id);
    }
  }

  lemma LedgerStep(alnum: char -> bool, w: World, op: Op)
    requires !alnum('.') && Ledger(alnum, w) && Fresh(alnum, w, op)
    ensures Ledger(alnum, Step(alnum, w, op))
  {
    hide Placed, Apply;
    var w' := Step(alnum, w, op);
    forall id | id in w'.created ensures Placed(alnum, w', id) {
      PlacedAfter(alnum, w, op, id);
    }
    forall name | name in w'.s.pending ensures HoldsRecord(w', name) {
      RecordAfter(alnum, w, op, name);
    }
    if op.Acknowledged? && InPending(w.s, op.id) {
      assert HoldsRecord(w, PendingName(op.id));
      PendingNameInjective(op.id, w.s.pending[PendingName(op.id)].record.value);
    }
  }

  lemma RecordAfter(alnum: char -> bool, w: World, op: Op, name: string)
    requires name in Step(alnum, w, op).s.pending
    requires forall n :: n in w.s.pending ==> HoldsRecord(w, n)
    requires Fresh(alnum, w, op)
    ensures HoldsRecord(Step(alnum, w, op), name)
  {
    hide InDead, PendingName;
    if name in w.s.pending {
      assert HoldsRecord(w, name);
      StepKeepsFile(alnum, w, op, name);
    } else {
      StepAddsFile(alnum, w, op, name);
    }
  }

  lemma StepKeepsFile(alnum: char -> bool, w: World, op: Op, name: string)
    requires name in w.s.pending && name in Step(alnum, w, op).s.pending && Fresh(alnum, w, op)
    ensures Step(alnum, w, op).s.pending[name] == w.s.pending[name]
    ensures w.created <= Step(alnum, w, op).created
  {
    hide InDead, PendingName;
  }

  lemma StepAddsFile(alnum: char -> bool, w: World, op: Op, name: string)
    requires name !in w.s.pending && name in Step(alnum, w, op).s.pending
    ensures op.Persisted? && name == PendingName(op.id) && op.id in Step(alnum, w, op).created
    ensures Step(alnum, w, op).s.pending[name].record == Some(op.id)
  {
    hide InDead, PendingName, DeadName, Bytes, Step;
    StepState(alnum, w, op);
    match op
    case Configured(_, _) =>
    case Persisted(_, _, _) =>
    case Acknowledged(_, _) =>
    case DeadLettered(_, _, _) =>
    case Crashed =>
  }

  /** What a step does to the state and to the ids created. */
  lemma StepState(alnum: char -> bool, w: World, op: Op)
    ensures var w' := Step(alnum, w, op);
      && w'.s == Apply(alnum, w.s, op) && w.created <= w'.created
      && (op.Persisted? && !InPending(w.s, op.id) && InPending(w'.s, op.id) ==> op.id in w'.created)
  {
    hide Apply, InDead, PendingName;
  }

  lemma PlacedAfter(alnum: char -> bool, w: World, op: Op, id: string)
    requires !alnum('.') && Ledger(alnum, w) && Fresh(alnum, w, op)
    requires id in Step(alnum, w, op).created
    ensures Placed(alnum, Step(alnum, w, op), id)
  {
    DeadAfter(alnum, w, op, id);
    PendingAfter(alnum, w, op, id);
    assert id in w.created ==> Placed(alnum, w, id);
  }

  /** In every run, with faults at any point and any number of crashes, each record ever created
      is pending, dead or acknowledged, and never two of these. */
  lemma {:induction false} LedgerHolds(alnum: char -> bool, w: World, ops: seq<Op>)
    requires !alnum('.') && Ledger(alnum, w) && FreshRun(alnum, w, ops)
    ensures Ledger(alnum, Run(alnum, w, ops))
    decreases |ops|
  {
    hide Ledger, Fresh, Step;
    if ops != [] {
      LedgerStep(alnum, w, ops[0]);
      LedgerHolds(alnum, Step(alnum, w, ops[0]), ops[1..]);
    }
  }

  /** Resolving a record a second time does nothing at all. */
  lemma ResolvingTwice(alnum: char -> bool, s: State, id: string, reason: string, reason': string, f: Fault, g: Fault)
    requires f != Early && s.config.Some?
    ensures var a, d := Acknowledge(s, id, f), DeadLetter(alnum, s, id, reason, f);
      && Acknowledge(a, id, g) == a && DeadLetter(alnum, a, id, reason', g) == a
      && Acknowledge(d, id, g) == d && DeadLetter(alnum, d, id, reason', g) == d
  {
  }

  // ----- What the counters say -----

  /** The counters equal the directory contents. */
  ghost predicate Synced(s: State) {
    && s.status.pending == |s.pending|
    && s.status.deadLetters == |s.dead|
    && s.status.bytesOnDisk == DiskUsage(s)
  }

  function Larger(a: int, b: int): int {
    if a < b then b else a
  }

  /** While configured: counters exact, records conserved since the last recount, and no growth
      beyond the limit. */
  ghost predicate Counted(w: World) {
    w.s.config.Some? ==>
      && Synced(w.s)
      && w.basePending + w.s.status.persisted == w.s.status.pending + w.s.status.acknowledged + w.s.status.deadLettered
      && w.s.status.bytesOnDisk <= Larger(w.s.config.value.maxBytes, w.baseBytes)
  }

  lemma MapSizes(d: Directory, k: string, f: File)
    ensures k !in d ==> |d[k := f]| == |d| + 1
    ensures k in d ==> |d - {k}| == |d| - 1
  {
    assert |d| == |d.Keys|;
    if k in d {
      assert (d - {k}).Keys == d.Keys - {k};
      assert |d - {k}| == |(d - {k}).Keys|;
    }
  }

  lemma CountedPersist(alnum: char -> bool, w: World, op: Op)
    requires op.Persisted? && !Uncounted(w.s, op) && Counted(w) && Fresh(alnum, w, op)
    ensures Counted(Step(alnum, w, op))
  {
    hide PendingName, InDead, Bytes;
    var name, f := PendingName(op.id), File(op.size, Some(op.id));
    assert name !in w.s.pending;
    assert Step(alnum, w, op).s == Persist(w.s, op.id, op.size, op.fault);
    hide Persist;
    StoredOrNot(w.s, op.id, op.size, op.fault);
    MapSizes(w.s.pending, name, f);
    BytesAdd(w.s.pending, name, f);
  }

  lemma StoredOrNot(s: State, id: string, size: nat, fault: Fault)
    ensures var t, name := Persist(s, id, size, fault), PendingName(id);
      && t.config == s.config && t.dead == s.dead
      && if s.config.None? || s.status.bytesOnDisk + size > s.config.value.maxBytes || fault == Early
         then t.pending == s.pending && t.status == s.status.(writeFailures := t.status.writeFailures)
         else t.pending == s.pending[name := File(size, Some(id))]
              && (fault == NoFault ==> t.status == s.status.(
                    persisted := s.status.persisted + 1, pending := s.status.pending + 1,
                    bytesOnDisk := s.status.bytesOnDisk + size))
              && (fault == Late ==> t.status == s.status.(writeFailures := t.status.writeFailures))
  {
    hide PendingName;
  }

  lemma CountedAcknowledge(alnum: char -> bool, w: World, op: Op)
    requires op.Acknowledged? && !Uncounted(w.s, op) && Counted(w)
    ensures Counted(Step(alnum, w, op))
  {
    var name := PendingName(op.id);
    if name in w.s.pending {
      MapSizes(w.s.pending, name, w.s.pending[name]);
      BytesRemove(w.s.pending, name);
    }
  }

  lemma CountedDeadLetter(alnum: char -> bool, w: World, op: Op)
    requires !alnum('.') && op.DeadLettered? && !Uncounted(w.s, op) && Counted(w) && Ledger(alnum, w)
    ensures Counted(Step(alnum, w, op))
  {
    hide Ledger, DeadName, PendingName, Bytes;
    var name, target := PendingName(op.id), DeadName(alnum, op.id, op.reason);
    if name in w.s.pending {
      var f := w.s.pending[name];
      DeadNameFree(alnum, w, op.id, op.reason);
      MapSizes(w.s.pending, name, f);
      BytesRemove(w.s.pending, name);
      MapSizes(w.s.dead, target, f);
      BytesAdd(w.s.dead, target, f);
    }
  }

  lemma NoBytes()
    ensures Bytes(map[]) == 0
  {
  }

  lemma CountedConfigure(alnum: char -> bool, w: World, op: Op)
    requires op.Configured? && !Uncounted(w.s, op)
    ensures Counted(Step(alnum, w, op))
  {
    hide Bytes;
    NoBytes();
  }

  lemma DeadNameFree(alnum: char -> bool, w: World, id: string, reason: string)
    requires Ledger(alnum, w) && InPending(w.s, id)
    ensures DeadName(alnum, id, reason) !in w.s.dead
  {
    var name := PendingName(id);
    assert HoldsRecord(w, name);
    PendingNameInjective(id, w.s.pending[name].record.value);
    assert Placed(alnum, w, id);
  }

  lemma CountedStep(alnum: char -> bool, w: World, op: Op)
    requires !alnum('.') && Counted(w) && Ledger(alnum, w) && Fresh(alnum, w, op) && !Uncounted(w.s, op)
    ensures Counted(Step(alnum, w, op))
  {
    match op
    case Configured(_, _) => CountedConfigure(alnum, w, op);
    case Persisted(_, _, _) => CountedPersist(alnum, w, op);
    case Acknowledged(_, _) => CountedAcknowledge(alnum, w, op);
    case DeadLettered(_, _, _) => CountedDeadLetter(alnum, w, op);
    case Crashed =>
  }

  /** In every run without an uncounted step, the counters equal the directory contents, nothing is
      lost or counted twice, and the disk use stays within the limit (or within what was there when
      the outbox was configured). */
  lemma {:induction false} CountersExact(alnum: char -> bool, w: World, ops: seq<Op>)
    requires !alnum('.') && Counted(w) && Ledger(alnum, w) && FreshRun(alnum, w, ops) && CountedRun(alnum, w, ops)
    ensures Counted(Run(alnum, w, ops))
    decreases |ops|
  {
    hide Ledger, Fresh, Step, Counted, Uncounted;
    if ops != [] {
      CountedStep(alnum, w, ops[0]);
      LedgerStep(alnum, w, ops[0]);
      CountersExact(alnum, Step(alnum, w, ops[0]), ops[1..]);
    }
  }

  /** The ids persisted, acknowledged and dead-lettered since the outbox was last configured. */
  datatype Totals = Totals(persisted: set<string>, acked: set<string>, buried: set<string>)

  /** The id that a step takes into or out of the pending directory, if it does. */
  ghost function Moved(alnum: char -> bool, w: World, op: Op, id: string): set<string> {
    if InPending(w.s, id) != InPending(Apply(alnum, w.s, op), id) then {id} else {}
  }

  ghost function Tally(alnum: char -> bool, w: World, t: Totals, op: Op): Totals {
    match op
    case Configured(_, _) => Totals({}, {}, {})
    case Persisted(id, _, _) => t.(persisted := t.persisted + Moved(alnum, w, op, id))
    case Acknowledged(id, _) => t.(acked := t.acked + Moved(alnum, w, op, id))
    case DeadLettered(id, _, _) => t.(buried := t.buried + Moved(alnum, w, op, id))
    case Crashed => t
  }

  ghost function TallyRun(alnum: char -> bool, w: World, t: Totals, ops: seq<Op>): Totals
    decreases |ops|
  {
    if ops == [] then t else TallyRun(alnum, Step(alnum, w, ops[0]), Tally(alnum, w, t, ops[0]), ops[1..])
  }

  /** The ids counted are what they are counted as, and while configured each counter is their number. */
  ghost predicate Tallied(alnum: char -> bool, w: World, t: Totals) {
    && t.persisted <= w.created && t.acked <= w.acked && (forall id :: id in t.buried ==> InDead(alnum, w.s, id))
    && (w.s.config.Some? ==>
          && w.s.status.persisted == |t.persisted|
          && w.s.status.acknowledged == |t.acked|
          && w.s.status.deadLettered == |t.buried|)
  }

  lemma PendingElsewhere(alnum: char -> bool, w: World, t: Totals, id: string)
    requires Ledger(alnum, w) && Tallied(alnum, w, t) && InPending(w.s, id)
    ensures id !in t.acked && id !in t.buried
  {
    assert HoldsRecord(w, PendingName(id));
    PendingNameInjective(id, w.s.pending[PendingName(id)].record.value);
    assert Placed(alnum, w, id);
  }

  lemma DeadStays(alnum: char -> bool, w: World, op: Op, buried: set<string>)
    requires !alnum('.') && forall id :: id in buried ==> InDead(alnum, w.s, id)
    ensures forall id :: id in buried ==> InDead(alnum, Step(alnum, w, op).s, id)
  {
    forall id | id in buried ensures InDead(alnum, Step(alnum, w, op).s, id) {
      DeadAfter(alnum, w, op, id);
    }
  }

  lemma TallyPersist(alnum: char -> bool, w: World, t: Totals, op: Op)
    requires op.Persisted? && !Uncounted(w.s, op) && Tallied(alnum, w, t) && Fresh(alnum, w, op)
    requires forall id :: id in t.buried ==> InDead(alnum, Step(alnum, w, op).s, id)
    ensures Tallied(alnum, Step(alnum, w, op), Tally(alnum, w, t, op))
  {
    hide InDead, PendingName;
  }

  lemma TallyAcknowledge(alnum: char -> bool, w: World, t: Totals, op: Op)
    requires op.Acknowledged? && !Uncounted(w.s, op) && Tallied(alnum, w, t)
    requires InPending(w.s, op.id) ==> op.id !in t.acked
    requires forall id :: id in t.buried ==> InDead(alnum, Step(alnum, w, op).s, id)
    ensures Tallied(alnum, Step(alnum, w, op), Tally(alnum, w, t, op))
  {
    hide InDead, PendingName;
  }

  lemma TallyDeadLetter(alnum: char -> bool, w: World, t: Totals, op: Op)
    requires op.DeadLettered? && !Uncounted(w.s, op) && Tallied(alnum, w, t)
    requires InPending(w.s, op.id) ==> op.id !in t.buried
    requires forall id :: id in t.buried ==> InDead(alnum, Step(alnum, w, op).s, id)
    requires InPending(w.s, op.id) && !InPending(Step(alnum, w, op).s, op.id) ==>
      InDead(alnum, Step(alnum, w, op).s, op.id)
    ensures Tallied(alnum, Step(alnum, w, op), Tally(alnum, w, t, op))
  {
    hide InDead, PendingName, DeadName;
  }

  lemma TallyStep(alnum: char -> bool, w: World, t: Totals, op: Op)
    requires !alnum('.') && Ledger(alnum, w) && Fresh(alnum, w, op) && !Uncounted(w.s, op) && Tallied(alnum, w, t)
    ensures Tallied(alnum, Step(alnum, w, op), Tally(alnum, w, t, op))
  {
    DeadStays(alnum, w, op, t.buried);
    match op
    case Configured(_, _) =>
    case Persisted(_, _, _) => TallyPersist(alnum, w, t, op);
    case Acknowledged(id, _) =>
      if InPending(w.s, id) {
        PendingElsewhere(alnum, w, t, id);
      }
      TallyAcknowledge(alnum, w, t, op);
    case DeadLettered(id, _, _) =>
      DeadAfter(alnum, w, op, id);
      if InPending(w.s, id) {
        PendingElsewhere(alnum, w, t, id);
      }
      TallyDeadLetter(alnum, w, t, op);
    case Crashed =>
  }

  /** In every run without an uncounted step, each total is the number of ids it stands for: those
      persisted, those acknowledged and those dead-lettered since the outbox was last configured. */
  lemma {:induction false} TotalsExact(alnum: char -> bool, w: World, t: Totals, ops: seq<Op>)
    requires !alnum('.') && Ledger(alnum, w) && FreshRun(alnum, w, ops) && CountedRun(alnum, w, ops)
    requires Tallied(alnum, w, t)
    ensures Tallied(alnum, Run(alnum, w, ops), TallyRun(alnum, w, t, ops))
    decreases |ops|
  {
    hide Ledger, Fresh, Step, Tallied, Tally, Uncounted;
    if ops != [] {
      TallyStep(alnum, w, t, ops[0]);
      LedgerStep(alnum, w, ops[0]);
      TotalsExact(alnum, Step(alnum, w, ops[0]), Tally(alnum, w, t, ops[0]), ops[1..]);
    }
  }

  /** While configured, the counters equal the directory contents. */
  ghost predicate InStep(s: State) {
    s.config.Some? ==> Synced(s)
  }

  /** The condition is exact: from exact counters, a step leaves them exact exactly when it is not an
      uncounted one. */
  lemma StepExact(alnum: char -> bool, w: World, op: Op)
    requires !alnum('.') && Counted(w) && Ledger(alnum, w) && Fresh(alnum, w, op)
    ensures InStep(Step(alnum, w, op).s) <==> !Uncounted(w.s, op)
  {
    hide Ledger, Fresh, Step, Synced;
    if Uncounted(w.s, op) {
      UncountedShows(alnum, w, op);
    } else {
      CountedStep(alnum, w, op);
    }
  }

  lemma UncountedShows(alnum: char -> bool, w: World, op: Op)
    requires Counted(w) && Fresh(alnum, w, op) && Uncounted(w.s, op)
    ensures Step(alnum, w, op).s.config.Some? && !Synced(Step(alnum, w, op).s)
  {
    hide Bytes, PendingName, DeadName, InDead;
    match op
    case Configured(_, _) =>
      assert w.s.pending != map[] ==> |w.s.pending| > 0;
      assert w.s.dead != map[] ==> |w.s.dead| > 0;
    case Persisted(id, size, _) =>
      StoredOrNot(w.s, id, size, Late);
      MapSizes(w.s.pending, PendingName(id), File(size, Some(id)));
    case Acknowledged(id, _) =>
      MapSizes(w.s.pending, PendingName(id), w.s.pending[PendingName(id)]);
    case DeadLettered(id, _, _) =>
      MapSizes(w.s.pending, PendingName(id), w.s.pending[PendingName(id)]);
    case Crashed =>
  }

  /** The clamps at zero never act while the counters are exact. */
  lemma ClampsIdle(s: State, id: string)
    requires Synced(s) && InPending(s, id)
    ensures s.status.pending - 1 >= 0
    ensures s.status.bytesOnDisk - s.pending[PendingName(id)].size >= 0
  {
    MapSizes(s.pending, PendingName(id), s.pending[PendingName(id)]);
    BytesRemove(s.pending, PendingName(id));
  }

  /** A fault after the rename makes them act: the record was stored but not counted, so
      acknowledging it counts below zero, and one more record is resolved than was persisted. */
  lemma LateFaultUncounted(limit: int)
    requires limit >= 1
    ensures var s := Configure(State(None, EMPTY_STATUS, map[], map[]), Some(Config(limit)), NoFault);
      var t := Acknowledge(Persist(s, "r", 1, Late), "r", NoFault);
      && s.status.pending == 0 && t.status.pending == 0 && t.status.bytesOnDisk == 0
      && t.status.persisted == 0 && t.status.acknowledged == 1
  {
    assert DiskUsage(State(None, EMPTY_STATUS, map[], map[])) == 0;
  }

  /** A failed `configure` over existing files leaves them uncounted, so a later record is let in beyond
      the limit. */
  lemma FailedConfigureOvershoots(limit: nat)
    requires limit >= 1
    ensures var s := Configure(
        State(None, EMPTY_STATUS, map[PendingName("a") := File(limit, Some("a"))], map[]), Some(Config(limit)), Early);
      var t := Persist(s, "b", 1, NoFault);
      InPending(t, "b") && t.status.pending == 1 && |t.pending| == 2 && DiskUsage(t) == limit + 1
  {
    hide Bytes;
    var a, b: string := PendingName("a"), PendingName("b");
    assert a[0] != b[0];
    var one := map[a := File(limit, Some("a"))];
    assert one == map[][a := File(limit, Some("a"))];
    NoBytes();
    BytesAdd(map[], a, File(limit, Some("a")));
    BytesAdd(one, b, File(1, Some("b")));
    MapSizes(one, b, File(1, Some("b")));
  }

  /** A restart recounts: whatever faults came before, the counters are exact again, and the
      pending records are exactly the unresolved ones, in file name order. */
  lemma Restart(alnum: char -> bool, w: World, ops: seq<Op>, config: Config)
    requires !alnum('.') && Ledger(alnum, w) && FreshRun(alnum, w, ops)
    ensures var before := Run(alnum, w, ops);
      var after := Step(alnum, Step(alnum, before, Crashed), Configured(Some(config), NoFault));
      && Counted(after)
      && (forall name :: name in after.s.pending ==> Named(after.s.pending[name].record, name))
      && (forall id :: InPending(after.s, id) <==> Unresolved(alnum, before, id))
  {
    hide Run, FreshRun, InDead, PendingName, Bytes;
    LedgerHolds(alnum, w, ops);
    var before := Run(alnum, w, ops);
    RestartKeeps(alnum, before, config);
    forall id ensures InPending(before.s, id) <==> Unresolved(alnum, before, id) {
      assert id in before.created ==> Placed(alnum, before, id);
      if InPending(before.s, id) {
        assert HoldsRecord(before, PendingName(id));
        PendingNameInjective(id, before.s.pending[PendingName(id)].record.value);
      }
    }
    forall name | name in before.s.pending ensures Named(before.s.pending[name].record, name) {
      assert HoldsRecord(before, name);
    }
  }

  /** The record that belongs under a file name. */
  ghost predicate Named(record: Option<string>, name: string) {
    record.Some? && name == PendingName(record.value)
  }

  lemma RestartKeeps(alnum: char -> bool, w: World, config: Config)
    ensures var after := Step(alnum, Step(alnum, w, Crashed), Configured(Some(config), NoFault));
      after.s.pending == w.s.pending && after.s.dead == w.s.dead && Counted(after)
  {
    hide Bytes, InDead;
    var mid := Step(alnum, w, Crashed);
    assert mid.s.pending == w.s.pending && mid.s.dead == w.s.dead;
    var after := Step(alnum, mid, Configured(Some(config), NoFault));
    assert after.s == Configure(mid.s, Some(config), NoFault);
    assert after.basePending == |mid.s.pending| && after.baseBytes == DiskUsage(mid.s);
  }

  ghost predicate Unresolved(alnum: char -> bool, w: World, id: string) {
    id in w.created && id !in w.acked && !InDead(alnum, w.s, id)
  }
}
