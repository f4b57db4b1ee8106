/** The durable outbox: two directories of records and the counters kept beside them. */
module Outbox {
  import opened Wrappers
  import opened CodePoints

  /** A `*.json` file: its size, and the id of the record it holds when it is well formed. */
  datatype File = File(size: nat, record: Option<string>)

  type Directory = map<string, File>

  datatype Config = Config(maxBytes: int)

  datatype Status = Status(
    enabled: bool,
    pending: int,
    deadLetters: int,
    bytesOnDisk: int,
    persisted: int,
    acknowledged: int,
    deadLettered: int,
    writeFailures: int)

  const EMPTY_STATUS := Status(false, 0, 0, 0, 0, 0, 0, 0)

  /** Module variables and directory contents. */
  datatype State = State(config: Option<Config>, status: Status, pending: Directory, dead: Directory)

  /** Where an operation on the file system fails, if it does: before the rename or removal that
      makes it take effect, or after it (the directory fsync). For `configure`, any failed check. */
  datatype Fault = NoFault | Early | Late

  // ----- File names -----

  function PendingName(id: string): string {
    id + ".json"
  }

  /** The reason with every character that is not alphanumeric (as `alnum` says) or an
      underscore replaced, cut to 64 characters. */
  function SafeReason(alnum: char -> bool, reason: string): string {
    var safe := seq(|reason|, i requires 0 <= i < |reason| =>
      if alnum(reason[i]) || reason[i] == '_' then reason[i] else '_');
    var cut := if |safe| <= 64 then safe else safe[..64];
    if cut == "" then "unknown" else cut
  }

  function DeadName(alnum: char -> bool, id: string, reason: string): string {
    id + "." + SafeReason(alnum, reason) + ".json"
  }

  /** At most 64 characters, each kept when it is alphanumeric or an underscore and replaced by an
      underscore otherwise; no reason at all reads "unknown". */
  lemma SafeReasonMeaning(alnum: char -> bool, reason: string)
    ensures var r := SafeReason(alnum, reason);
      if reason == "" then r == "unknown"
      else
        && |r| == (if |reason| < 64 then |reason| else 64)
        && forall i :: 0 <= i < |r| ==> r[i] == if alnum(reason[i]) then reason[i] else '_'
  {
  }

  // ----- Operations on the state -----

  ghost function Bytes(d: Directory): nat {
    if d == map[] then 0
    else
      var k :| k in d;
      d[k].size + Bytes(d - {k})
  }

  ghost function DiskUsage(s: State): nat {
    Bytes(s.pending) + Bytes(s.dead)
  }

  /** `configure`: the counters are recounted from the directories, unless a check on them raises
      first; the outbox is configured all the same. */
  ghost function Configure(s: State, value: Option<Config>, fault: Fault): State {
    if value.None? then s.(config := None, status := EMPTY_STATUS)
    else if fault != NoFault then s.(config := value, status := EMPTY_STATUS)
    else
      s.(config := value, status := EMPTY_STATUS.(
         enabled := true, pending := |s.pending|, deadLetters := |s.dead|, bytesOnDisk := DiskUsage(s)))
  }

  function Max0(n: int): int {
    if n < 0 then 0 else n
  }

  function Failed(s: State): State {
    s.(status := s.status.(writeFailures := s.status.writeFailures + 1))
  }

  /** `persist` of a record of `size` bytes under a new id. */
  function Persist(s: State, id: string, size: nat, fault: Fault): State {
    if s.config.None? then s
    else if s.status.bytesOnDisk + size > s.config.value.maxBytes then Failed(s)
    else if fault == Early then Failed(s)
    else
      var stored := s.(pending := s.pending[PendingName(id) := File(size, Some(id))]);
      if fault == Late then Failed(stored)
      else
        stored.(status := s.status.(
          persisted := s.status.persisted + 1,
          pending := s.status.pending + 1,
          bytesOnDisk := s.status.bytesOnDisk + size))
  }

  function Acknowledge(s: State, id: string, fault: Fault): State {
    var name := PendingName(id);
    if s.config.None? || name !in s.pending || fault == Early then s
    else
      var removed := s.(pending := s.pending - {name});
      if fault == Late then removed
      else
        removed.(status := s.status.(
          acknowledged := s.status.acknowledged + 1,
          pending := Max0(s.status.pending - 1),
          bytesOnDisk := Max0(s.status.bytesOnDisk - s.pending[name].size)))
  }

  function DeadLetter(alnum: char -> bool, s: State, id: string, reason: string, fault: Fault): State {
    var name := PendingName(id);
    if s.config.None? || name !in s.pending || fault == Early then s
    else
      var moved := s.(
        pending := s.pending - {name},
        dead := s.dead[DeadName(alnum, id, reason) := s.pending[name]]);
      if fault == Late then moved
      else
        moved.(status := s.status.(
          deadLettered := s.status.deadLettered + 1,
          pending := Max0(s.status.pending - 1),
          deadLetters := s.status.deadLetters + 1))
  }

  /** The process ends; the directories stay. */
  function Crash(s: State): State {
    s.(config := None, status := EMPTY_STATUS)
  }

  // ----- The module itself -----

  datatype Outcome = Done | Skipped | Raised

  class DurableOutbox {
    /** Python's `str.isalnum` of one character. */
    const alnum: char -> bool

    var config: Option<Config>
    var status: Status
    var pending: Directory
    var dead: Directory

    function View(): State
      reads this
    {
      State(config, status, pending, dead)
    }

    constructor (alnum: char -> bool, pending: Directory, dead: Directory)
      ensures View() == State(None, EMPTY_STATUS, pending, dead)
    {
      this.alnum := alnum;
      config, status, this.pending, this.dead := None, EMPTY_STATUS, pending, dead;
    }

    /** Failed checks and over-full directories raise, but the outbox stays configured. */
    method DoConfigure(value: Option<Config>, fault: Fault) returns (outcome: Outcome)
      modifies this
      ensures View() == Configure(old(View()), value, fault)
      ensures outcome == Raised <==>
        value.Some? && (fault != NoFault || DiskUsage(old(View())) > value.value.maxBytes)
    {
      config := value;
      status := EMPTY_STATUS;
      if value.None? {
        return Done;
      }
      if fault != NoFault {
        return Raised;
      }
      var p := TotalSize(pending);
      var d := TotalSize(dead);
      status := status.(enabled := true, pending := |pending|, deadLetters := |dead|, bytesOnDisk := p + d);
      outcome := if status.bytesOnDisk > value.value.maxBytes then Raised else Done;
    }

    method DoPersist(id: string, size: nat, fault: Fault) returns (outcome: Outcome)
      modifies this
      ensures View() == Persist(old(View()), id, size, fault)
      ensures outcome == (if old(config).None? then Skipped
                          else if old(status).bytesOnDisk + size > old(config).value.maxBytes then Raised
                          else if fault != NoFault then Raised
                          else Done)
    {
      if config.None? {
        return Skipped;
      }
      if status.bytesOnDisk + size > config.value.maxBytes {
        status := status.(writeFailures := status.writeFailures + 1);
        return Raised;
      }
      if fault != Early {
        pending := pending[PendingName(id) := File(size, Some(id))];
      }
      if fault != NoFault {
        status := status.(writeFailures := status.writeFailures + 1);
        return Raised;
      }
      status := status.(persisted := status.persisted + 1);
      status := status.(pending := status.pending + 1);
      status := status.(bytesOnDisk := status.bytesOnDisk + size);
      outcome := Done;
    }

    method DoAcknowledge(id: string, fault: Fault) returns (outcome: Outcome)
      modifies this
      ensures View() == Acknowledge(old(View()), id, fault)
      ensures outcome == (if old(config).None? || PendingName(id) !in old(pending) then Skipped
                          else if fault != NoFault then Raised else Done)
    {
      var path := PendingName(id);
      if config.None? || path !in pending {
        return Skipped;
      }
      if fault == Early {
        return Raised;
      }
      var size := pending[path].size;
      pending := pending - {path};
      if fault == Late {
        return Raised;
      }
      status := status.(acknowledged := status.acknowledged + 1);
      status := status.(pending := Max0(status.pending - 1));
      status := status.(bytesOnDisk := Max0(status.bytesOnDisk - size));
      outcome := Done;
    }

    method DoDeadLetter(id: string, reason: string, fault: Fault) returns (outcome: Outcome)
      modifies this
      ensures View() == DeadLetter(alnum, old(View()), id, reason, fault)
      ensures outcome == (if old(config).None? || PendingName(id) !in old(pending) then Skipped
                          else if fault != NoFault then Raised else Done)
    {
      var source := PendingName(id);
      if config.None? || source !in pending {
        return Skipped;
      }
      if fault == Early {
        return Raised;
      }
      dead := dead[DeadName(alnum, id, reason) := pending[source]];
      pending := pending - {source};
      if fault == Late {
        return Raised;
      }
      status := status.(deadLettered := status.deadLettered + 1);
      status := status.(pending := Max0(status.pending - 1));
      status := status.(deadLetters := status.deadLetters + 1);
      outcome := Done;
    }

    /** `pending_records`: the records in file name order, or a failure when a file is invalid. */
    method PendingRecords() returns (ids: Option<seq<string>>)
      ensures config.None? ==> ids == Some([])
      ensures config.Some? ==>
        (ids.Some? <==> forall name :: name in pending ==> pending[name].record.Some?)
      ensures config.Some? && ids.Some? ==>
        var names := SortedList(pending.Keys);
        |ids.value| == |names| && forall i :: 0 <= i < |names| ==> ids.value[i] == pending[names[i]].record.value
    {
      if config.None? {
        return Some([]);
      }
      var names := SortedList(pending.Keys);
      var records: seq<string> := [];
      for i := 0 to |names|
        invariant |records| == i
        invariant forall j :: 0 <= j < i ==> pending[names[j]].record == Some(records[j])
      {
        assert names[i] in names;
        var parsed := pending[names[i]].record;
        if parsed.None? {
          return None;
        }
        records := records + [parsed.value];
      }
      forall name | name in pending ensures pending[name].record.Some? {
        assert name in names;
      }
      ids := Some(records);
    }
  }

  /** `sum(path.stat().st_size ...)` over one directory. */
  method TotalSize(d: Directory) returns (total: nat)
    ensures total == Bytes(d)
  {
    total := 0;
    var rest := d;
    while rest != map[]
      invariant total + Bytes(rest) == Bytes(d)
      decreases |rest|
    {
      assert rest.Keys != {};
      var k :| k in rest.Keys;
      BytesRemove(rest, k);
      total := total + rest[k].size;
      assert (rest - {k}).Keys == rest.Keys - {k};
      assert |rest| == |rest.Keys| && |rest - {k}| == |(rest - {k}).Keys|;
      rest := rest - {k};
    }
  }

  /** The total does not depend on the order of summation. */
  lemma {:induction false} BytesRemove(d: Directory, k: string)
    requires k in d
    ensures Bytes(d) == d[k].size + Bytes(d - {k})
    decreases |d|
  {
    var j :| j in d && Bytes(d) == d[j].size + Bytes(d - {j});
    if j != k {
      assert |d - {j}| < |d| && |d - {k}| < |d| by {
        assert (d - {j}).Keys == d.Keys - {j} && (d - {k}).Keys == d.Keys - {k};
        assert |d| == |d.Keys| && |d - {j}| == |(d - {j}).Keys| && |d - {k}| == |(d - {k}).Keys|;
      }
      BytesRemove(d - {j}, k);
      BytesRemove(d - {k}, j);
      assert d - {j} - {k} == d - {k} - {j};
    }
  }

  lemma BytesAdd(d: Directory, k: string, f: File)
    requires k !in d
    ensures Bytes(d[k := f]) == Bytes(d) + f.size
  {
    BytesRemove(d[k := f], k);
    assert d[k := f] - {k} == d;
  }
}
