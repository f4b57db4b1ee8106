/** The client side of quota escrow: local shares granted by epoch, spent call by call. Shares
    and epochs are exact numbers. */
module Escrow {
  import opened Wrappers

  /** What a response can carry where a number is expected. */
  datatype Value = Num(n: real) | NotANumber | Infinite | Flag(b: bool) | Other

  datatype Grant = Grant(remaining: int, epoch: real, consumed: int)

  type Grants = map<string, Grant>

  /** One entry of the `quota_escrow` map. */
  datatype Entry = Malformed | Share(share: Value, epoch: Value)

  datatype Decision = Decision(escrow: bool, allowed: bool, remaining: int)

  datatype Report = Report(consumed: int, epoch: real)

  // ----- One locked section each -----

  /** Not a number, negative, or not newer than the grant in effect. */
  predicate Accepted(m: Grants, rule: string, share: Value, epoch: Value) {
    share.Num? && epoch.Num? && share.n >= 0.0 && (rule in m ==> epoch.n > m[rule].epoch)
  }

  function Granted(m: Grants, rule: string, share: Value, epoch: Value): Grants {
    if Accepted(m, rule, share, epoch) then m[rule := Grant(share.n.Floor, epoch.n, 0)] else m
  }

  function Kept(m: Grants, rules: set<string>): Grants {
    map rule | rule in m && rule in rules :: m[rule]
  }

  predicate Allowed(m: Grants, rule: string) {
    rule in m && m[rule].remaining > 0
  }

  function Spent(m: Grants, rule: string): Grants {
    if Allowed(m, rule) then m[rule := m[rule].(remaining := m[rule].remaining - 1, consumed := m[rule].consumed + 1)]
    else m
  }

  function SpendDecision(m: Grants, rule: string): Decision {
    if rule !in m then Decision(false, false, 0)
    else if m[rule].remaining <= 0 then Decision(true, false, 0)
    else Decision(true, true, m[rule].remaining - 1)
  }

  function PeekDecision(m: Grants, rule: string): Decision {
    if rule !in m then Decision(false, false, 0)
    else Decision(true, m[rule].remaining > 0, m[rule].remaining)
  }

  function Reports(m: Grants): map<string, Report> {
    map rule | rule in m :: Report(m[rule].consumed, m[rule].epoch)
  }

  /** The grants of a response, applied one after another. */
  function GrantAll(m: Grants, entries: seq<(string, Entry)>): Grants {
    if entries == [] then m
    else
      var (rule, e) := entries[|entries| - 1];
      var before := GrantAll(m, entries[..|entries| - 1]);
      if e.Share? then Granted(before, rule, e.share, e.epoch) else before
  }

  function Rules(entries: seq<(string, Entry)>): set<string> {
    set e | e in entries :: e.0
  }

  function Responded(m: Grants, response: Option<seq<(string, Entry)>>): Grants {
    if response.None? then map[] else GrantAll(Kept(m, Rules(response.value)), response.value)
  }

  class EscrowMeter {
    var grants: Grants

    constructor ()
      ensures grants == map[]
    {
      grants := map[];
    }

    /** `apply_escrow_grant` */
    method ApplyGrant(rule: string, share: Value, epoch: Value)
      modifies this
      ensures grants == Granted(old(grants), rule, share, epoch)
    {
      if !share.Num? || !epoch.Num? {
        return;
      }
      if share.n < 0.0 {
        return;
      }
      if rule in grants && epoch.n <= grants[rule].epoch {
        return;
      }
      grants := grants[rule := Grant(share.n.Floor, epoch.n, 0)];
    }

    /** `apply_escrow_response`, when nothing else takes the lock between its sections. */
    method ApplyResponse(response: Option<seq<(string, Entry)>>)
      modifies this
      ensures grants == Responded(old(grants), response)
    {
      if response.None? {
        grants := map[];
        return;
      }
      var entries := response.value;
      grants := map rule | rule in grants && rule in Rules(entries) :: grants[rule];
      for i := 0 to |entries|
        invariant grants == GrantAll(Kept(old(grants), Rules(entries)), entries[..i])
      {
        assert entries[..i + 1][..i] == entries[..i];
        if entries[i].1.Share? {
          ApplyGrant(entries[i].0, entries[i].1.share, entries[i].1.epoch);
        }
      }
      assert entries[..|entries|] == entries;
    }

    /** `spend_escrow_share` */
    method Spend(rule: string) returns (d: Decision)
      modifies this
      ensures grants == Spent(old(grants), rule)
      ensures d == SpendDecision(old(grants), rule)
    {
      if rule !in grants {
        return Decision(false, false, 0);
      }
      if grants[rule].remaining <= 0 {
        return Decision(true, false, 0);
      }
      var g := grants[rule];
      g := g.(remaining := g.remaining - 1);
      g := g.(consumed := g.consumed + 1);
      grants := grants[rule := g];
      d := Decision(true, true, g.remaining);
    }

    /** `peek_escrow_share` */
    method Peek(rule: string) returns (d: Decision)
      ensures d == PeekDecision(grants, rule)
    {
      if rule !in grants {
        return Decision(false, false, 0);
      }
      d := Decision(true, grants[rule].remaining > 0, grants[rule].remaining);
    }

    /** `snapshot_consumption` */
    method SnapshotConsumption() returns (reports: map<string, Report>)
      ensures reports == Reports(grants)
    {
      reports := map rule | rule in grants :: Report(grants[rule].consumed, grants[rule].epoch);
    }
  }

  /** The check-only call predicts the decision of the spending call. */
  lemma PeekPredictsSpend(m: Grants, rule: string)
    ensures var p, s := PeekDecision(m, rule), SpendDecision(m, rule);
      && p.escrow == s.escrow && p.allowed == s.allowed && p.allowed == Allowed(m, rule)
      && (p.allowed ==> s.remaining == p.remaining - 1)
  {
  }

  // ----- Interleavings -----

  /** The atomic steps of all threads. A response is a Keep followed by Grants, and any other
      step can fall in between. */
  datatype Step =
    | GrantStep(rule: string, share: Value, epoch: Value)
    | KeepStep(rules: set<string>)
    | SpendStep(rule: string)
    | SnapshotStep

  function Apply(m: Grants, step: Step): Grants {
    match step
    case GrantStep(rule, share, epoch) => Granted(m, rule, share, epoch)
    case KeepStep(rules) => Kept(m, rules)
    case SpendStep(rule) => Spent(m, rule)
    case SnapshotStep => m
  }

  function Run(m: Grants, steps: seq<Step>): Grants {
    if steps == [] then m else Apply(Run(m, steps[..|steps| - 1]), steps[|steps| - 1])
  }

  /** The grants of a response as steps. */
  function EntrySteps(entries: seq<(string, Entry)>): seq<Step> {
    if entries == [] then []
    else
      var (rule, e) := entries[|entries| - 1];
      EntrySteps(entries[..|entries| - 1]) + if e.Share? then [GrantStep(rule, e.share, e.epoch)] else []
  }

  /** A response that is not interrupted is a Keep followed by its grants. */
  lemma {:induction false} ResponseIsSteps(m: Grants, entries: seq<(string, Entry)>)
    ensures GrantAll(m, entries) == Run(m, EntrySteps(entries))
    ensures Responded(m, None) == Apply(m, KeepStep({}))
    ensures Responded(m, Some(entries)) == GrantAll(Apply(m, KeepStep(Rules(entries))), entries)
  {
    assert Kept(m, {}) == map[];
    if entries != [] {
      var before, last := entries[..|entries| - 1], entries[|entries| - 1];
      ResponseIsSteps(m, before);
      if last.1.Share? {
        var step := GrantStep(last.0, last.1.share, last.1.epoch);
        assert (EntrySteps(before) + [step])[..|EntrySteps(before)|] == EntrySteps(before);
      } else {
        assert EntrySteps(before) + [] == EntrySteps(before);
      }
    }
  }

  /** How many of the steps are allowed spends of the rule. */
  function Spends(m: Grants, steps: seq<Step>, rule: string): nat {
    if steps == [] then 0
    else
      var before, last := steps[..|steps| - 1], steps[|steps| - 1];
      Spends(m, before, rule) + if last == SpendStep(rule) && Allowed(Run(m, before), rule) then 1 else 0
  }

  /** The floored share that a step hands to the rule, if it is an accepted grant. */
  function Handed(m: Grants, step: Step, rule: string): nat {
    if step.GrantStep? && step.rule == rule && Accepted(m, rule, step.share, step.epoch) then step.share.n.Floor else 0
  }

  /** The sum of the accepted floored shares of the rule. */
  function Shares(m: Grants, steps: seq<Step>, rule: string): nat {
    if steps == [] then 0
    else
      var before, last := steps[..|steps| - 1], steps[|steps| - 1];
      Shares(m, before, rule) + Handed(Run(m, before), last, rule)
  }

  function Remaining(m: Grants, rule: string): int {
    if rule in m then m[rule].remaining else 0
  }

  ghost predicate NonNegative(m: Grants) {
    forall rule :: rule in m ==> m[rule].remaining >= 0 && m[rule].consumed >= 0
  }

  /** The share the last accepted grant of a live rule handed out. */
  function LastShare(m: Grants, steps: seq<Step>, rule: string): int {
    if steps == [] then if rule in m then m[rule].remaining + m[rule].consumed else 0
    else
      var before, last := steps[..|steps| - 1], steps[|steps| - 1];
      if last.GrantStep? && last.rule == rule && Accepted(Run(m, before), rule, last.share, last.epoch)
      then last.share.n.Floor
      else LastShare(m, before, rule)
  }

  lemma {:induction false} RunNonNegative(m: Grants, steps: seq<Step>)
    requires NonNegative(m)
    ensures NonNegative(Run(m, steps))
  {
    if steps != [] {
      RunNonNegative(m, steps[..|steps| - 1]);
    }
  }

  /** In every interleaving, what is left of a live rule's share and what was used of it add up
      to the floored share it was granted, and neither is negative. */
  lemma {:induction false} ShareSplit(m: Grants, steps: seq<Step>, rule: string)
    requires NonNegative(m) && rule in Run(m, steps)
    ensures var g := Run(m, steps)[rule];
      g.remaining >= 0 && g.consumed >= 0 && g.remaining + g.consumed == LastShare(m, steps, rule)
  {
    RunNonNegative(m, steps);
    if steps != [] {
      var before, last := steps[..|steps| - 1], steps[|steps| - 1];
      if rule in Run(m, before) {
        ShareSplit(m, before, rule);
      }
    }
  }

  /** What a step takes away unspent, by replacing or dropping the rule's grant. */
  function GivenUp(m: Grants, step: Step, rule: string): int {
    match step
    case GrantStep(r, share, epoch) => if r == rule && Accepted(m, rule, share, epoch) then Remaining(m, rule) else 0
    case KeepStep(rules) => if rule in rules then 0 else Remaining(m, rule)
    case _ => 0
  }

  function Forfeited(m: Grants, steps: seq<Step>, rule: string): int {
    if steps == [] then 0
    else
      var before, last := steps[..|steps| - 1], steps[|steps| - 1];
      Forfeited(m, before, rule) + GivenUp(Run(m, before), last, rule)
  }

  /** In every interleaving, the shares a rule was granted are what was spent, what is left and
      what was given up unspent. */
  lemma {:induction false} SharesConserved(m: Grants, steps: seq<Step>, rule: string)
    requires NonNegative(m)
    ensures Remaining(m, rule) + Shares(m, steps, rule) ==
            Spends(m, steps, rule) + Remaining(Run(m, steps), rule) + Forfeited(m, steps, rule)
    ensures Remaining(Run(m, steps), rule) >= 0 && Forfeited(m, steps, rule) >= 0
  {
    RunNonNegative(m, steps);
    if steps != [] {
      var before := steps[..|steps| - 1];
      RunNonNegative(m, before);
      SharesConserved(m, before, rule);
    }
  }

  // ----- Many instances -----

  function TotalSpends(runs: seq<seq<Step>>, rule: string): nat {
    if runs == [] then 0 else TotalSpends(runs[..|runs| - 1], rule) + Spends(map[], runs[|runs| - 1], rule)
  }

  function TotalShares(runs: seq<seq<Step>>, rule: string): nat {
    if runs == [] then 0 else TotalShares(runs[..|runs| - 1], rule) + Shares(map[], runs[|runs| - 1], rule)
  }

  /** However many instances run, the fleet never spends more than the shares it accepted. */
  lemma {:induction false} FleetNeverOverspends(runs: seq<seq<Step>>, rule: string)
    ensures TotalSpends(runs, rule) <= TotalShares(runs, rule)
  {
    if runs != [] {
      FleetNeverOverspends(runs[..|runs| - 1], rule);
      SharesConserved(map[], runs[|runs| - 1], rule);
    }
  }

  // ----- Epochs and reports -----

  /** The rule is never without a grant along the way. */
  ghost predicate Live(m: Grants, steps: seq<Step>, rule: string) {
    forall i :: 0 <= i <= |steps| ==> rule in Run(m, steps[..i])
  }

  /** How many grants of the rule were accepted. */
  function Renewals(m: Grants, steps: seq<Step>, rule: string): nat {
    if steps == [] then 0
    else
      var before, last := steps[..|steps| - 1], steps[|steps| - 1];
      Renewals(m, before, rule)
      + if last.GrantStep? && last.rule == rule && Accepted(Run(m, before), rule, last.share, last.epoch) then 1 else 0
  }

  lemma LivePrefix(m: Grants, steps: seq<Step>, rule: string)
    requires Live(m, steps, rule) && steps != []
    ensures Live(m, steps[..|steps| - 1], rule)
    ensures rule in Run(m, steps) && rule in Run(m, steps[..|steps| - 1])
  {
    var before := steps[..|steps| - 1];
    assert steps[..|steps|] == steps;
    forall i | 0 <= i <= |before| ensures rule in Run(m, before[..i]) {
      assert before[..i] == steps[..i];
    }
  }

  /** While a rule stays live its epoch never goes back, and it moves exactly when a grant is
      accepted. Until then, the consumption counter moves by one for each allowed spend. */
  lemma {:induction false} EpochAndCounter(m: Grants, steps: seq<Step>, rule: string)
    requires Live(m, steps, rule)
    ensures rule in m && rule in Run(m, steps)
    ensures var g := Run(m, steps)[rule];
      if Renewals(m, steps, rule) == 0
      then g.epoch == m[rule].epoch && g.consumed == m[rule].consumed + Spends(m, steps, rule)
      else g.epoch > m[rule].epoch
  {
    assert steps[..0] == [];
    if steps == [] {
      assert Run(m, steps[..0]) == m;
    } else {
      LivePrefix(m, steps, rule);
      EpochAndCounter(m, steps[..|steps| - 1], rule);
    }
  }

  lemma {:induction false} RunJoin(m: Grants, a: seq<Step>, b: seq<Step>, rule: string)
    ensures Run(m, a + b) == Run(Run(m, a), b)
    ensures Spends(m, a + b, rule) == Spends(m, a, rule) + Spends(Run(m, a), b, rule)
    ensures Renewals(m, a + b, rule) == Renewals(m, a, rule) + Renewals(Run(m, a), b, rule)
  {
    hide Apply, Accepted, Allowed;
    if b == [] {
      assert a + b == a;
    } else {
      var front, last := b[..|b| - 1], b[|b| - 1];
      RunJoin(m, a, front, rule);
      assert (a + b)[..|a + b| - 1] == a + front && (a + b)[|a + b| - 1] == last;
    }
  }

  lemma LiveJoin(m: Grants, a: seq<Step>, b: seq<Step>, rule: string)
    requires Live(m, a + b, rule)
    ensures Live(m, a, rule)
  {
    forall i | 0 <= i <= |a| ensures rule in Run(m, a[..i]) {
      assert a[..i] == (a + b)[..i];
    }
  }

  /** From an accepted grant on, a snapshot carries that grant's epoch and counts the allowed spends of
      the epoch so far. Of all spends up to the next accepted grant it misses those that come after it,
      so it reports exactly the epoch's spends when and only when none does. */
  lemma SnapshotMisses(
      m: Grants, rule: string, share: Value, epoch: Value, before: seq<Step>, after: seq<Step>)
    requires Accepted(m, rule, share, epoch)
    requires Live(Granted(m, rule, share, epoch), before + after, rule)
    requires Renewals(Granted(m, rule, share, epoch), before + after, rule) == 0
    ensures var g := Granted(m, rule, share, epoch);
      var seen := Run(g, before);
      && rule in seen
      && Reports(seen)[rule].epoch == epoch.n
      && Reports(seen)[rule].consumed == Spends(g, before, rule)
      && Spends(g, before + after, rule) - Reports(seen)[rule].consumed == Spends(seen, after, rule)
      && (Reports(seen)[rule].consumed == Spends(g, before + after, rule) <==> Spends(seen, after, rule) == 0)
  {
    hide Run, Spends, Renewals, Live;
    var g := Granted(m, rule, share, epoch);
    RunJoin(g, before, after, rule);
    LiveJoin(g, before, after, rule);
    EpochAndCounter(g, before, rule);
  }

  /** From an accepted grant on, whatever else happens until the next one, a spend is allowed exactly while
      fewer than the floored share have been, and the decision says how many are left after it. */
  lemma SpendsWithinShare(m: Grants, rule: string, share: Value, epoch: Value, steps: seq<Step>)
    requires NonNegative(m) && Accepted(m, rule, share, epoch)
    requires Live(Granted(m, rule, share, epoch), steps, rule)
    requires Renewals(Granted(m, rule, share, epoch), steps, rule) == 0
    ensures var g := Granted(m, rule, share, epoch);
      var d, used := SpendDecision(Run(g, steps), rule), Spends(g, steps, rule);
      && d.escrow && used <= share.n.Floor
      && (d.allowed <==> used < share.n.Floor)
      && d.remaining == if d.allowed then share.n.Floor - used - 1 else 0
  {
    hide Run, Spends, Renewals, Live;
    var g := Granted(m, rule, share, epoch);
    EpochAndCounter(g, steps, rule);
    ShareSplit(g, steps, rule);
    LastShareKept(g, steps, rule);
  }

  lemma {:induction false} LastShareKept(m: Grants, steps: seq<Step>, rule: string)
    requires rule in m && Renewals(m, steps, rule) == 0
    ensures LastShare(m, steps, rule) == m[rule].remaining + m[rule].consumed
  {
    if steps != [] {
      LastShareKept(m, steps[..|steps| - 1], rule);
    }
  }

  function Attempts(rule: string, k: nat): seq<Step> {
    seq(k, i => SpendStep(rule))
  }

  /** Of the attempts made in a row after an accepted grant, exactly the first ones are allowed, as many as
      the floored share. */
  lemma {:induction false} FirstSpends(m: Grants, rule: string, share: Value, epoch: Value, k: nat)
    requires Accepted(m, rule, share, epoch)
    ensures var n, after := share.n.Floor, Run(Granted(m, rule, share, epoch), Attempts(rule, k));
      && n >= 0
      && after == m[rule := if k <= n then Grant(n - k, epoch.n, k) else Grant(0, epoch.n, n)]
      && SpendDecision(after, rule).allowed == PeekDecision(after, rule).allowed == (k < n)
  {
    if k > 0 {
      FirstSpends(m, rule, share, epoch, k - 1);
      assert Attempts(rule, k)[..k - 1] == Attempts(rule, k - 1);
    }
  }

  /** A grant that was accepted once is never accepted again while the rule stays live, however
      much of it has been spent since. */
  lemma ReplayIgnored(m: Grants, rule: string, share: Value, epoch: Value, steps: seq<Step>, share': Value)
    requires Accepted(m, rule, share, epoch) && Live(Granted(m, rule, share, epoch), steps, rule)
    ensures var n := Run(Granted(m, rule, share, epoch), steps);
      Granted(n, rule, share', epoch) == n
  {
    EpochAndCounter(Granted(m, rule, share, epoch), steps, rule);
  }

  /** A rule left out of one response forgets its epoch, so an older grant is accepted again. */
  lemma DroppedForgetsEpoch(rule: string)
    ensures var grant := GrantStep(rule, Num(5.0), Num(1.0));
      var steps := [grant, SpendStep(rule), KeepStep({}), grant];
      && Run(map[], steps) == map[rule := Grant(5, 1.0, 0)]
      && Spends(map[], steps, rule) == 1 && Shares(map[], steps, rule) == 10
  {
    hide Run, Spends, Shares;
    var grant, spend, keep := GrantStep(rule, Num(5.0), Num(1.0)), SpendStep(rule), KeepStep({});
    assert 5.0.Floor == 5;
    Snoc(map[], [], grant, rule);
    Snoc(map[], [grant], spend, rule);
    Snoc(map[], [grant, spend], keep, rule);
    Snoc(map[], [grant, spend, keep], grant, rule);
    assert [] + [grant] == [grant] && [grant] + [spend] == [grant, spend];
    assert [grant, spend] + [keep] == [grant, spend, keep];
    assert [grant, spend, keep] + [grant] == [grant, spend, keep, grant];
    Empty(map[], rule);
    assert Kept(map[rule := Grant(4, 1.0, 1)], {}) == map[];
  }

  lemma Snoc(m: Grants, before: seq<Step>, last: Step, rule: string)
    ensures Run(m, before + [last]) == Apply(Run(m, before), last)
    ensures Spends(m, before + [last], rule) ==
            Spends(m, before, rule) + if last == SpendStep(rule) && Allowed(Run(m, before), rule) then 1 else 0
    ensures Shares(m, before + [last], rule) == Shares(m, before, rule) + Handed(Run(m, before), last, rule)
  {
    assert (before + [last])[..|before|] == before;
  }

  lemma Empty(m: Grants, rule: string)
    ensures Run(m, []) == m && Spends(m, [], rule) == 0 && Shares(m, [], rule) == 0
  {
  }
}
