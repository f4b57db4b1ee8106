/** Coverage attestations: requirements, derived failures, and the rebuild that a verifier does. */
module CoverageAttestation {
  import opened Wrappers
  import opened CodePoints
  import opened StableSort
  import opened SeqFacts
  import opened Strings
  import opened StrippedText
  import opened Documents
  import opened CoverageBindings

  /** A requirement; `symbols` may be absent before it is normalised. */
  datatype Requirement = Requirement(integration: string, depth: Depth, symbols: Option<seq<string>>)

  datatype Reason = Missing | Unbound | InsufficientDepth

  /** `actual` is None for a missing binding. */
  datatype Failure = Failure(
    integration: string,
    symbol: string,
    reason: Reason,
    required: Depth,
    actual: Option<Depth>)

  datatype Header = Header(
    attestationId: string,
    workloadId: string,
    environment: string,
    language: string,
    version: string,
    generatedAt: int,
    validUntil: int)

  datatype Body = Body(
    header: Header,
    required: seq<Requirement>,
    bindings: seq<Binding>,
    packHashes: seq<string>,
    complete: bool,
    failures: seq<Failure>)

  // ----- Requirements -----

  function NormalRequirement(r: Requirement): Option<Requirement> {
    if r.depth != Observe && r.depth != Enforce then None
    else
      var integration :- CleanText(r.integration);
      var symbols :- UniqueTexts(GetOr(r.symbols, []));
      Some(Requirement(integration, r.depth, Some(symbols)))
  }

  function NormalRequirements(rs: seq<Requirement>): Option<seq<Requirement>> {
    if rs == [] then Some([])
    else
      var front :- NormalRequirements(rs[..|rs| - 1]);
      var last :- NormalRequirement(rs[|rs| - 1]);
      Some(front + [last])
  }

  function DepthText(d: Depth): string {
    match d
    case Unknown => "unknown"
    case Observe => "observe"
    case Enforce => "enforce"
    case Other(text) => text
  }

  function RequirementKey(r: Requirement): string {
    r.integration + "\0" + DepthText(r.depth) + "\0" + Join(GetOr(r.symbols, []), "\0")
  }

  predicate NoRepeats(rs: seq<Requirement>) {
    forall i, j :: 0 <= i < j < |rs| ==> rs[i] != rs[j]
  }

  /** `_requirements` */
  function Requirements(rs: seq<Requirement>): Option<seq<Requirement>> {
    if |rs| > ITEM_MAX then None
    else
      var normal :- NormalRequirements(rs);
      if NoRepeats(Sort(normal, RequirementKey)) then Some(Sort(normal, RequirementKey)) else None
  }

  method BuildRequirements(rs: seq<Requirement>) returns (r: Option<seq<Requirement>>)
    ensures r == Requirements(rs)
  {
    if |rs| > ITEM_MAX {
      return None;
    }
    var requirements := [];
    for i := 0 to |rs|
      invariant NormalRequirements(rs[..i]) == Some(requirements)
    {
      NormalStep(rs, i);
      var normal := NormalRequirement(rs[i]);
      if normal.None? {
        NormalLater(rs, i + 1);
        return None;
      }
      requirements := requirements + [normal.value];
    }
    assert rs[..|rs|] == rs;
    requirements := Sort(requirements, RequirementKey);
    return if NoRepeats(requirements) then Some(requirements) else None;
  }

  lemma NormalStep(rs: seq<Requirement>, i: nat)
    requires i < |rs|
    ensures NormalRequirements(rs[..i + 1]) ==
      if NormalRequirements(rs[..i]).None? || NormalRequirement(rs[i]).None? then None
      else Some(NormalRequirements(rs[..i]).value + [NormalRequirement(rs[i]).value])
  {
    hide NormalRequirement;
    assert rs[..i + 1][..i] == rs[..i];
  }

  lemma {:induction false} NormalLater(rs: seq<Requirement>, i: nat)
    requires i <= |rs| && NormalRequirements(rs[..i]).None?
    ensures NormalRequirements(rs).None?
    decreases |rs| - i
  {
    hide NormalRequirement, NormalRequirements;
    if i < |rs| {
      NormalStep(rs, i);
      NormalLater(rs, i + 1);
    } else {
      assert rs[..i] == rs;
    }
  }

  predicate NormalRequired(rs: seq<Requirement>) {
    forall r :: r in rs ==> NormalRequirement(r) == Some(r)
  }

  lemma RequirementFixed(r: Requirement)
    requires NormalRequirement(r).Some?
    ensures var n := NormalRequirement(r).value; NormalRequirement(n) == Some(n)
  {
    hide CleanText, UniqueTexts;
    CleanTextFixed(r.integration);
    UniqueTextsFixed(GetOr(r.symbols, []));
  }

  lemma {:induction false} NormalRequirementsMeaning(rs: seq<Requirement>)
    ensures NormalRequirements(rs).Some? ==>
      NormalRequired(NormalRequirements(rs).value) && |NormalRequirements(rs).value| == |rs|
    ensures NormalRequired(rs) ==> NormalRequirements(rs) == Some(rs)
  {
    hide NormalRequirement;
    if rs != [] {
      var front, last := rs[..|rs| - 1], rs[|rs| - 1];
      assert rs == front + [last];
      NormalRequirementsMeaning(front);
      if NormalRequired(rs) {
        assert NormalRequired(front) && NormalRequirement(last) == Some(last);
      }
      if NormalRequirement(last).Some? {
        RequirementFixed(last);
      }
    }
  }

  /** Normalised requirements are normalised to themselves. */
  lemma RequirementsFixed(rs: seq<Requirement>)
    requires Requirements(rs).Some?
    ensures Requirements(Requirements(rs).value) == Requirements(rs)
    ensures NormalRequired(Requirements(rs).value)
  {
    hide NormalRequirement, NormalRequirements, Sort, SameByKey;
    var normal := NormalRequirements(rs).value;
    var sorted := Sort(normal, RequirementKey);
    NormalRequirementsMeaning(rs);
    SortIsStable(normal, RequirementKey, "");
    forall r | r in sorted ensures NormalRequirement(r) == Some(r) {
      assert r in multiset(normal);
    }
    NormalRequirementsMeaning(sorted);
    SortTwice(normal);
  }

  lemma SortTwice(rs: seq<Requirement>)
    ensures Sort(Sort(rs, RequirementKey), RequirementKey) == Sort(rs, RequirementKey)
  {
    hide Sort, InOrder;
    SortIsStable(rs, RequirementKey, "");
    SortsTo(Sort(rs, RequirementKey), Sort(rs, RequirementKey), RequirementKey);
  }

  lemma RequirementAccepted(r: Requirement)
    ensures NormalRequirement(r).Some? <==>
      && (r.depth == Observe || r.depth == Enforce) && TextFits(r.integration, 256)
      && |NamedSymbols(r)| <= 256 && forall s :: s in NamedSymbols(r) ==> TextFits(s, 256)
    ensures NormalRequirement(r).Some? ==>
      var n := NormalRequirement(r).value;
      && n.integration == Strip(r.integration) && n.depth == r.depth
      && forall s :: s in NamedSymbols(n) <==> exists t :: t in NamedSymbols(r) && Strip(t) == s
  {
    hide Strip, TextFits;
    assert forall t :: t in NamedSymbols(r) ==> Strip(t) in StripAll(NamedSymbols(r));
  }

  lemma {:induction false} NormalMembers(rs: seq<Requirement>)
    ensures NormalRequirements(rs).Some? <==> forall r :: r in rs ==> NormalRequirement(r).Some?
    ensures NormalRequirements(rs).Some? ==>
      var ns := NormalRequirements(rs).value;
      |ns| == |rs| && forall i :: 0 <= i < |rs| ==> NormalRequirement(rs[i]) == Some(ns[i])
  {
    hide NormalRequirement;
    if rs != [] {
      var front, last := rs[..|rs| - 1], rs[|rs| - 1];
      assert rs == front + [last];
      NormalMembers(front);
    }
  }

  /** Requirements are accepted exactly when there are at most 256, each is accepted, and no two are equal
      once normalised. */
  lemma RequirementsAccepted(rs: seq<Requirement>)
    ensures Requirements(rs).Some? <==>
      && |rs| <= 256 && (forall r :: r in rs ==> NormalRequirement(r).Some?)
      && forall i, j :: 0 <= i < j < |rs| ==> NormalRequirement(rs[i]) != NormalRequirement(rs[j])
  {
    hide NormalRequirement, NormalRequirements, Sort;
    NormalMembers(rs);
    if NormalRequirements(rs).Some? {
      var ns := NormalRequirements(rs).value;
      var sorted := Sort(ns, RequirementKey);
      SortIsStable(ns, RequirementKey, "");
      if NoRepeats(ns) {
        DistinctPermuted(ns, sorted);
      }
      if NoRepeats(sorted) {
        DistinctPermuted(sorted, ns);
      }
    }
  }

  /** Texts joined by NUL are ordered by their first parts, when those are free of NUL, and then by the
      rest. */
  lemma {:induction false} NulOrder(x: string, a: string, y: string, b: string)
    requires '\0' !in x && '\0' !in y && AtMost(x + "\0" + a, y + "\0" + b)
    ensures AtMost(x, y) && (x == y ==> AtMost(a, b))
  {
    var s, t := x + "\0" + a, y + "\0" + b;
    if x == "" {
      assert y == "" ==> s[1..] == a && t[1..] == b && s[0] == t[0];
    } else if y != "" && x[0] == y[0] {
      assert s[1..] == x[1..] + "\0" + a && t[1..] == y[1..] + "\0" + b;
      NulOrder(x[1..], a, y[1..], b);
      assert x == [x[0]] + x[1..] && y == [y[0]] + y[1..];
    } else {
      assert s[0] == x[0] && t[0] == if y == "" then '\0' else y[0];
      assert x[0] in x;
    }
  }

  /** Accepted requirements are listed by integration, and within one by depth, as long as the names hold
      no NUL. */
  lemma RequirementsListed(rs: seq<Requirement>, i: nat, j: nat)
    requires Requirements(rs).Some? && i < j < |Requirements(rs).value|
    ensures var a, b := Requirements(rs).value[i], Requirements(rs).value[j];
      '\0' !in a.integration && '\0' !in b.integration ==>
        AtMost(a.integration, b.integration)
        && (a.integration == b.integration && a.depth != b.depth ==> a.depth == Enforce && b.depth == Observe)
  {
    hide NormalRequirement, NormalRequirements, Sort, NoRepeats, Strip, SameByKey;
    RequirementsFixed(rs);
    var ns := NormalRequirements(rs).value;
    SortIsStable(ns, RequirementKey, "");
    var out := Requirements(rs).value;
    var a, b := out[i], out[j];
    assert a in out && b in out;
    RequirementDepth(a);
    RequirementDepth(b);
    if '\0' !in a.integration && '\0' !in b.integration {
      var x, y := Join(NamedSymbols(a), "\0"), Join(NamedSymbols(b), "\0");
      assert AtMost(RequirementKey(a), RequirementKey(b));
      KeyParts(a.integration, DepthText(a.depth), x);
      KeyParts(b.integration, DepthText(b.depth), y);
      NulOrder(a.integration, DepthText(a.depth) + "\0" + x, b.integration, DepthText(b.depth) + "\0" + y);
    }
  }

  lemma RequirementDepth(r: Requirement)
    requires NormalRequirement(r).Some?
    ensures r.depth == Observe || r.depth == Enforce
  {
    hide CleanText, UniqueTexts;
  }

  lemma KeyParts(x: string, y: string, z: string)
    ensures x + "\0" + y + "\0" + z == x + "\0" + (y + "\0" + z)
  {
  }

  // ----- Failures -----

  function Rank(d: Depth): nat {
    match d
    case Observe => 1
    case Enforce => 2
    case _ => 0
  }

  /** The binding is bound, and deeply enough: `enforce` also serves where `observe` is asked for. */
  predicate Covers(b: Binding, depth: Depth) {
    && b.entry.bound == Some(true)
    && (depth == Observe ==> b.entry.depth in {Some(Observe), Some(Enforce)})
    && (depth == Enforce ==> b.entry.depth == Some(Enforce))
  }

  function NamedSymbols(r: Requirement): seq<string> {
    GetOr(r.symbols, [])
  }

  predicate IsCandidate(r: Requirement, b: Binding) {
    b.integration == r.integration && (NamedSymbols(r) == [] || b.symbol in NamedSymbols(r))
  }

  function Candidates(r: Requirement, bs: seq<Binding>): seq<Binding> {
    if bs == [] then []
    else
      var front, last := Candidates(r, bs[..|bs| - 1]), bs[|bs| - 1];
      if IsCandidate(r, last) then front + [last] else front
  }

  /** The symbols to look at: those named, or those reported, or one blank when there are neither. */
  function SymbolsFor(r: Requirement, candidates: seq<Binding>): seq<string> {
    if NamedSymbols(r) != [] then NamedSymbols(r)
    else if candidates == [] then [""]
    else SortedList(set b | b in candidates :: b.symbol)
  }

  function FirstNamed(candidates: seq<Binding>, symbol: string): Option<Binding> {
    if candidates == [] then None
    else if candidates[0].symbol == symbol then Some(candidates[0])
    else FirstNamed(candidates[1..], symbol)
  }

  function Verdict(r: Requirement, symbol: string, candidates: seq<Binding>): Option<Failure> {
    var found := FirstNamed(candidates, symbol);
    if found.None? then Some(Failure(r.integration, symbol, Missing, r.depth, None))
    else
      var depth := KnownDepth(found.value.entry.depth);
      if found.value.entry.bound != Some(true) then Some(Failure(r.integration, symbol, Unbound, r.depth, Some(depth)))
      else if Rank(depth) < Rank(r.depth) then
        Some(Failure(r.integration, symbol, InsufficientDepth, r.depth, Some(depth)))
      else None
  }

  function Judge(r: Requirement, candidates: seq<Binding>, symbols: seq<string>): seq<Failure> {
    if symbols == [] then []
    else
      var front := Judge(r, candidates, symbols[..|symbols| - 1]);
      var last := Verdict(r, symbols[|symbols| - 1], candidates);
      if last.Some? then front + [last.value] else front
  }

  function JudgeOne(r: Requirement, bs: seq<Binding>): seq<Failure> {
    Judge(r, Candidates(r, bs), SymbolsFor(r, Candidates(r, bs)))
  }

  function JudgeAll(rs: seq<Requirement>, bs: seq<Binding>): seq<Failure> {
    if rs == [] then [] else JudgeAll(rs[..|rs| - 1], bs) + JudgeOne(rs[|rs| - 1], bs)
  }

  function ReasonText(r: Reason): string {
    match r
    case Missing => "missing"
    case Unbound => "unbound"
    case InsufficientDepth => "insufficient_depth"
  }

  function FailureKey(f: Failure): string {
    f.integration + "\0" + f.symbol + "\0" + ReasonText(f.reason)
  }

  function Failures(rs: seq<Requirement>, bs: seq<Binding>): seq<Failure> {
    Sort(JudgeAll(rs, bs), FailureKey)
  }

  /** `_coverage_failures` */
  method CoverageFailures(rs: seq<Requirement>, bs: seq<Binding>) returns (failures: seq<Failure>)
    ensures failures == Failures(rs, bs)
  {
    failures := [];
    for i := 0 to |rs|
      invariant failures == JudgeAll(rs[..i], bs)
    {
      assert rs[..i + 1][..i] == rs[..i];
      var candidates := Candidates(rs[i], bs);
      var symbols := SymbolsFor(rs[i], candidates);
      var before := failures;
      for j := 0 to |symbols|
        invariant failures == before + Judge(rs[i], candidates, symbols[..j])
      {
        assert symbols[..j + 1][..j] == symbols[..j];
        var verdict := Verdict(rs[i], symbols[j], candidates);
        if verdict.Some? {
          failures := failures + [verdict.value];
        }
      }
      assert symbols[..|symbols|] == symbols;
    }
    assert rs[..|rs|] == rs;
    failures := Sort(failures, FailureKey);
  }

  /** What a requirement asks of the bindings, with no order or list involved. */
  predicate Met(r: Requirement, bs: seq<Binding>) {
    if NamedSymbols(r) != [] then
      forall s :: s in NamedSymbols(r) ==>
        exists b :: b in bs && b.integration == r.integration && b.symbol == s && Covers(b, r.depth)
    else
      && (exists b :: b in bs && b.integration == r.integration)
      && forall b :: b in bs && b.integration == r.integration ==> Covers(b, r.depth)
  }

  predicate AllPass(r: Requirement, candidates: seq<Binding>, symbols: seq<string>) {
    forall s :: s in symbols ==> Verdict(r, s, candidates).None?
  }

  lemma {:induction false} JudgeNone(r: Requirement, candidates: seq<Binding>, symbols: seq<string>)
    ensures Judge(r, candidates, symbols) == [] <==> AllPass(r, candidates, symbols)
  {
    hide Verdict;
    if symbols != [] {
      assert symbols == symbols[..|symbols| - 1] + [symbols[|symbols| - 1]];
      JudgeNone(r, candidates, symbols[..|symbols| - 1]);
    }
  }

  lemma {:induction false} CandidatesMeaning(r: Requirement, bs: seq<Binding>)
    ensures forall b :: b in Candidates(r, bs) <==> b in bs && IsCandidate(r, b)
  {
    hide IsCandidate;
    if bs != [] {
      assert bs == bs[..|bs| - 1] + [bs[|bs| - 1]];
      CandidatesMeaning(r, bs[..|bs| - 1]);
    }
  }

  lemma {:induction false} FirstMeaning(candidates: seq<Binding>, symbol: string)
    ensures var f := FirstNamed(candidates, symbol);
      && (f.Some? ==> f.value in candidates && f.value.symbol == symbol)
      && (f.None? ==> forall b :: b in candidates ==> b.symbol != symbol)
  {
    if candidates != [] {
      assert candidates == [candidates[0]] + candidates[1..];
      FirstMeaning(candidates[1..], symbol);
    }
  }

  lemma PairUnique(bs: seq<Binding>, x: Binding, y: Binding)
    requires DistinctPairs(bs) && x in bs && y in bs && SamePair(x, y)
    ensures x == y
  {
    var i :| 0 <= i < |bs| && bs[i] == x;
    var j :| 0 <= j < |bs| && bs[j] == y;
  }

  /** One symbol passes exactly when its binding covers the depth. */
  lemma VerdictMeaning(r: Requirement, s: string, bs: seq<Binding>)
    requires DistinctPairs(bs) && (NamedSymbols(r) == [] || s in NamedSymbols(r))
    ensures Verdict(r, s, Candidates(r, bs)).None? <==>
      exists b :: b in bs && b.integration == r.integration && b.symbol == s && Covers(b, r.depth)
  {
    hide DistinctPairs, FirstNamed, Candidates;
    var candidates := Candidates(r, bs);
    CandidatesMeaning(r, bs);
    FirstMeaning(candidates, s);
    forall b | b in bs && b.integration == r.integration && b.symbol == s
      ensures FirstNamed(candidates, s) == Some(b)
    {
      assert b in candidates;
      PairUnique(bs, b, FirstNamed(candidates, s).value);
    }
  }

  /** Which reason is reported for a symbol, and with what depth. */
  lemma ReasonsExactly(r: Requirement, s: string, bs: seq<Binding>)
    requires DistinctPairs(bs) && (NamedSymbols(r) == [] || s in NamedSymbols(r))
    requires Verdict(r, s, Candidates(r, bs)).Some?
    ensures var f := Verdict(r, s, Candidates(r, bs)).value;
      && f.integration == r.integration && f.symbol == s && f.required == r.depth
      && (f.reason == Missing <==> forall b :: b in bs && b.integration == r.integration ==> b.symbol != s)
      && (f.reason == Missing <==> f.actual == None)
      && forall b :: b in bs && b.integration == r.integration && b.symbol == s ==>
           && f.actual == Some(KnownDepth(b.entry.depth)) && !Covers(b, r.depth)
           && f.reason == if b.entry.bound == Some(true) then InsufficientDepth else Unbound
  {
    hide DistinctPairs, FirstNamed, Candidates;
    var candidates := Candidates(r, bs);
    CandidatesMeaning(r, bs);
    FirstMeaning(candidates, s);
    forall b | b in bs && b.integration == r.integration && b.symbol == s
      ensures FirstNamed(candidates, s) == Some(b)
    {
      assert b in candidates;
      PairUnique(bs, b, FirstNamed(candidates, s).value);
    }
  }

  /** The failure is the verdict on one of the requirement's symbols. */
  ghost predicate FailsFor(r: Requirement, bs: seq<Binding>, f: Failure) {
    f.symbol in SymbolsFor(r, Candidates(r, bs)) && Verdict(r, f.symbol, Candidates(r, bs)) == Some(f)
  }

  lemma {:induction false} JudgeMembers(r: Requirement, candidates: seq<Binding>, symbols: seq<string>, f: Failure)
    ensures f in Judge(r, candidates, symbols) <==>
            f.symbol in symbols && Verdict(r, f.symbol, candidates) == Some(f)
  {
    if symbols != [] {
      var front, last := symbols[..|symbols| - 1], symbols[|symbols| - 1];
      assert symbols == front + [last];
      JudgeMembers(r, candidates, front, f);
      VerdictNames(r, last, candidates);
    }
  }

  lemma VerdictNames(r: Requirement, s: string, candidates: seq<Binding>)
    ensures var v := Verdict(r, s, candidates); v.Some? ==> v.value.symbol == s
  {
  }

  lemma JudgeOneMembers(r: Requirement, bs: seq<Binding>, f: Failure)
    ensures f in JudgeOne(r, bs) <==> FailsFor(r, bs, f)
  {
    JudgeMembers(r, Candidates(r, bs), SymbolsFor(r, Candidates(r, bs)), f);
  }

  lemma {:induction false} JudgeAllMembers(rs: seq<Requirement>, bs: seq<Binding>, f: Failure)
    ensures f in JudgeAll(rs, bs) <==> exists r :: r in rs && FailsFor(r, bs, f)
  {
    hide JudgeOne, FailsFor;
    if rs != [] {
      var front, last := rs[..|rs| - 1], rs[|rs| - 1];
      assert rs == front + [last];
      JudgeAllMembers(front, bs, f);
      JudgeOneMembers(last, bs, f);
    }
  }

  /** Exactly the failures of some requirement are reported. */
  lemma FailureMembers(rs: seq<Requirement>, bs: seq<Binding>, f: Failure)
    ensures f in Failures(rs, bs) <==> exists r :: r in rs && FailsFor(r, bs, f)
  {
    hide JudgeAll, FailsFor, Sort;
    JudgeAllMembers(rs, bs, f);
    SortIsStable(JudgeAll(rs, bs), FailureKey, "");
    assert f in Failures(rs, bs) <==> f in multiset(Failures(rs, bs));
    assert f in JudgeAll(rs, bs) <==> f in multiset(JudgeAll(rs, bs));
  }

  /** Failures are listed by integration, within one by symbol, and for one symbol by reason, as long as
      the names hold no NUL. */
  lemma FailuresListed(rs: seq<Requirement>, bs: seq<Binding>, i: nat, j: nat)
    requires i < j < |Failures(rs, bs)|
    ensures var f, g := Failures(rs, bs)[i], Failures(rs, bs)[j];
      '\0' !in f.integration + f.symbol && '\0' !in g.integration + g.symbol ==>
        && AtMost(f.integration, g.integration)
        && (f.integration == g.integration ==>
              && AtMost(f.symbol, g.symbol)
              && (f.symbol == g.symbol ==> AtMost(ReasonText(f.reason), ReasonText(g.reason))))
  {
    hide JudgeAll, Sort, ReasonText, SameByKey;
    SortIsStable(JudgeAll(rs, bs), FailureKey, "");
    var f, g := Failures(rs, bs)[i], Failures(rs, bs)[j];
    if '\0' !in f.integration + f.symbol && '\0' !in g.integration + g.symbol {
      var x, y := ReasonText(f.reason), ReasonText(g.reason);
      assert AtMost(FailureKey(f), FailureKey(g));
      NoNul(f.integration, f.symbol);
      NoNul(g.integration, g.symbol);
      KeyParts(f.integration, f.symbol, x);
      KeyParts(g.integration, g.symbol, y);
      NulOrder(f.integration, f.symbol + "\0" + x, g.integration, g.symbol + "\0" + y);
      if f.integration == g.integration {
        NulOrder(f.symbol, x, g.symbol, y);
      }
    }
  }

  lemma NoNul(a: string, b: string)
    requires '\0' !in a + b
    ensures '\0' !in a && '\0' !in b
  {
    forall i | 0 <= i < |a| ensures a[i] != '\0' {
      assert (a + b)[i] == a[i];
    }
    forall i | 0 <= i < |b| ensures b[i] != '\0' {
      assert (a + b)[|a| + i] == b[i];
    }
  }

  lemma MetExactly(r: Requirement, bs: seq<Binding>)
    requires DistinctPairs(bs)
    ensures JudgeOne(r, bs) == [] <==> Met(r, bs)
  {
    hide *;
    JudgeOneMeaning(r, bs);
    if NamedSymbols(r) != [] {
      NamedMet(r, bs);
    } else {
      UnnamedMet(r, bs);
    }
  }

  lemma JudgeOneMeaning(r: Requirement, bs: seq<Binding>)
    ensures JudgeOne(r, bs) == [] <==> AllPass(r, Candidates(r, bs), SymbolsFor(r, Candidates(r, bs)))
  {
    hide AllPass, Judge, Candidates, SymbolsFor;
    JudgeNone(r, Candidates(r, bs), SymbolsFor(r, Candidates(r, bs)));
  }

  lemma NamedMet(r: Requirement, bs: seq<Binding>)
    requires DistinctPairs(bs) && NamedSymbols(r) != []
    ensures AllPass(r, Candidates(r, bs), SymbolsFor(r, Candidates(r, bs))) <==> Met(r, bs)
  {
    hide Verdict, Judge, DistinctPairs, Candidates, Covers, FirstNamed, NamedSymbols;
    forall s | s in NamedSymbols(r)
      ensures Verdict(r, s, Candidates(r, bs)).None? <==>
        exists b :: b in bs && b.integration == r.integration && b.symbol == s && Covers(b, r.depth)
    {
      VerdictMeaning(r, s, bs);
    }
  }

  lemma UnnamedMet(r: Requirement, bs: seq<Binding>)
    requires DistinctPairs(bs) && NamedSymbols(r) == []
    ensures AllPass(r, Candidates(r, bs), SymbolsFor(r, Candidates(r, bs))) <==> Met(r, bs)
  {
    hide Verdict, Judge, DistinctPairs, Candidates, Covers, FirstNamed, NamedSymbols;
    var candidates := Candidates(r, bs);
    var symbols := SymbolsFor(r, candidates);
    CandidatesMeaning(r, bs);
    forall b | b in candidates
      ensures b.symbol in symbols && (Verdict(r, b.symbol, candidates).None? <==> Covers(b, r.depth))
    {
      VerdictMeaning(r, b.symbol, bs);
      OnlyCover(r, b, bs);
    }
    if candidates == [] {
      VerdictMeaning(r, "", bs);
      assert "" in symbols;
    } else {
      assert candidates[0] in candidates;
      forall s | s in symbols ensures exists b :: b in candidates && b.symbol == s {
      }
    }
  }

  lemma OnlyCover(r: Requirement, b: Binding, bs: seq<Binding>)
    requires DistinctPairs(bs) && b in bs && b.integration == r.integration
    ensures (exists x :: x in bs && x.integration == r.integration && x.symbol == b.symbol && Covers(x, r.depth))
      <==> Covers(b, r.depth)
  {
    hide DistinctPairs, Covers;
    forall x | x in bs && x.integration == r.integration && x.symbol == b.symbol ensures x == b {
      PairUnique(bs, x, b);
    }
  }

  lemma {:induction false} JudgeAllNone(rs: seq<Requirement>, bs: seq<Binding>)
    requires DistinctPairs(bs)
    ensures JudgeAll(rs, bs) == [] <==> forall r :: r in rs ==> Met(r, bs)
  {
    hide JudgeOne, Met, DistinctPairs;
    if rs != [] {
      assert rs == rs[..|rs| - 1] + [rs[|rs| - 1]];
      JudgeAllNone(rs[..|rs| - 1], bs);
      MetExactly(rs[|rs| - 1], bs);
    }
  }

  /** There is nothing to report exactly when every requirement is met. */
  lemma NoFailures(rs: seq<Requirement>, bs: seq<Binding>)
    requires DistinctPairs(bs)
    ensures Failures(rs, bs) == [] <==> forall r :: r in rs ==> Met(r, bs)
  {
    hide JudgeAll, Met, DistinctPairs, Sort;
    JudgeAllNone(rs, bs);
    SortIsStable(JudgeAll(rs, bs), FailureKey, "");
  }

  /** An entry of a snapshot, by its trimmed names. */
  predicate Reports(x: Binding, integration: string, symbol: string) {
    Strip(x.integration) == integration && Strip(x.symbol) == symbol
  }

  /** What a requirement asks of the entries of a snapshot as reported. */
  ghost predicate MetAsReported(r: Requirement, entries: seq<Binding>) {
    if NamedSymbols(r) != [] then
      forall s :: s in NamedSymbols(r) ==>
        exists x :: x in entries && Reports(x, r.integration, s) && Covers(x, r.depth)
    else
      && (exists x :: x in entries && Strip(x.integration) == r.integration)
      && forall x :: x in entries && Strip(x.integration) == r.integration ==> Covers(x, r.depth)
  }

  lemma NormalReports(x: Binding, depth: Depth)
    requires NormalBinding(x).Some?
    ensures var b := NormalBinding(x).value;
      && b.integration == Strip(x.integration) && b.symbol == Strip(x.symbol)
      && (Covers(b, depth) <==> Covers(x, depth))
  {
    hide UniqueTexts, CoverageBindings.OptionalText, Strip, TextFits;
  }

  /** A requirement is met by the bindings built from a snapshot exactly when the snapshot's entries
      meet it as they were reported. */
  lemma MetBySnapshot(r: Requirement, snapshot: Snapshot)
    requires FlattenBindings(snapshot).Some?
    ensures Met(r, FlattenBindings(snapshot).value) <==> MetAsReported(r, Flat(snapshot))
  {
    hide FlattenBindings, Flat, Covers, Strip, NormalBinding, NamedSymbols;
    var bs, raw := FlattenBindings(snapshot).value, Flat(snapshot);
    forall b | b in bs ensures Normalises(raw, b) {
      FlattenedMembers(snapshot, b);
    }
    forall x | x in raw
      ensures NormalBinding(x).Some? && NormalBinding(x).value in bs && SameReport(x, NormalBinding(x).value, r.depth)
    {
      if raw != [] {
        FlattenedMembers(snapshot, raw[0]);
      }
      FlattenedMembers(snapshot, NormalBinding(x).value);
      NormalReports(x, r.depth);
    }
    AsReported(r, bs, raw);
  }

  /** The bindings are the normalised entries. */
  ghost predicate NormalOf(bs: seq<Binding>, raw: seq<Binding>, depth: Depth) {
    && (forall b :: b in bs ==> Normalises(raw, b))
    && (forall x :: x in raw ==>
          NormalBinding(x).Some? && NormalBinding(x).value in bs && SameReport(x, NormalBinding(x).value, depth))
  }

  predicate SameReport(x: Binding, b: Binding, depth: Depth) {
    && b.integration == Strip(x.integration) && b.symbol == Strip(x.symbol)
    && (Covers(b, depth) <==> Covers(x, depth))
  }

  lemma EntryOf(bs: seq<Binding>, raw: seq<Binding>, depth: Depth, b: Binding) returns (x: Binding)
    requires NormalOf(bs, raw, depth) && b in bs
    ensures x in raw && SameReport(x, b, depth)
  {
    assert Normalises(raw, b);
    x :| x in raw && NormalBinding(x) == Some(b);
  }

  lemma BindingOf(bs: seq<Binding>, raw: seq<Binding>, depth: Depth, x: Binding) returns (b: Binding)
    requires NormalOf(bs, raw, depth) && x in raw
    ensures b in bs && SameReport(x, b, depth)
  {
    b := NormalBinding(x).value;
  }

  lemma AsReported(r: Requirement, bs: seq<Binding>, raw: seq<Binding>)
    requires NormalOf(bs, raw, r.depth)
    ensures Met(r, bs) <==> MetAsReported(r, raw)
  {
    hide *;
    if NamedSymbols(r) != [] {
      NamedAsReported(r, bs, raw);
    } else {
      AnyAsReported(r, bs, raw);
    }
  }

  lemma NamedAsReported(r: Requirement, bs: seq<Binding>, raw: seq<Binding>)
    requires NormalOf(bs, raw, r.depth) && NamedSymbols(r) != []
    ensures Met(r, bs) <==> MetAsReported(r, raw)
  {
    hide Covers, NormalOf, NamedSymbols, Reports;
    forall s ensures CoveredIn(bs, r, s) <==> ReportedIn(raw, r, s) {
      SymbolAsReported(r, s, bs, raw);
    }
    assert Met(r, bs) <==> forall s :: s in NamedSymbols(r) ==> CoveredIn(bs, r, s);
    assert MetAsReported(r, raw) <==> forall s :: s in NamedSymbols(r) ==> ReportedIn(raw, r, s);
  }

  ghost predicate CoveredIn(bs: seq<Binding>, r: Requirement, s: string) {
    exists b :: b in bs && b.integration == r.integration && b.symbol == s && Covers(b, r.depth)
  }

  ghost predicate ReportedIn(raw: seq<Binding>, r: Requirement, s: string) {
    exists x :: x in raw && Reports(x, r.integration, s) && Covers(x, r.depth)
  }

  lemma SymbolAsReported(r: Requirement, s: string, bs: seq<Binding>, raw: seq<Binding>)
    requires NormalOf(bs, raw, r.depth)
    ensures CoveredIn(bs, r, s) <==> ReportedIn(raw, r, s)
  {
    hide Covers, Strip, NormalOf;
    if CoveredIn(bs, r, s) {
      var b :| b in bs && b.integration == r.integration && b.symbol == s && Covers(b, r.depth);
      var x := EntryOf(bs, raw, r.depth, b);
      assert Reports(x, r.integration, s);
    }
    if ReportedIn(raw, r, s) {
      var x :| x in raw && Reports(x, r.integration, s) && Covers(x, r.depth);
      var b := BindingOf(bs, raw, r.depth, x);
    }
  }

  lemma AnyAsReported(r: Requirement, bs: seq<Binding>, raw: seq<Binding>)
    requires NormalOf(bs, raw, r.depth) && NamedSymbols(r) == []
    ensures Met(r, bs) <==> MetAsReported(r, raw)
  {
    hide Covers, Strip, NormalOf, NamedSymbols;
    if Met(r, bs) {
      var b :| b in bs && b.integration == r.integration;
      var x := EntryOf(bs, raw, r.depth, b);
      forall y | y in raw && Strip(y.integration) == r.integration ensures Covers(y, r.depth) {
        var c := BindingOf(bs, raw, r.depth, y);
      }
    }
    if MetAsReported(r, raw) {
      var x :| x in raw && Strip(x.integration) == r.integration;
      var b := BindingOf(bs, raw, r.depth, x);
      forall c | c in bs && c.integration == r.integration ensures Covers(c, r.depth) {
        var y := EntryOf(bs, raw, r.depth, c);
      }
    }
  }

  // ----- Bodies -----

  function BuildHeader(h: Header): Option<Header> {
    if !SafeInteger(h.generatedAt) || !SafeInteger(h.validUntil) || h.validUntil <= h.generatedAt then None
    else if h.language !in {"typescript", "python"} then None
    else
      var attestationId :- CleanText(h.attestationId);
      var workloadId :- CleanText(h.workloadId);
      var environment :- CleanText(h.environment);
      var version :- CleanText(h.version);
      Some(Header(attestationId, workloadId, environment, h.language, version, h.generatedAt, h.validUntil))
  }

  /** `_hashes` */
  function PackHashes(values: seq<string>): Option<seq<string>> {
    var items :- UniqueTexts(values);
    if forall x :: x in items ==> IsHash(x) then Some(items) else None
  }

  /** Exactly which headers are accepted, and what becomes of them. */
  lemma HeaderAccepted(h: Header)
    ensures BuildHeader(h).Some? <==>
      && 0 <= h.generatedAt < h.validUntil <= 0x1F_FFFF_FFFF_FFFF
      && (h.language == "typescript" || h.language == "python")
      && TextFits(h.attestationId, 256) && TextFits(h.workloadId, 256)
      && TextFits(h.environment, 256) && TextFits(h.version, 256)
    ensures BuildHeader(h).Some? ==> BuildHeader(h).value == h.(
      attestationId := Strip(h.attestationId), workloadId := Strip(h.workloadId),
      environment := Strip(h.environment), version := Strip(h.version))
  {
    hide Strip, TextFits;
  }

  /** Exactly which lists of pack hashes are accepted: up to 256 texts that are hashes once trimmed. */
  lemma HashesAccepted(values: seq<string>)
    ensures PackHashes(values).Some? <==>
      |values| <= 256 && forall v :: v in values ==> TextFits(v, 256) && IsHash(Strip(v))
    ensures PackHashes(values).Some? ==>
      forall x :: x in PackHashes(values).value <==> exists v :: v in values && Strip(v) == x
  {
    hide Strip, TextFits, IsHash;
    assert forall v :: v in values ==> Strip(v) in StripAll(values);
  }

  function Derive(h: Header, rs: seq<Requirement>, bs: seq<Binding>, packHashes: seq<string>): Body {
    var failures := Failures(rs, bs);
    Body(h, rs, bs, packHashes, failures == [], failures)
  }

  /** `build_coverage_attestation_body` */
  function Build(h: Header, rs: seq<Requirement>, packHashes: seq<string>, snapshot: Snapshot): Option<Body> {
    var header :- BuildHeader(h);
    var required :- Requirements(rs);
    var bindings :- FlattenBindings(snapshot);
    var hashes :- PackHashes(packHashes);
    Some(Derive(header, required, bindings, hashes))
  }

  function Rebuild(body: Body): Option<Body> {
    Build(body.header, body.required, body.packHashes, Regroup(body.bindings))
  }

  method BuildBody(h: Header, rs: seq<Requirement>, packHashes: seq<string>, snapshot: Snapshot)
    returns (r: Option<Body>)
    ensures r == Build(h, rs, packHashes, snapshot)
  {
    var header := BuildHeader(h);
    var required := BuildRequirements(rs);
    var bindings := FlattenBindings(snapshot);
    var hashes := PackHashes(packHashes);
    if header.None? || required.None? || bindings.None? || hashes.None? {
      return None;
    }
    var failures := CoverageFailures(required.value, bindings.value);
    return Some(Body(header.value, required.value, bindings.value, hashes.value, failures == [], failures));
  }

  ghost predicate Injective(canonical: Body -> string) {
    forall a, b :: canonical(a) == canonical(b) ==> a == b
  }

  /** `canonicalize_coverage_attestation_body`: when canonical JSON tells bodies apart, it accepts
      exactly the bodies that rebuild to themselves. */
  method Canonicalize(body: Body, canonical: Body -> string) returns (r: Option<string>)
    ensures r.Some? ==> r.value == canonical(body)
    ensures Injective(canonical) ==> (r.Some? <==> Rebuild(body) == Some(body))
  {
    var snapshot := RegroupBindings(body.bindings);
    var rebuilt := BuildBody(body.header, body.required, body.packHashes, snapshot);
    if rebuilt.None? || canonical(body) != canonical(rebuilt.value) {
      return None;
    }
    return Some(canonical(rebuilt.value));
  }

  /** Everything a body must be for a verifier to accept it. */
  ghost predicate Acceptable(body: Body) {
    && BuildHeader(body.header) == Some(body.header)
    && Requirements(body.required) == Some(body.required)
    && PackHashes(body.packHashes) == Some(body.packHashes)
    && Arranged(body.bindings) && KeepsTies(body.bindings)
    && body.failures == Failures(body.required, body.bindings)
    && body.complete == (body.failures == [])
  }

  lemma RebuildExactly(body: Body)
    ensures Rebuild(body) == Some(body) <==> Acceptable(body)
  {
    hide BuildHeader, Requirements, PackHashes, FlattenBindings, Regroup, Arranged, KeepsTies, Failures;
    FlattenExactly(body.bindings);
  }

  lemma HeaderFixed(h: Header)
    requires BuildHeader(h).Some?
    ensures BuildHeader(BuildHeader(h).value) == BuildHeader(h)
  {
    hide CleanText;
    CleanTextFixed(h.attestationId);
    CleanTextFixed(h.workloadId);
    CleanTextFixed(h.environment);
    CleanTextFixed(h.version);
  }

  lemma HashesFixed(values: seq<string>)
    requires PackHashes(values).Some?
    ensures PackHashes(PackHashes(values).value) == PackHashes(values)
  {
    hide UniqueTexts, IsHash;
    UniqueTextsFixed(values);
  }

  /** A built body rebuilds to itself exactly when its pairs are distinct and, of two bindings with
      the same sort key, the earlier belongs to an integration that appears earlier. */
  lemma BuiltFixpoint(h: Header, rs: seq<Requirement>, packHashes: seq<string>, snapshot: Snapshot)
    requires Build(h, rs, packHashes, snapshot).Some?
    ensures var body := Build(h, rs, packHashes, snapshot).value;
      Rebuild(body) == Some(body) <==> DistinctPairs(body.bindings) && TiesFollow(body.bindings)
  {
    HeaderFixed(h);
    RequirementsFixed(rs);
    HashesFixed(packHashes);
    hide BuildHeader, Requirements, PackHashes, FlattenBindings, Regroup, Arranged, DistinctPairs, TiesFollow, Failures;
    FlattenArranged(snapshot);
    RebuildExactly(Build(h, rs, packHashes, snapshot).value);
  }

  /** So does every built body whose bindings have distinct pairs and symbols without NUL. */
  lemma PlainFixpoint(h: Header, rs: seq<Requirement>, packHashes: seq<string>, snapshot: Snapshot)
    requires Build(h, rs, packHashes, snapshot).Some?
    requires DistinctPairs(Build(h, rs, packHashes, snapshot).value.bindings)
    requires forall b :: b in Build(h, rs, packHashes, snapshot).value.bindings ==> '\0' !in b.symbol
    ensures var body := Build(h, rs, packHashes, snapshot).value; Rebuild(body) == Some(body)
  {
    hide Build, Rebuild, DistinctPairs, TiesFollow, DistinctKeys;
    var body := Build(h, rs, packHashes, snapshot).value;
    PlainSymbolsDistinct(body.bindings);
    DistinctKeysKeep(body.bindings);
    BuiltFixpoint(h, rs, packHashes, snapshot);
  }

  /** In terms of the snapshot: when its entries have distinct trimmed pairs, and no trimmed symbol holds
      NUL, whatever body is built from it rebuilds to itself; and no body does unless the trimmed pairs
      are distinct. */
  lemma SnapshotFixpoint(h: Header, rs: seq<Requirement>, packHashes: seq<string>, snapshot: Snapshot)
    requires Build(h, rs, packHashes, snapshot).Some?
    ensures var body := Build(h, rs, packHashes, snapshot).value;
      && (DistinctCleanPairs(Flat(snapshot)) && PlainSymbols(Flat(snapshot)) ==> Rebuild(body) == Some(body))
      && (Rebuild(body) == Some(body) ==> DistinctCleanPairs(Flat(snapshot)))
  {
    BuiltBindings(h, rs, packHashes, snapshot);
    hide *;
    FlattenedNames(snapshot);
    BuiltFixpoint(h, rs, packHashes, snapshot);
    if DistinctCleanPairs(Flat(snapshot)) && PlainSymbols(Flat(snapshot)) {
      PlainFixpoint(h, rs, packHashes, snapshot);
    }
  }

  lemma BuiltBindings(h: Header, rs: seq<Requirement>, packHashes: seq<string>, snapshot: Snapshot)
    requires Build(h, rs, packHashes, snapshot).Some?
    ensures FlattenBindings(snapshot) == Some(Build(h, rs, packHashes, snapshot).value.bindings)
  {
    hide BuildHeader, Requirements, FlattenBindings, PackHashes, Failures;
  }

  /** Distinct pairs alone are not enough: no attestation of the tied snapshot is accepted. */
  lemma TiedRejected(h: Header, rs: seq<Requirement>, packHashes: seq<string>)
    requires BuildHeader(h).Some? && Requirements(rs).Some? && PackHashes(packHashes).Some?
    ensures Build(h, rs, packHashes, TiedSnapshot()).Some?
    ensures var body := Build(h, rs, packHashes, TiedSnapshot()).value;
      DistinctPairs(body.bindings) && Rebuild(body) != Some(body)
  {
    NulBreaksOrder();
    hide BuildHeader, Requirements, PackHashes, FlattenBindings, Failures;
    hide TiedSnapshot, Rebuild, TiesFollow, DistinctPairs;
    BuiltFixpoint(h, rs, packHashes, TiedSnapshot());
  }

  /** The derived fields of an accepted body are true of its requirements and bindings. */
  lemma AcceptedDerived(body: Body)
    requires Rebuild(body) == Some(body)
    ensures DistinctPairs(body.bindings)
    ensures body.failures == Failures(body.required, body.bindings)
    ensures body.complete <==> forall r :: r in body.required ==> Met(r, body.bindings)
  {
    hide Rebuild, DistinctPairs, Failures, Met, Arranged, BuildHeader, Requirements, PackHashes;
    RebuildExactly(body);
    NoFailures(body.required, body.bindings);
  }
}
