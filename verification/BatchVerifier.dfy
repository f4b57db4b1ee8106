/** The keyless structural check of a stored bundle: group by session, sort, then check links. */
module BatchVerifier {
  import opened Wrappers
  import opened ChainEvents
  import opened SeqFacts

  /** Why a chain is refused, with the place in the sorted chain. */
  datatype Fault =
    | MalformedSig
    | BadStart(first: int)
    | SeqGap
    | MissingPrev
    | BrokenLink
    | TimeRegression
    | FormatChange

  // ----- Sorting by sequence number -----

  /** Inserts after the events whose number is not larger, as a stable sort does. */
  function Insert(s: seq<Event>, e: Event): seq<Event> {
    if s == [] || Seq(s[|s| - 1]) <= Seq(e) then s + [e]
    else Insert(s[..|s| - 1], e) + [s[|s| - 1]]
  }

  /** `sorted(events, key=_seq)` */
  function Sorted(es: seq<Event>): seq<Event> {
    if es == [] then [] else Insert(Sorted(es[..|es| - 1]), es[|es| - 1])
  }

  ghost predicate Ascending(s: seq<Event>) {
    AscendingBy(s, Seq)
  }

  lemma AppendAscends(s: seq<Event>, e: Event)
    requires Ascending(s) && forall x :: x in s ==> Seq(x) <= Seq(e)
    ensures Ascending(s + [e])
  {
  }

  lemma {:induction false} InsertAscends(s: seq<Event>, e: Event)
    requires Ascending(s)
    ensures Ascending(Insert(s, e))
    ensures multiset(Insert(s, e)) == multiset(s) + multiset{e}
  {
    if s == [] || Seq(s[|s| - 1]) <= Seq(e) {
      AppendAscends(s, e);
    } else {
      var front, last := s[..|s| - 1], s[|s| - 1];
      assert s == front + [last];
      InsertAscends(front, e);
      forall x | x in Insert(front, e) ensures Seq(x) <= Seq(last) {
        assert x in multiset(Insert(front, e));
      }
      AppendAscends(Insert(front, e), last);
    }
  }

  lemma {:induction false} SortedAscends(es: seq<Event>)
    ensures Ascending(Sorted(es)) && multiset(Sorted(es)) == multiset(es)
  {
    if es != [] {
      var front, last := es[..|es| - 1], es[|es| - 1];
      assert es == front + [last];
      SortedAscends(front);
      InsertAscends(Sorted(front), last);
    }
  }

  /** The events numbered n, in order. */
  function AtNumber(es: seq<Event>, n: int): seq<Event> {
    if es == [] then []
    else
      var last := es[|es| - 1];
      AtNumber(es[..|es| - 1], n) + if Seq(last) == n then [last] else []
  }

  lemma AtNumberStep(es: seq<Event>, e: Event, n: int)
    ensures AtNumber(es + [e], n) == AtNumber(es, n) + if Seq(e) == n then [e] else []
  {
    assert (es + [e])[..|es|] == es;
  }

  lemma {:induction false} InsertStable(s: seq<Event>, e: Event, n: int)
    ensures AtNumber(Insert(s, e), n) == AtNumber(s, n) + if Seq(e) == n then [e] else []
  {
    hide AtNumber, Seq;
    AtNumberStep(s, e, n);
    if s != [] && Seq(s[|s| - 1]) > Seq(e) {
      var front, last := s[..|s| - 1], s[|s| - 1];
      assert s == front + [last];
      InsertStable(front, e, n);
      AtNumberStep(Insert(front, e), last, n);
      AtNumberStep(front, last, n);
    }
  }

  /** Events with one number keep their order, so which of two copies is judged first is fixed. */
  lemma {:induction false} SortedStable(es: seq<Event>, n: int)
    ensures AtNumber(Sorted(es), n) == AtNumber(es, n)
  {
    if es != [] {
      var front, last := es[..|es| - 1], es[|es| - 1];
      assert es == front + [last];
      SortedStable(front, n);
      InsertStable(Sorted(front), last, n);
    }
  }

  // ----- One session -----

  /** The first check that the i-th event of a sorted chain fails, if any. */
  function FaultAt(s: seq<Event>, i: nat): Option<Fault>
    requires i < |s|
  {
    if s[i].sdkSig.None? || |s[i].sdkSig.value| != 64 then Some(MalformedSig)
    else if i == 0 then
      if Seq(s[0]) != 1 then Some(BadStart(Seq(s[0]))) else None
    else if Seq(s[i]) != Seq(s[i - 1]) + 1 then Some(SeqGap)
    else if s[i].prevSig.None? then Some(MissingPrev)
    else if s[i].prevSig != s[i - 1].sdkSig then Some(BrokenLink)
    else if Ts(s[i]) < Ts(s[i - 1]) then Some(TimeRegression)
    else if s[i].format != s[i - 1].format then Some(FormatChange)
    else None
  }

  ghost predicate Faultless(s: seq<Event>, n: nat)
    requires n <= |s|
  {
    forall i :: 0 <= i < n ==> FaultAt(s, i).None?
  }

  ghost predicate FirstFault(s: seq<Event>, fault: Option<Fault>) {
    if fault.None? then Faultless(s, |s|)
    else exists i :: 0 <= i < |s| && FaultAt(s, i) == fault && Faultless(s, i)
  }

  /** `_verify_session_structure`: the first fault in sequence order. */
  method VerifySession(events: seq<Event>) returns (fault: Option<Fault>)
    ensures FirstFault(Sorted(events), fault)
    ensures fault.None? <==> SessionOk(events)
  {
    SessionVerdict(events);
    var ordered := Sorted(events);
    for i := 0 to |ordered|
      invariant Faultless(ordered, i)
    {
      ghost var expected := FaultAt(ordered, i);
      var event := ordered[i];
      if event.sdkSig.None? || |event.sdkSig.value| != 64 {
        return Some(MalformedSig);
      }
      if i == 0 {
        var first := Seq(event);
        if first != 1 {
          return Some(BadStart(first));
        }
        continue;
      }
      var prev := ordered[i - 1];
      if Seq(event) != Seq(prev) + 1 {
        return Some(SeqGap);
      }
      if event.prevSig.None? {
        return Some(MissingPrev);
      }
      if event.prevSig != prev.sdkSig {
        return Some(BrokenLink);
      }
      if Ts(event) < Ts(prev) {
        return Some(TimeRegression);
      }
      if event.format != prev.format {
        return Some(FormatChange);
      }
    }
    fault := None;
  }

  /** The chain that a keyless check accepts. */
  ghost predicate SoundChain(s: seq<Event>) {
    && (forall i :: 0 <= i < |s| ==> Seq(s[i]) == i + 1)
    && (forall e :: e in s ==> Signed(e))
    && (forall i, j :: 0 <= i < |s| && j == i + 1 < |s| ==> Follows(s[i], s[j]))
  }

  predicate Signed(e: Event) {
    e.sdkSig.Some? && |e.sdkSig.value| == 64
  }

  predicate Follows(a: Event, b: Event) {
    b.prevSig.Some? && b.prevSig == a.sdkSig && Ts(b) >= Ts(a) && b.format == a.format
  }

  ghost predicate ArrangedSound(s: seq<Event>, events: seq<Event>) {
    multiset(s) == multiset(events) && SoundChain(s)
  }

  /** Some ordering of the events is a sound chain. */
  ghost predicate SessionOk(events: seq<Event>) {
    exists s :: ArrangedSound(s, events)
  }

  lemma {:induction false} SoundNumbers(s: seq<Event>, n: nat)
    requires n <= |s|
    requires Faultless(s, |s|)
    ensures forall i :: 0 <= i < n ==> Seq(s[i]) == i + 1
  {
    if n > 0 {
      SoundNumbers(s, n - 1);
      assert FaultAt(s, n - 1).None?;
    }
  }

  lemma SoundFaultless(s: seq<Event>)
    ensures Faultless(s, |s|) <==> SoundChain(s)
  {
    if Faultless(s, |s|) {
      SoundNumbers(s, |s|);
      forall e | e in s ensures Signed(e) {
        var i :| 0 <= i < |s| && s[i] == e;
        assert FaultAt(s, i).None?;
      }
      forall i, j | 0 <= i < |s| && j == i + 1 < |s| ensures Follows(s[i], s[j]) {
        assert FaultAt(s, j).None?;
      }
    } else if SoundChain(s) {
      forall i | 0 <= i < |s| ensures FaultAt(s, i).None? {
        assert Signed(s[i]);
        assert i > 0 ==> Follows(s[i - 1], s[i]);
      }
    }
  }

  /** Sorting and checking neighbours decides whether a sound ordering exists at all. */
  lemma SessionVerdict(events: seq<Event>)
    ensures |Sorted(events)| == |events|
    ensures SessionOk(events) <==> Faultless(Sorted(events), |events|)
  {
    var s := Sorted(events);
    SortedAscends(events);
    PermutedMembers(s, events);
    SoundFaultless(s);
    if SessionOk(events) {
      var c :| ArrangedSound(c, events);
      AscendingUnique(c, s, Seq);
    } else {
      assert !ArrangedSound(s, events);
    }
  }

  // ----- The verdict in terms of the stored fields -----

  /** The stored number is n: as an integer, or as the JSON `true` that Python takes for 1. */
  predicate StoredNumber(s: SeqNo, n: int) {
    s == Whole(n) || (s == Flag(true) && n == 1) || (s == Flag(false) && n == 0)
  }

  /** The second time is not before the first; an absent time is 0. */
  predicate NotBefore(a: Option<real>, b: Option<real>) {
    match (a, b)
    case (None, None) => true
    case (Some(t), None) => t <= 0.0
    case (None, Some(u)) => 0.0 <= u
    case (Some(t), Some(u)) => t <= u
  }

  /** 1, 2, 3, ... in the stored numbers, signatures of 64 characters, each event quoting the one
      before it, times that do not go back, one format. */
  ghost predicate StoredChain(s: seq<Event>) {
    && (forall i :: 0 <= i < |s| ==> StoredNumber(s[i].seqNo, i + 1))
    && (forall i :: 0 <= i < |s| ==> s[i].sdkSig.Some? && |s[i].sdkSig.value| == 64)
    && (forall i, j :: 0 <= i < |s| && j == i + 1 < |s| ==>
          s[j].prevSig == s[i].sdkSig && NotBefore(s[i].timestamp, s[j].timestamp) && s[j].format == s[i].format)
  }

  ghost predicate ArrangedStored(s: seq<Event>, events: seq<Event>) {
    multiset(s) == multiset(events) && StoredChain(s)
  }

  lemma SoundAsStored(s: seq<Event>)
    ensures SoundChain(s) <==> StoredChain(s)
  {
    if SoundChain(s) {
      forall i | 0 <= i < |s| ensures s[i].sdkSig.Some? && |s[i].sdkSig.value| == 64 {
        assert s[i] in s;
      }
      forall i | 0 <= i < |s| ensures StoredNumber(s[i].seqNo, i + 1) {
        assert Seq(s[i]) == i + 1;
      }
      forall i, j | 0 <= i < |s| && j == i + 1 < |s|
        ensures s[j].prevSig == s[i].sdkSig && NotBefore(s[i].timestamp, s[j].timestamp) && s[j].format == s[i].format
      {
        assert Follows(s[i], s[j]);
      }
    }
    if StoredChain(s) {
      forall i | 0 <= i < |s| ensures Seq(s[i]) == i + 1 {
        assert StoredNumber(s[i].seqNo, i + 1);
      }
      forall i, j | 0 <= i < |s| && j == i + 1 < |s| ensures Follows(s[i], s[j]) {
        assert NotBefore(s[i].timestamp, s[j].timestamp);
      }
    }
  }

  /** A session is accepted exactly when some ordering of its events is such a chain of stored fields. */
  lemma AcceptedAsStored(events: seq<Event>)
    ensures SessionOk(events) <==> exists s :: ArrangedStored(s, events)
  {
    forall s: seq<Event> ensures ArrangedStored(s, events) <==> ArrangedSound(s, events) {
      SoundAsStored(s);
    }
  }

  /** The second stored number is one more than the first. */
  ghost predicate Successive(a: SeqNo, b: SeqNo) {
    exists m, n :: StoredNumber(a, m) && StoredNumber(b, n) && n == m + 1
  }

  /** What the reported fault says about the stored fields at its place. */
  lemma FaultAsStored(s: seq<Event>, i: nat)
    requires i < |s| && FaultAt(s, i).Some?
    ensures match FaultAt(s, i).value
      case MalformedSig => s[i].sdkSig.Some? ==> |s[i].sdkSig.value| != 64
      case BadStart(n) => i == 0 && n != 1 && !StoredNumber(s[i].seqNo, 1)
        && (StoredNumber(s[i].seqNo, n) || (n == 0 && s[i].seqNo in {Missing, NotANumber}))
      case SeqGap => i > 0 && !Successive(s[i - 1].seqNo, s[i].seqNo)
      case MissingPrev => i > 0 && s[i].prevSig.None?
      case BrokenLink => i > 0 && s[i].prevSig.Some? && s[i].prevSig != s[i - 1].sdkSig
      case TimeRegression => i > 0 && !NotBefore(s[i - 1].timestamp, s[i].timestamp)
      case FormatChange => i > 0 && s[i].format != s[i - 1].format
  {
    assert FaultAt(s, i) == Some(SeqGap) ==> Seq(s[i]) != Seq(s[i - 1]) + 1;
  }

  // ----- A whole bundle -----

  /** The key events are grouped by. An event without a session falls under "unknown". */
  function SessionKey(e: Event): string {
    GetOr(e.session, "unknown")
  }

  function Group(events: seq<Event>, sid: string): seq<Event> {
    if events == [] then []
    else
      var last := events[|events| - 1];
      Group(events[..|events| - 1], sid) + if SessionKey(last) == sid then [last] else []
  }

  ghost predicate GroupOk(events: seq<Event>, sid: string) {
    SessionOk(Group(events, sid))
  }

  ghost predicate GroupFault(events: seq<Event>, sid: string, fault: Fault) {
    FirstFault(Sorted(Group(events, sid)), Some(fault))
  }

  ghost predicate BundleOk(events: seq<Event>) {
    forall sid :: GroupOk(events, sid)
  }

  /** Where a session first appears; past the end when it does not. */
  function FirstSeen(events: seq<Event>, sid: string): nat {
    FirstWith(events, SessionKey, sid)
  }

  /** The sessions of the bundle, each once, in order of first appearance. */
  ghost predicate ByAppearance(events: seq<Event>, order: seq<string>) {
    && (forall sid :: sid in order <==> FirstSeen(events, sid) < |events|)
    && (forall i, j :: 0 <= i < j < |order| ==> FirstSeen(events, order[i]) < FirstSeen(events, order[j]))
  }

  /** The dictionary `verify_structure` fills. */
  ghost predicate Filled(events: seq<Event>, sessions: map<string, seq<Event>>, order: seq<string>) {
    && (forall sid :: sid in order <==> sid in sessions)
    && (forall sid :: sid in sessions ==> sessions[sid] == Group(events, sid))
    && (forall sid :: sid !in sessions ==> Group(events, sid) == [])
  }

  /** The dictionary, with its keys in order of first appearance. */
  ghost predicate Grouped(events: seq<Event>, sessions: map<string, seq<Event>>, order: seq<string>) {
    Filled(events, sessions, order) && ByAppearance(events, order)
  }

  method GroupBySession(events: seq<Event>) returns (sessions: map<string, seq<Event>>, order: seq<string>)
    ensures Grouped(events, sessions, order)
  {
    hide Filled, ByAppearance;
    sessions, order := map[], [];
    NothingGrouped();
    for i := 0 to |events|
      invariant sessions.Keys == set sid | sid in order
      invariant Grouped(events[..i], sessions, order)
    {
      GroupStep(events[..i], events[i], sessions, order);
      AppearanceStep(events[..i], events[i], order);
      assert events[..i + 1] == events[..i] + [events[i]];
      var sid := SessionKey(events[i]);
      if sid !in sessions {
        sessions := sessions[sid := []];
        order := order + [sid];
      }
      sessions := sessions[sid := sessions[sid] + [events[i]]];
    }
    assert events[..|events|] == events;
  }

  lemma NothingGrouped()
    ensures Grouped([], map[], [])
  {
  }

  lemma GroupStep(events: seq<Event>, e: Event, sessions: map<string, seq<Event>>, order: seq<string>)
    requires Filled(events, sessions, order)
    ensures var sid := SessionKey(e);
      if sid in sessions then Filled(events + [e], sessions[sid := sessions[sid] + [e]], order)
      else Filled(events + [e], sessions[sid := []][sid := [] + [e]], order + [sid])
  {
    hide Group;
    forall sid
      ensures Group(events + [e], sid) == if sid == SessionKey(e) then Group(events, sid) + [e] else Group(events, sid)
    {
      GroupAppend(events, e, sid);
    }
    assert [] + [e] == [e];
  }

  lemma GroupAppend(events: seq<Event>, e: Event, sid: string)
    ensures Group(events + [e], sid) == if sid == SessionKey(e) then Group(events, sid) + [e] else Group(events, sid)
  {
    assert (events + [e])[..|events|] == events;
    assert Group(events, sid) + [] == Group(events, sid);
  }

  lemma AppearanceStep(events: seq<Event>, e: Event, order: seq<string>)
    requires ByAppearance(events, order)
    ensures ByAppearance(events + [e], if SessionKey(e) in order then order else order + [SessionKey(e)])
  {
    hide FirstSeen;
    var order' := if SessionKey(e) in order then order else order + [SessionKey(e)];
    forall sid
      ensures FirstSeen(events, sid) <= |events| && FirstSeen(events + [e], sid) ==
        if FirstSeen(events, sid) < |events| || sid == SessionKey(e) then FirstSeen(events, sid) else |events| + 1
    {
      SeenStep(events, e, sid);
    }
    assert forall i :: 0 <= i < |order| ==> order[i] in order;
    assert forall sid :: sid in order' <==> sid in order || sid == SessionKey(e);
  }

  lemma SeenStep(events: seq<Event>, e: Event, sid: string)
    ensures FirstSeen(events, sid) <= |events|
    ensures FirstSeen(events + [e], sid) ==
      if FirstSeen(events, sid) < |events| || sid == SessionKey(e) then FirstSeen(events, sid) else |events| + 1
  {
    FirstWithStep(events, e, SessionKey, sid);
  }

  /** `verify_structure`: the first session refused, in order of first appearance. */
  method VerifyStructure(events: seq<Event>) returns (refused: Option<(string, Fault)>)
    ensures refused.None? <==> BundleOk(events)
    ensures refused.Some? ==> GroupFault(events, refused.value.0, refused.value.1)
    ensures refused.Some? ==>
      forall sid :: FirstSeen(events, sid) < FirstSeen(events, refused.value.0) ==> GroupOk(events, sid)
  {
    hide FirstSeen, ByAppearance, SessionOk;
    var sessions, order := GroupBySession(events);
    for i := 0 to |order|
      invariant forall j :: 0 <= j < i ==> GroupOk(events, order[j])
    {
      var sid := order[i];
      var fault := VerifySession(sessions[sid]);
      assert fault.None? <==> GroupOk(events, sid);
      if fault.Some? {
        EarlierOk(events, sessions, order, i);
        return Some((sid, fault.value));
      }
    }
    AllGroups(events, sessions, order);
    refused := None;
  }

  lemma EarlierOk(events: seq<Event>, sessions: map<string, seq<Event>>, order: seq<string>, i: nat)
    requires Grouped(events, sessions, order) && i < |order|
    requires forall j :: 0 <= j < i ==> GroupOk(events, order[j])
    ensures forall sid :: FirstSeen(events, sid) < FirstSeen(events, order[i]) ==> GroupOk(events, sid)
  {
    hide FirstSeen, GroupOk, Filled;
    Seen(events, order, i);
    forall sid | FirstSeen(events, sid) < FirstSeen(events, order[i]) ensures GroupOk(events, sid) {
      var j :| 0 <= j < |order| && order[j] == sid;
      assert j < i;
    }
  }

  lemma Seen(events: seq<Event>, order: seq<string>, i: nat)
    requires ByAppearance(events, order) && i < |order|
    ensures FirstSeen(events, order[i]) < |events|
  {
    assert order[i] in order;
  }

  lemma AllGroups(events: seq<Event>, sessions: map<string, seq<Event>>, order: seq<string>)
    requires Grouped(events, sessions, order)
    requires forall j :: 0 <= j < |order| ==> GroupOk(events, order[j])
    ensures BundleOk(events)
  {
    EmptySessionOk();
    forall sid ensures GroupOk(events, sid) {
      if sid in order {
        var j :| 0 <= j < |order| && order[j] == sid;
      }
    }
  }

  lemma EmptySessionOk()
    ensures SessionOk([])
  {
    assert ArrangedSound([], []);
  }
}
