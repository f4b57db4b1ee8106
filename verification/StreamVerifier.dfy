/** The streaming chain check: events in any order, through a reorder buffer. */
module StreamVerifier {
  import opened Wrappers
  import opened ChainEvents
  import opened SeqFacts

  /** What the reorder buffer keeps of an integer-numbered event. */
  datatype Link = Link(n: int, prev: string, sig: string)

  function LinkOf(e: Event): Link {
    Link(Seq(e), GetOr(e.prevSig, ""), GetOr(e.sdkSig, ""))
  }

  function LinksOf(e: Event): seq<Link> {
    if IsInt(e.seqNo) then [LinkOf(e)] else []
  }

  /** The links of the integer-numbered events, in feeding order. */
  function Numbered(h: seq<Event>): seq<Link> {
    if h == [] then [] else Numbered(h[..|h| - 1]) + LinksOf(h[|h| - 1])
  }

  // ----- What a feed amounts to, without a buffer -----

  /** The first copy fed of every positive number. */
  function Table(h: seq<Link>): map<int, Link> {
    if h == [] then map[]
    else
      var t, x := Table(h[..|h| - 1]), h[|h| - 1];
      if x.n >= 1 && x.n !in t then t[x.n := x] else t
  }

  /** 1..m were all fed and m + 1 was not. */
  ghost predicate Frontier(t: map<int, Link>, m: int) {
    && 0 <= m && m + 1 !in t
    && Covers(t, m)
  }

  ghost predicate Covers(t: map<int, Link>, m: int) {
    forall v :: 1 <= v <= m ==> v in t
  }

  /** The signature number m + 1 has to quote. */
  ghost function Tail(t: map<int, Link>, m: nat): string
    requires Covers(t, m)
  {
    if m == 0 then "" else t[m].sig
  }

  /** How many of the numbers 1..m do not quote their predecessor. */
  ghost function Breaks(t: map<int, Link>, m: nat): nat
    requires Covers(t, m)
  {
    if m == 0 then 0
    else Breaks(t, m - 1) + if t[m].prev != Tail(t, m - 1) then 1 else 0
  }

  /** The session of the first event that names one. */
  function Claimed(h: seq<Event>): Option<string> {
    if h == [] then None
    else
      var c := Claimed(h[..|h| - 1]);
      if c.None? then h[|h| - 1].session else c
  }

  /** How many events name another session (or none) once one has been named. */
  function Mismatches(h: seq<Event>): nat {
    if h == [] then 0
    else
      var c := Claimed(h[..|h| - 1]);
      Mismatches(h[..|h| - 1]) + if c.Some? && h[|h| - 1].session != c then 1 else 0
  }

  /** `chain_format` absent means format 1; formats 1 to 5 are known. */
  predicate Supported(e: Event) {
    1 <= GetOr(e.format, 1) <= 5
  }

  /** How many events declare a format that is not known. */
  function Unsupported(h: seq<Event>): nat {
    if h == [] then 0
    else Unsupported(h[..|h| - 1]) + if Supported(h[|h| - 1]) then 0 else 1
  }

  /** How many events of a known format fail the signature check. */
  function Forged(h: seq<Event>, authentic: Event -> bool): nat {
    if h == [] then 0
    else Forged(h[..|h| - 1], authentic) + if Supported(h[|h| - 1]) && !authentic(h[|h| - 1]) then 1 else 0
  }

  /** The buffer holds the first copies numbered `from` and up. */
  ghost predicate Buffers(pending: map<int, Link>, t: map<int, Link>, from: int) {
    && (forall v :: v in pending <==> v in t && v >= from)
    && (forall v :: v in pending ==> pending[v] == t[v])
  }

  /** The buffer and the chain counters once the numbers below `expected` were drained. */
  ghost predicate Drained(t: map<int, Link>, expected: int, pending: map<int, Link>, prev: string, breaks: nat) {
    && 1 <= expected && Covers(t, expected - 1)
    && Buffers(pending, t, expected)
    && prev == Tail(t, expected - 1)
    && breaks == Breaks(t, expected - 1)
  }

  /** Reading one more number off the buffer. */
  lemma DrainOne(t: map<int, Link>, expected: int, pending: map<int, Link>, prev: string, breaks: nat)
    requires Drained(t, expected, pending, prev, breaks) && expected in pending
    ensures Drained(t, expected + 1, pending - {expected}, pending[expected].sig,
                    breaks + if pending[expected].prev != prev then 1 else 0)
    ensures |pending - {expected}| < |pending|
  {
    assert (pending - {expected}).Keys == pending.Keys - {expected};
    assert |pending| == |pending.Keys| && |pending - {expected}| == |(pending - {expected}).Keys|;
  }

  /** Buffering one more number. */
  lemma BufferOne(t: map<int, Link>, expected: int, pending: map<int, Link>, prev: string, breaks: nat, x: Link)
    requires Drained(t, expected, pending, prev, breaks) && x.n >= expected
    ensures Drained(t[x.n := x], expected, pending[x.n := x], prev, breaks)
  {
    BreaksIgnoreLater(t, t[x.n := x], expected - 1);
  }

  lemma TableStep(h: seq<Link>, x: Link)
    ensures Table(h + [x]) == if x.n >= 1 && x.n !in Table(h) then Table(h)[x.n := x] else Table(h)
  {
    assert (h + [x])[..|h|] == h;
  }

  class ChainVerifier {
    /** The HMAC recomputation under the event's own format, over its chain fields and its content. */
    const authentic: Event -> bool

    var events: nat
    var gaps: nat
    var dupes: nat
    var sigFailures: nat
    var unsupportedFormat: nat
    var linkFailures: nat
    var outOfOrder: nat
    var sessionMismatches: nat
    var firstSeq: Option<int>
    var sessionId: Option<string>
    var expectedSeq: int
    var prevSigExpected: string
    var pending: map<int, Link>
    var maxPending: nat

    /** Everything fed so far. */
    ghost var fed: seq<Event>

    /** The reorder buffer and its counters are determined by the links fed. */
    ghost predicate Tracks(h: seq<Link>)
      reads this
    {
      && Drained(Table(h), expectedSeq, pending, prevSigExpected, linkFailures)
      && expectedSeq !in Table(h)
      && |h| == |Table(h)| + dupes
      && gaps == 0
      && firstSeq == (if h == [] then None else Some(h[0].n))
    }

    /** The per-event counters are determined by the events fed. */
    ghost predicate Counts()
      reads this
    {
      && events == |fed|
      && sessionId == Claimed(fed)
      && sessionMismatches == Mismatches(fed)
      && unsupportedFormat == Unsupported(fed)
      && sigFailures == Forged(fed, authentic)
    }

    ghost predicate Valid()
      reads this
    {
      Tracks(Numbered(fed)) && Counts()
    }

    constructor (authentic: Event -> bool)
      ensures Valid() && fed == [] && this.authentic == authentic
      ensures outOfOrder == 0 && maxPending == 0
    {
      this.authentic := authentic;
      events, gaps, dupes, sigFailures, unsupportedFormat := 0, 0, 0, 0, 0;
      linkFailures, outOfOrder, sessionMismatches := 0, 0, 0;
      firstSeq, sessionId := None, None;
      expectedSeq, prevSigExpected, pending, maxPending := 1, "", map[], 0;
      fed := [];
    }

    /** `_feed`. */
    method Feed(e: Event)
      requires Valid()
      modifies this
      ensures Valid() && fed == old(fed) + [e]
      ensures var known := e.format in {None, Some(1), Some(2), Some(3), Some(4), Some(5)};
        && unsupportedFormat == old(unsupportedFormat) + (if known then 0 else 1)
        && sigFailures == old(sigFailures) + (if known && !authentic(e) then 1 else 0)
      ensures var accepted := IsInt(e.seqNo) && Seq(e) >= old(expectedSeq) && Seq(e) !in old(pending);
        && outOfOrder == old(outOfOrder) + (if accepted && Seq(e) != old(expectedSeq) then 1 else 0)
        && maxPending ==
           (if accepted && |old(pending)| + 1 > old(maxPending) then |old(pending)| + 1 else old(maxPending))
    {
      hide Table, Drained, Numbered;
      ghost var h := Numbered(fed);
      NumberedStep(fed, e);
      Note(e);
      if !IsInt(e.seqNo) {
        return;
      }
      Place(LinkOf(e), h);
      assert h + [LinkOf(e)] == Numbered(fed);
    }

    /** The first half of `_feed`: the per-event checks. */
    method Note(e: Event)
      requires Counts()
      modifies this`events, this`sessionId, this`sessionMismatches
      modifies this`unsupportedFormat, this`sigFailures, this`fed
      ensures Counts() && fed == old(fed) + [e]
      ensures var known := e.format in {None, Some(1), Some(2), Some(3), Some(4), Some(5)};
        && unsupportedFormat == old(unsupportedFormat) + (if known then 0 else 1)
        && sigFailures == old(sigFailures) + (if known && !authentic(e) then 1 else 0)
    {
      fed := fed + [e];
      assert fed[..|fed| - 1] == old(fed);
      events := events + 1;
      if sessionId.None? {
        sessionId := e.session;
      } else if e.session != sessionId {
        sessionMismatches := sessionMismatches + 1;
      }
      if !Supported(e) {
        unsupportedFormat := unsupportedFormat + 1;
      } else if !authentic(e) {
        sigFailures := sigFailures + 1;
      }
    }

    /** The second half of `_feed`: buffer the link, then drain the run it may have completed. */
    method Place(link: Link, ghost h: seq<Link>)
      requires Tracks(h)
      modifies this`firstSeq, this`dupes, this`outOfOrder, this`pending, this`maxPending
      modifies this`linkFailures, this`prevSigExpected, this`expectedSeq
      ensures Tracks(h + [link])
      ensures var accepted := link.n >= old(expectedSeq) && link.n !in old(pending);
        && outOfOrder == old(outOfOrder) + (if accepted && link.n != old(expectedSeq) then 1 else 0)
        && maxPending ==
           (if accepted && |old(pending)| + 1 > old(maxPending) then |old(pending)| + 1 else old(maxPending))
    {
      hide Table, Breaks, Tail;
      TableStep(h, link);
      if firstSeq.None? {
        firstSeq := Some(link.n);
      }
      if link.n < expectedSeq || link.n in pending {
        dupes := dupes + 1;
        return;
      }
      if link.n != expectedSeq {
        outOfOrder := outOfOrder + 1;
      }
      BufferOne(Table(h), expectedSeq, pending, prevSigExpected, linkFailures, link);
      pending := pending[link.n := link];
      if |pending| > maxPending {
        maxPending := |pending|;
      }
      Drain(Table(h + [link]));
    }

    /** The loop of `_feed`: consume the contiguous run at the head of the buffer. */
    method Drain(ghost t: map<int, Link>)
      requires Drained(t, expectedSeq, pending, prevSigExpected, linkFailures)
      modifies this`pending, this`linkFailures, this`prevSigExpected, this`expectedSeq
      ensures Drained(t, expectedSeq, pending, prevSigExpected, linkFailures)
      ensures expectedSeq !in t
    {
      hide Breaks, Tail;
      while expectedSeq in pending
        invariant Drained(t, expectedSeq, pending, prevSigExpected, linkFailures)
        decreases |pending|
      {
        DrainOne(t, expectedSeq, pending, prevSigExpected, linkFailures);
        var p := pending[expectedSeq];
        pending := pending - {expectedSeq};
        if p.prev != prevSigExpected {
          linkFailures := linkFailures + 1;
        }
        prevSigExpected := p.sig;
        expectedSeq := expectedSeq + 1;
      }
    }

    /** The counters once the buffer has been closed. */
    ghost predicate Closed()
      reads this
    {
      var h := Numbered(fed);
      && Frontier(Table(h), expectedSeq - 1)
      && linkFailures == Breaks(Table(h), expectedSeq - 1)
      && |h| == |Table(h)| + dupes
      && |Table(h)| == expectedSeq - 1 + gaps
      && Counts()
    }

    /** `finalize`: what is still buffered never got its predecessor. */
    method Finalize()
      requires Valid()
      modifies this`gaps, this`pending
      ensures Closed() && pending == map[] && gaps == |old(pending)|
    {
      hide Table, Breaks, Tail, Numbered;
      FeedConservation(this);
      gaps := gaps + |pending|;
      pending := map[];
    }

    /** `clean`, when no feed raised an exception. */
    predicate Clean()
      reads this
    {
      && gaps == 0 && dupes == 0 && sigFailures == 0 && unsupportedFormat == 0
      && linkFailures == 0 && sessionMismatches == 0
    }
  }

  // ----- What a clean chain is -----

  /** Numbered 1, 2, 3, ... and each quoting the signature of the one before it. */
  ghost predicate Linked(s: seq<Link>) {
    && (forall i :: 0 <= i < |s| ==> s[i].n == i + 1)
    && (s != [] ==> s[0].prev == "")
    && (forall i, j :: 0 <= i < |s| && j == i + 1 < |s| ==> s[j].prev == s[i].sig)
  }

  ghost predicate ArrangedLinked(s: seq<Link>, h: seq<Link>) {
    multiset(s) == multiset(h) && Linked(s)
  }

  ghost predicate LinkedPermutation(h: seq<Link>) {
    exists s :: ArrangedLinked(s, h)
  }

  ghost predicate SessionsAgree(h: seq<Event>) {
    forall i, j :: 0 <= i < j < |h| && h[i].session.Some? ==> h[j].session == h[i].session
  }

  ghost predicate Authenticated(h: seq<Event>, authentic: Event -> bool) {
    forall e :: e in h ==> Supported(e) && authentic(e)
  }

  ghost predicate CleanFeed(h: seq<Event>, authentic: Event -> bool) {
    && LinkedPermutation(Numbered(h))
    && SessionsAgree(h)
    && Authenticated(h, authentic)
  }

  // ----- Lemmas -----

  lemma NumberedStep(h: seq<Event>, e: Event)
    ensures Numbered(h + [e]) == Numbered(h) + LinksOf(e)
    ensures !IsInt(e.seqNo) ==> Numbered(h + [e]) == Numbered(h)
  {
    assert (h + [e])[..|h|] == h;
  }

  lemma {:induction false} BreaksIgnoreLater(t: map<int, Link>, t': map<int, Link>, m: nat)
    requires Covers(t, m) && Covers(t', m)
    requires forall v :: 1 <= v <= m ==> t[v] == t'[v]
    ensures Breaks(t, m) == Breaks(t', m) && Tail(t, m) == Tail(t', m)
  {
    if m > 0 {
      BreaksIgnoreLater(t, t', m - 1);
    }
  }

  /** In number order, every entry up to m quotes the one before it. */
  ghost predicate LinksUp(t: map<int, Link>, m: nat)
    requires Covers(t, m)
  {
    && (m > 0 ==> t[1].prev == "")
    && (forall v, w :: 1 <= v <= m && w == v + 1 <= m ==> t[w].prev == t[v].sig)
  }

  lemma {:induction false} BreaksNone(t: map<int, Link>, m: nat)
    requires Covers(t, m)
    ensures Breaks(t, m) == 0 <==> LinksUp(t, m)
  {
    if m > 0 {
      BreaksNone(t, m - 1);
    }
  }

  /** The entries are links of h, under their own numbers, one for every positive number. */
  ghost predicate CopiesOf(t: map<int, Link>, h: seq<Link>) {
    && (forall v :: v in t ==> v >= 1 && t[v].n == v && t[v] in h)
    && (forall x :: x in h && x.n >= 1 ==> x.n in t)
  }

  lemma TablePositive(h: seq<Link>)
    ensures CopiesOf(Table(h), h)
  {
  }

  ghost predicate DistinctPositive(h: seq<Link>) {
    && (forall x :: x in h ==> x.n >= 1)
    && (forall i, j :: 0 <= i < j < |h| ==> h[i].n != h[j].n)
  }

  lemma {:induction false} TableSize(h: seq<Link>)
    ensures |Table(h)| <= |h|
    ensures |Table(h)| == |h| <==> DistinctPositive(h)
    ensures |Table(h)| == |h| ==> forall x :: x in h ==> x.n in Table(h) && Table(h)[x.n] == x
  {
    if h != [] {
      var front, last := h[..|h| - 1], h[|h| - 1];
      assert h == front + [last];
      TableSize(front);
      TablePositive(front);
      DistinctStep(front, last, Table(front));
    }
  }

  lemma DistinctStep(front: seq<Link>, last: Link, t: map<int, Link>)
    requires forall x :: x in front && x.n >= 1 ==> x.n in t
    requires forall v :: v in t ==> t[v].n == v && t[v] in front
    ensures DistinctPositive(front + [last]) <==> DistinctPositive(front) && last.n >= 1 && last.n !in t
  {
    var h := front + [last];
    if DistinctPositive(h) {
      assert last in h;
      forall x | x in front ensures x.n >= 1 {
        assert x in h;
      }
      forall i, j | 0 <= i < j < |front| ensures front[i].n != front[j].n {
        assert h[i] == front[i] && h[j] == front[j];
      }
      forall x | x in front ensures x.n != last.n {
        var i :| 0 <= i < |front| && front[i] == x;
        assert h[i] == x && h[|front|] == last;
      }
    }
  }

  /** What was fed and is not a repeat is either drained or buffered. */
  lemma BufferSize(t: map<int, Link>, m: int, pending: map<int, Link>)
    requires Frontier(t, m) && Buffers(pending, t, m + 1)
    requires forall v :: v in t ==> v >= 1
    ensures |t| == m + |pending|
  {
    assert |t| == |t.Keys| && |pending| == |pending.Keys|;
    SplitSize(t.Keys, m, pending.Keys);
  }

  lemma SplitSize(keys: set<int>, m: nat, high: set<int>)
    requires forall v :: v in keys ==> v >= 1
    requires forall v :: 1 <= v <= m ==> v in keys
    requires forall v :: v in high <==> v in keys && v > m
    ensures |keys| == m + |high|
  {
    var low := keys - high;
    IntervalSize(low, 1, m + 1);
    assert keys == low + high;
  }

  /** After every feed, each number fed has been drained, is buffered, or was counted as a
      repeat; and whatever is buffered lies beyond the number awaited. */
  lemma FeedConservation(v: ChainVerifier)
    requires v.Valid()
    ensures |Numbered(v.fed)| == (v.expectedSeq - 1) + |v.pending| + v.dupes
    ensures |Table(Numbered(v.fed))| == v.expectedSeq - 1 + |v.pending|
    ensures forall k :: k in v.pending ==> k > v.expectedSeq
  {
    hide Table, Numbered, Breaks, Tail;
    var h := Numbered(v.fed);
    TablePositive(h);
    BufferSize(Table(h), v.expectedSeq - 1, v.pending);
  }

  /** The verdict read off the closed counters says exactly what a clean chain is. */
  lemma ClosingVerdict(v: ChainVerifier)
    requires v.Closed()
    ensures v.gaps == 0 && v.dupes == 0 && v.linkFailures == 0 <==> LinkedPermutation(Numbered(v.fed))
    ensures v.Clean() <==> CleanFeed(v.fed, v.authentic)
  {
    hide Table, Breaks, Frontier, Numbered, LinkedPermutation, SessionsAgree, Authenticated;
    hide Claimed, Mismatches, Unsupported, Forged;
    Verdict(Numbered(v.fed), v.expectedSeq - 1);
    EventVerdicts(v.fed, v.authentic);
  }

  lemma {:induction false} EventVerdicts(h: seq<Event>, authentic: Event -> bool)
    ensures Unsupported(h) == 0 && Forged(h, authentic) == 0 <==> Authenticated(h, authentic)
    ensures Mismatches(h) == 0 <==> SessionsAgree(h)
    ensures Claimed(h).None? <==> forall e :: e in h ==> e.session.None?
    ensures Claimed(h).Some? ==> exists i :: 0 <= i < |h| && h[i].session == Claimed(h)
  {
    if h != [] {
      var front, last := h[..|h| - 1], h[|h| - 1];
      assert h == front + [last];
      EventVerdicts(front, authentic);
      SessionStep(front, last);
    }
  }

  lemma SessionStep(front: seq<Event>, last: Event)
    requires Claimed(front).None? <==> forall e :: e in front ==> e.session.None?
    requires Claimed(front).Some? ==> exists i :: 0 <= i < |front| && front[i].session == Claimed(front)
    ensures SessionsAgree(front + [last]) <==>
            SessionsAgree(front) && (Claimed(front).Some? ==> last.session == Claimed(front))
  {
    var h := front + [last];
    if SessionsAgree(h) {
      forall i, j | 0 <= i < j < |front| && front[i].session.Some? ensures front[j].session == front[i].session {
        assert h[i] == front[i] && h[j] == front[j];
      }
      if Claimed(front).Some? {
        var i :| 0 <= i < |front| && front[i].session == Claimed(front);
        assert h[i] == front[i] && h[|front|] == last;
      }
    }
    if SessionsAgree(front) && (Claimed(front).Some? ==> last.session == Claimed(front)) {
      forall i, j | 0 <= i < j < |h| && h[i].session.Some? ensures h[j].session == h[i].session {
        assert h[i] == front[i] && front[i] in front;
        var k :| 0 <= k < |front| && front[k].session == Claimed(front);
        assert front[i].session == front[k].session;
      }
    }
  }

  /** The counters are all zero exactly when the numbers fed are a permutation of 1..n and, in
      number order, every event quotes its predecessor. */
  lemma Verdict(h: seq<Link>, m: int)
    requires Frontier(Table(h), m)
    ensures |Table(h)| == m && |h| == |Table(h)| && Breaks(Table(h), m) == 0 <==> LinkedPermutation(h)
  {
    if |Table(h)| == m && |h| == |Table(h)| && Breaks(Table(h), m) == 0 {
      ZeroCountersLink(h, m);
    }
    if LinkedPermutation(h) {
      var s :| ArrangedLinked(s, h);
      LinkedZeroCounters(h, s, m);
    }
  }

  lemma ZeroCountersLink(h: seq<Link>, m: int)
    requires Frontier(Table(h), m)
    requires |Table(h)| == m && |h| == |Table(h)| && Breaks(Table(h), m) == 0
    ensures LinkedPermutation(h)
  {
    var t := Table(h);
    TablePositive(h);
    TableSize(h);
    BreaksNone(t, m);
    KeysAre(t, m);
    TableLinks(h, t, m);
  }

  lemma TableLinks(h: seq<Link>, t: map<int, Link>, m: nat)
    requires forall v :: v in t <==> 1 <= v <= m
    requires forall v :: v in t ==> t[v].n == v && t[v] in h
    requires forall x :: x in h ==> x.n in t && t[x.n] == x
    requires forall i, j :: 0 <= i < j < |h| ==> h[i].n != h[j].n
    requires Covers(t, m) && LinksUp(t, m)
    ensures LinkedPermutation(h)
  {
    var s := seq(m, i requires 0 <= i < m => t[i + 1]);
    assert forall i :: 0 <= i < m ==> s[i].n == i + 1;
    forall x | x in h ensures x in s {
      assert s[x.n - 1] == x;
    }
    SameElementsPermute(s, h);
    assert ArrangedLinked(s, h);
  }

  lemma KeysAre(t: map<int, Link>, m: int)
    requires Frontier(t, m) && |t| == m
    ensures forall v :: v in t <==> 1 <= v <= m
  {
    var drained := set v | v in t && 1 <= v <= m;
    IntervalSize(drained, 1, m + 1);
    assert drained <= t.Keys && |t.Keys| == |drained|;
    assert t.Keys == drained + (t.Keys - drained);
  }

  lemma LinkedZeroCounters(h: seq<Link>, s: seq<Link>, m: int)
    requires Frontier(Table(h), m)
    requires multiset(s) == multiset(h) && Linked(s)
    ensures |Table(h)| == m && |h| == |Table(h)| && Breaks(Table(h), m) == 0
  {
    LinkedEntries(h, s);
    LinkedTable(Table(h), s, m);
    BreaksNone(Table(h), m);
  }

  lemma LinkedEntries(h: seq<Link>, s: seq<Link>)
    requires multiset(s) == multiset(h) && Linked(s)
    ensures |Table(h)| == |h| == |s|
    ensures forall v :: v in Table(h) ==> 1 <= v <= |s| && Table(h)[v] == s[v - 1]
    ensures forall x :: x in s ==> x.n in Table(h)
  {
    hide Table, Linked, DistinctPositive;
    var t := Table(h);
    assert |t| == |h| by {
      LinkedDistinct(h, s);
      TableSize(h);
    }
    TablePositive(h);
    PermutedMembers(s, h);
    forall v | v in t ensures 1 <= v <= |s| && t[v] == s[v - 1] {
      LinkedMember(s, t[v]);
    }
    forall x | x in s ensures x.n in t {
      LinkedMember(s, x);
    }
  }

  lemma LinkedMember(s: seq<Link>, x: Link)
    requires Linked(s) && x in s
    ensures 1 <= x.n <= |s| && s[x.n - 1] == x
  {
  }

  lemma LinkedDistinct(h: seq<Link>, s: seq<Link>)
    requires multiset(s) == multiset(h) && Linked(s)
    ensures |h| == |s| && (forall x :: x in h <==> x in s)
    ensures DistinctPositive(h)
  {
    PermutedMembers(s, h);
    DistinctPermuted(s, h);
    forall i, j | 0 <= i < j < |h| ensures h[i].n != h[j].n {
      assert h[i] in h && h[j] in h;
      var k :| 0 <= k < |s| && s[k] == h[i];
      var l :| 0 <= l < |s| && s[l] == h[j];
      assert h[i] != h[j];
    }
    forall x | x in h ensures x.n >= 1 {
      var k :| 0 <= k < |s| && s[k] == x;
    }
  }

  lemma LinkedTable(t: map<int, Link>, s: seq<Link>, m: int)
    requires Frontier(t, m) && |t| == |s| && Linked(s)
    requires forall v :: v in t ==> 1 <= v <= |s| && t[v] == s[v - 1]
    requires forall x :: x in s ==> x.n in t
    ensures m == |s| && LinksUp(t, m)
  {
    forall v | 1 <= v <= |s| ensures v in t {
      assert s[v - 1] in s;
    }
    assert m >= 1 ==> m in t;
    assert m + 1 !in t;
  }

  // ----- What does not depend on the delivery order -----

  lemma {:induction false} NumberedConcat(a: seq<Event>, b: seq<Event>)
    ensures Numbered(a + b) == Numbered(a) + Numbered(b)
  {
    if b == [] {
      assert a + b == a;
    } else {
      var front, last := b[..|b| - 1], b[|b| - 1];
      assert a + b == (a + front) + [last];
      NumberedConcat(a, front);
      NumberedStep(a + front, last);
    }
  }

  lemma NumberedSplit(b: seq<Event>, rest: seq<Event>, p: seq<Event>, e: Event, q: seq<Event>)
    requires b == p + [e] + q && rest == p + q
    ensures multiset(Numbered(b)) == multiset(Numbered(rest)) + multiset(LinksOf(e))
  {
    NumberedConcat(p, q);
    NumberedConcat(p + [e], q);
    NumberedStep(p, e);
  }

  lemma {:induction false} NumberedPermuted(a: seq<Event>, b: seq<Event>)
    requires multiset(a) == multiset(b)
    ensures multiset(Numbered(a)) == multiset(Numbered(b))
    decreases |a|
  {
    if a == [] {
      PermutedMembers(a, b);
    } else {
      var front, rest, links := TakeOut(a, b);
      NumberedPermuted(front, rest);
    }
  }

  /** Takes one event out of both of two permutations. */
  lemma TakeOut(a: seq<Event>, b: seq<Event>) returns (front: seq<Event>, rest: seq<Event>, links: multiset<Link>)
    requires a != [] && multiset(a) == multiset(b)
    ensures |front| < |a| && multiset(front) == multiset(rest)
    ensures multiset(Numbered(a)) == multiset(Numbered(front)) + links
    ensures multiset(Numbered(b)) == multiset(Numbered(rest)) + links
  {
    var last := a[|a| - 1];
    front, links := a[..|a| - 1], multiset(LinksOf(last));
    NumberedSplit(a, front, front, last, []);
    var i := Occurrence(b, last, a);
    rest := b[..i] + b[i + 1..];
    NumberedSplit(b, rest, b[..i], last, b[i + 1..]);
    DropLast(a);
    RemoveAt(b, i);
  }

  lemma Occurrence(b: seq<Event>, e: Event, a: seq<Event>) returns (i: nat)
    requires e in a && multiset(a) == multiset(b)
    ensures i < |b| && b[i] == e
  {
    PermutedMembers(a, b);
    i :| i < |b| && b[i] == e;
  }

  /** Copies of one number are equal, as when an event is sent again. */
  ghost predicate CopiesAgree(h: seq<Link>) {
    forall x, y :: x in h && y in h && x.n == y.n && x.n >= 1 ==> x == y
  }

  /** Neither the gaps nor the repeats depend on the delivery order; nor, when the copies of a number
      agree, do the broken links. */
  lemma OrderIndependence(h: seq<Link>, h': seq<Link>, m: int, m': int)
    requires multiset(h) == multiset(h')
    requires Frontier(Table(h), m) && Frontier(Table(h'), m')
    ensures m == m' && |Table(h)| == |Table(h')| && |h| == |h'|
    ensures CopiesAgree(h) ==> Table(h) == Table(h') && Breaks(Table(h), m) == Breaks(Table(h'), m)
  {
    hide Table;
    PermutedMembers(h, h');
    TablePositive(h);
    TablePositive(h');
    SameFrontier(h, h', Table(h), Table(h'), m, m');
    if CopiesAgree(h) {
      SameTables(h, h', Table(h), Table(h'));
    }
  }

  lemma SameFrontier(h: seq<Link>, h': seq<Link>, t: map<int, Link>, t': map<int, Link>, m: int, m': int)
    requires CopiesOf(t, h) && CopiesOf(t', h') && forall x :: x in h <==> x in h'
    requires Frontier(t, m) && Frontier(t', m')
    ensures t.Keys == t'.Keys && |t| == |t'| && m == m'
  {
    forall v ensures v in t <==> v in t' {
      assert v in t ==> t[v] in h';
      assert v in t' ==> t'[v] in h;
    }
    assert t.Keys == t'.Keys;
    assert |t| == |t.Keys| && |t'| == |t'.Keys|;
    assert m + 1 !in t' && m' + 1 !in t;
  }

  lemma SameTables(h: seq<Link>, h': seq<Link>, t: map<int, Link>, t': map<int, Link>)
    requires CopiesOf(t, h) && CopiesOf(t', h') && CopiesAgree(h) && forall x :: x in h <==> x in h'
    ensures t == t'
  {
    forall v ensures v in t <==> v in t' {
      assert v in t ==> t[v] in h';
      assert v in t' ==> t'[v] in h;
    }
    forall v | v in t ensures t'[v] == t[v] {
      assert t[v] in h && t'[v] in h;
    }
    assert t.Keys == t'.Keys;
  }

  ghost predicate SameTableAlways(h: seq<Link>) {
    forall h' :: multiset(h') == multiset(h) ==> Table(h') == Table(h)
  }

  /** The links checked are the same in every delivery order exactly when the copies of each number
      agree. */
  lemma TableOrderFree(h: seq<Link>)
    ensures SameTableAlways(h) <==> CopiesAgree(h)
  {
    hide Table;
    if CopiesAgree(h) {
      forall h' | multiset(h') == multiset(h) ensures Table(h') == Table(h) {
        PermutedMembers(h, h');
        TablePositive(h);
        TablePositive(h');
        SameTables(h, h', Table(h), Table(h'));
      }
    }
    if SameTableAlways(h) {
      forall x, y | x in h && y in h && x.n == y.n && x.n >= 1 ensures x == y {
        var p := Leading(h, x);
        var q := Leading(h, y);
        assert Table(p)[x.n] == Table(q)[y.n];
      }
    }
  }

  /** A delivery order in which x comes first, so that it is the copy that counts. */
  lemma Leading(h: seq<Link>, x: Link) returns (h': seq<Link>)
    requires x in h && x.n >= 1
    ensures multiset(h') == multiset(h) && x.n in Table(h') && Table(h')[x.n] == x
  {
    var i :| 0 <= i < |h| && h[i] == x;
    var rest := h[..i] + h[i + 1..];
    h' := [x] + rest;
    RemoveAt(h, i);
    FirstCounts(x, rest);
  }

  lemma {:induction false} FirstCounts(x: Link, rest: seq<Link>)
    requires x.n >= 1
    ensures x.n in Table([x] + rest) && Table([x] + rest)[x.n] == x
  {
    if rest == [] {
      TableStep([], x);
      assert [x] + rest == [] + [x];
    } else {
      var front, last := rest[..|rest| - 1], rest[|rest| - 1];
      FirstCounts(x, front);
      TableStep([x] + front, last);
      assert [x] + rest == ([x] + front) + [last];
    }
  }

  /** Two verifiers fed the same events in any two orders agree on the gaps and the repeats, on
      whether gaps, repeats and broken links are all absent, and, when the copies of each number agree,
      on the count of broken links. */
  lemma VerdictOrderIndependence(v: ChainVerifier, w: ChainVerifier)
    requires v.Closed() && w.Closed() && multiset(v.fed) == multiset(w.fed)
    ensures v.gaps == w.gaps && v.dupes == w.dupes
    ensures v.gaps == 0 && v.dupes == 0 && v.linkFailures == 0 <==> w.gaps == 0 && w.dupes == 0 && w.linkFailures == 0
    ensures CopiesAgree(Numbered(v.fed)) ==> v.linkFailures == w.linkFailures
  {
    hide Table, Breaks;
    NumberedPermuted(v.fed, w.fed);
    var h, h' := Numbered(v.fed), Numbered(w.fed);
    OrderIndependence(h, h', v.expectedSeq - 1, w.expectedSeq - 1);
    if v.gaps == 0 && v.dupes == 0 {
      NoRepeatsAgree(h);
    }
  }

  /** Without repeats there is only one copy of each number. */
  lemma NoRepeatsAgree(h: seq<Link>)
    requires |h| == |Table(h)|
    ensures CopiesAgree(h)
  {
    TableSize(h);
    forall x, y | x in h && y in h && x.n == y.n ensures x == y {
      var i :| 0 <= i < |h| && h[i] == x;
      var j :| 0 <= j < |h| && h[j] == y;
    }
  }

  // ----- What the sessions add -----

  /** Some event names a session and some event names none. */
  ghost predicate Mixed(h: seq<Event>) {
    exists a, b :: a in h && b in h && a.session.Some? && b.session.None?
  }

  /** All sessions that are named are the same. */
  ghost predicate OneSession(h: seq<Event>) {
    forall a, b :: a in h && b in h && a.session.Some? && b.session.Some? ==> a.session == b.session
  }

  ghost predicate CleanInOrder(h': seq<Event>, h: seq<Event>, authentic: Event -> bool) {
    multiset(h') == multiset(h) && CleanFeed(h', authentic)
  }

  ghost predicate CleanInSome(h: seq<Event>, authentic: Event -> bool) {
    exists h' :: CleanInOrder(h', h, authentic)
  }

  ghost predicate CleanInAll(h: seq<Event>, authentic: Event -> bool) {
    forall h' :: multiset(h') == multiset(h) ==> CleanFeed(h', authentic)
  }

  /** Everything `clean` asks that does not depend on the order. */
  ghost predicate Sound(h: seq<Event>, authentic: Event -> bool) {
    LinkedPermutation(Numbered(h)) && Authenticated(h, authentic) && OneSession(h)
  }

  /** The full verdict, sessions included: some order is clean exactly when links, signatures and the
      named sessions are sound, and every order is clean exactly when, besides, events with and
      without a session are not mixed. */
  lemma CleanOrderFree(h: seq<Event>, authentic: Event -> bool)
    ensures CleanInSome(h, authentic) <==> Sound(h, authentic)
    ensures CleanInAll(h, authentic) <==> Sound(h, authentic) && !Mixed(h)
    ensures (CleanInSome(h, authentic) <==> CleanInAll(h, authentic)) <==> !(Sound(h, authentic) && Mixed(h))
  {
    hide CleanFeed, Sound, Mixed, CleanInOrder;
    if CleanInSome(h, authentic) {
      var h' :| CleanInOrder(h', h, authentic);
      CleanIsSound(h', h, authentic);
    }
    if Sound(h, authentic) {
      var h' := NamedLast(h, authentic);
      assert CleanInOrder(h', h, authentic);
    }
    if Sound(h, authentic) && !Mixed(h) {
      forall h' | multiset(h') == multiset(h) ensures CleanFeed(h', authentic) {
        SoundIsClean(h', h, authentic);
      }
    }
    if CleanInAll(h, authentic) {
      assert CleanFeed(h, authentic);
      CleanItself(h, authentic);
      CleanIsSound(h, h, authentic);
      UnmixedWhenAlways(h, authentic);
    }
  }

  lemma CleanItself(h: seq<Event>, authentic: Event -> bool)
    requires CleanFeed(h, authentic)
    ensures CleanInOrder(h, h, authentic)
  {
  }

  lemma LinkedPermuted(a: seq<Event>, b: seq<Event>)
    requires multiset(a) == multiset(b)
    ensures LinkedPermutation(Numbered(a)) ==> LinkedPermutation(Numbered(b))
  {
    NumberedPermuted(a, b);
    if LinkedPermutation(Numbered(a)) {
      var s :| ArrangedLinked(s, Numbered(a));
      assert ArrangedLinked(s, Numbered(b));
    }
  }

  lemma CleanIsSound(h': seq<Event>, h: seq<Event>, authentic: Event -> bool)
    requires CleanInOrder(h', h, authentic)
    ensures Sound(h, authentic)
  {
    hide LinkedPermutation, Numbered;
    PermutedMembers(h', h);
    LinkedPermuted(h', h);
    forall a, b | a in h && b in h && a.session.Some? && b.session.Some? ensures a.session == b.session {
      var i :| 0 <= i < |h'| && h'[i] == a;
      var j :| 0 <= j < |h'| && h'[j] == b;
    }
  }

  lemma SoundIsClean(h': seq<Event>, h: seq<Event>, authentic: Event -> bool)
    requires Sound(h, authentic) && multiset(h') == multiset(h)
    requires !Mixed(h) || NamedStayNamed(h')
    ensures CleanFeed(h', authentic)
  {
    hide LinkedPermutation, Numbered;
    PermutedMembers(h', h);
    LinkedPermuted(h, h');
    forall i, j | 0 <= i < j < |h'| && h'[i].session.Some? ensures h'[j].session == h'[i].session {
      assert h'[i] in h && h'[j] in h;
    }
  }

  /** Once an event names a session, all later ones do. */
  ghost predicate NamedStayNamed(h: seq<Event>) {
    forall i, j :: 0 <= i < j < |h| && h[i].session.Some? ==> h[j].session.Some?
  }

  function Naming(h: seq<Event>, named: bool): (r: seq<Event>)
    ensures forall e :: e in r ==> e.session.Some? == named
  {
    if h == [] then []
    else
      var last := h[|h| - 1];
      Naming(h[..|h| - 1], named) + if last.session.Some? == named then [last] else []
  }

  lemma {:induction false} NamingSplits(h: seq<Event>)
    ensures multiset(Naming(h, false)) + multiset(Naming(h, true)) == multiset(h)
  {
    if h != [] {
      assert h == h[..|h| - 1] + [h[|h| - 1]];
      NamingSplits(h[..|h| - 1]);
    }
  }

  /** The clean order puts the events without a session first. */
  lemma NamedLast(h: seq<Event>, authentic: Event -> bool) returns (h': seq<Event>)
    requires Sound(h, authentic)
    ensures CleanInOrder(h', h, authentic)
  {
    hide Sound, CleanFeed, Naming;
    h' := Naming(h, false) + Naming(h, true);
    NamingSplits(h);
    assert NamedStayNamed(h');
    SoundIsClean(h', h, authentic);
  }

  lemma UnmixedWhenAlways(h: seq<Event>, authentic: Event -> bool)
    requires CleanInAll(h, authentic)
    ensures !Mixed(h)
  {
    hide LinkedPermutation, Authenticated, Naming;
    var h' := Naming(h, true) + Naming(h, false);
    NamingSplits(h);
    PermutedMembers(h', h);
    assert multiset(h') == multiset(h);
    assert CleanFeed(h', authentic);
    forall a, b | a in h && b in h && a.session.Some? ensures b.session.Some? {
      var i :| 0 <= i < |h'| && h'[i] == a;
      var j :| 0 <= j < |h'| && h'[j] == b;
      assert i < |Naming(h, true)|;
      assert h'[0].session.Some? && h'[i].session == h'[0].session;
    }
  }

  /** An event that names its session before one that names none is a mismatch; after it, it is not. */
  lemma CleanDependsOnOrder()
    ensures var a, b := Event(None, Whole(1), None, None, Some("s1"), None, ""),
                        Event(Some("x"), Whole(2), None, Some("s1"), Some("s2"), None, "");
      CleanFeed([a, b], _ => true) && !CleanFeed([b, a], _ => true)
  {
    var a := Event(None, Whole(1), None, None, Some("s1"), None, "");
    var b := Event(Some("x"), Whole(2), None, Some("s1"), Some("s2"), None, "");
    NumberedStep([], a);
    NumberedStep([a], b);
    assert [] + [a] == [a] && [a] + [b] == [a, b];
    var s := [LinkOf(a), LinkOf(b)];
    assert Numbered([a, b]) == s;
    assert ArrangedLinked(s, Numbered([a, b]));
    assert [b, a][0] == b && [b, a][1] == a;
  }

  /** With a repeated number the count of broken links does depend on the order: only the first
      copy to arrive is checked. */
  lemma RepeatedNumberOrderMatters()
    ensures var good, bad := Link(1, "", "a"), Link(1, "x", "a");
      && multiset([good, bad]) == multiset([bad, good])
      && Frontier(Table([good, bad]), 1) && Frontier(Table([bad, good]), 1)
      && Breaks(Table([good, bad]), 1) == 0 && Breaks(Table([bad, good]), 1) == 1
  {
    hide Table, Breaks;
    var good, bad := Link(1, "", "a"), Link(1, "x", "a");
    TwoCopies(good, bad);
    TwoCopies(bad, good);
  }

  lemma TwoCopies(x: Link, y: Link)
    requires x.n == 1 && y.n == 1
    ensures Table([x, y]) == map[1 := x]
    ensures Breaks(map[1 := x], 1) == if x.prev == "" then 0 else 1
  {
    TableStep([], x);
    TableStep([x], y);
    assert [] + [x] == [x] && [x] + [y] == [x, y];
    assert Breaks(map[1 := x], 0) == 0;
  }
}
