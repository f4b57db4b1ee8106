/** The two chain verifiers judge one chain alike, and what the batch verdict means for parts
    and rearrangements of a bundle. */
module ChainAgreement {
  import opened Wrappers
  import opened ChainEvents
  import opened SeqFacts
  import opened StreamVerifier
  import opened BatchVerifier
  import ChainFormat

  // ----- Rearranging the input -----

  lemma {:induction false} NumberedAll(s: seq<Event>)
    requires forall e :: e in s ==> IsInt(e.seqNo)
    ensures |Numbered(s)| == |s|
    ensures forall i :: 0 <= i < |s| ==> Numbered(s)[i] == LinkOf(s[i])
  {
    if s != [] {
      var front, last := s[..|s| - 1], s[|s| - 1];
      assert s == front + [last];
      NumberedAll(front);
      NumberedStep(front, last);
    }
  }

  lemma {:induction false} GroupCount(es: seq<Event>, sid: string, e: Event)
    ensures multiset(Group(es, sid))[e] == if SessionKey(e) == sid then multiset(es)[e] else 0
  {
    if es != [] {
      var front, last := es[..|es| - 1], es[|es| - 1];
      assert es == front + [last];
      GroupCount(front, sid, e);
    }
  }

  lemma GroupMonotone(sub: seq<Event>, es: seq<Event>, sid: string)
    requires multiset(sub) <= multiset(es)
    ensures multiset(Group(sub, sid)) <= multiset(Group(es, sid))
  {
    forall e ensures multiset(Group(sub, sid))[e] <= multiset(Group(es, sid))[e] {
      GroupCount(sub, sid, e);
      GroupCount(es, sid, e);
    }
  }

  /** The verdict on a session does not depend on the order of its events, repeats or not. */
  lemma SessionPermuted(a: seq<Event>, b: seq<Event>)
    requires multiset(a) == multiset(b)
    ensures SessionOk(a) <==> SessionOk(b)
    ensures |Sorted(a)| == |a| && |Sorted(b)| == |b|
    ensures Faultless(Sorted(a), |a|) <==> Faultless(Sorted(b), |b|)
  {
    SessionVerdict(a);
    SessionVerdict(b);
    if SessionOk(a) {
      var s :| ArrangedSound(s, a);
      assert ArrangedSound(s, b);
    } else if SessionOk(b) {
      var s :| ArrangedSound(s, b);
      assert ArrangedSound(s, a);
    }
  }

  /** Nor does the verdict on a bundle, however its sessions are interleaved. */
  lemma BundlePermuted(a: seq<Event>, b: seq<Event>)
    requires multiset(a) == multiset(b)
    ensures BundleOk(a) <==> BundleOk(b)
  {
    forall sid ensures GroupOk(a, sid) <==> GroupOk(b, sid) {
      GroupMonotone(a, b, sid);
      GroupMonotone(b, a, sid);
      SessionPermuted(Group(a, sid), Group(b, sid));
    }
  }

  // ----- Sessions are judged apart -----

  /** The event is filed under session p; one that names no session is filed under "unknown". */
  predicate OfSession(e: Event, p: string) {
    e.session == Some(p) || (e.session.None? && p == "unknown")
  }

  ghost predicate AllOf(es: seq<Event>, p: string) {
    forall e :: e in es ==> OfSession(e, p)
  }

  ghost predicate NoneOf(es: seq<Event>, p: string) {
    forall e :: e in es ==> !OfSession(e, p)
  }

  lemma {:induction false} GroupAll(es: seq<Event>, p: string)
    requires AllOf(es, p)
    ensures Group(es, p) == es
  {
    if es != [] {
      var front, last := es[..|es| - 1], es[|es| - 1];
      assert es == front + [last] && OfSession(last, p);
      GroupAll(front, p);
    }
  }

  lemma {:induction false} GroupNone(es: seq<Event>, p: string)
    requires NoneOf(es, p)
    ensures Group(es, p) == []
  {
    if es != [] {
      var front, last := es[..|es| - 1], es[|es| - 1];
      assert es == front + [last] && !OfSession(last, p);
      GroupNone(front, p);
    }
  }

  lemma OtherSession(es: seq<Event>, p: string, q: string)
    requires AllOf(es, p) && p != q
    ensures NoneOf(es, q)
  {
    forall e | e in es ensures !OfSession(e, q) {
      assert OfSession(e, p);
    }
  }

  /** A bundle whose events all belong to one session is judged as that session. */
  lemma OneSession(es: seq<Event>, p: string)
    requires AllOf(es, p)
    ensures BundleOk(es) <==> SessionOk(es)
  {
    hide SessionOk, Group;
    EmptySessionOk();
    GroupAll(es, p);
    assert GroupOk(es, p) <==> SessionOk(es);
    forall sid | sid != p ensures GroupOk(es, sid) {
      OtherSession(es, p, sid);
      GroupNone(es, sid);
    }
  }

  /** However the events of one session are interleaved with those of others, the bundle is accepted
      exactly when that session is and the others are. */
  lemma SessionsApart(z: seq<Event>, x: seq<Event>, y: seq<Event>, p: string)
    requires multiset(z) == multiset(x) + multiset(y)
    requires AllOf(x, p) && NoneOf(y, p)
    ensures BundleOk(z) <==> SessionOk(x) && BundleOk(y)
  {
    hide SessionOk, Group;
    EmptySessionOk();
    GroupAll(x, p);
    GroupNone(y, p);
    forall sid ensures GroupOk(z, sid) <==> if sid == p then SessionOk(x) else GroupOk(y, sid) {
      if sid != p {
        OtherSession(x, p, sid);
        GroupNone(x, sid);
      }
      GroupShare(z, x, y, sid);
      SessionPermuted(Group(z, sid), Group(x, sid) + Group(y, sid));
      assert Group(x, sid) + [] == Group(x, sid) && [] + Group(y, sid) == Group(y, sid);
    }
    assert GroupOk(y, p);
  }

  lemma GroupShare(z: seq<Event>, x: seq<Event>, y: seq<Event>, sid: string)
    requires multiset(z) == multiset(x) + multiset(y)
    ensures multiset(Group(z, sid)) == multiset(Group(x, sid) + Group(y, sid))
  {
    hide Group;
    forall e ensures multiset(Group(z, sid))[e] == multiset(Group(x, sid) + Group(y, sid))[e] {
      GroupCount(z, sid, e);
      GroupCount(x, sid, e);
      GroupCount(y, sid, e);
    }
  }

  /** Two sessions, in any interleaving, are both judged, each on its own. */
  lemma TwoSessions(z: seq<Event>, x: seq<Event>, y: seq<Event>, p: string, q: string)
    requires multiset(z) == multiset(x) + multiset(y)
    requires AllOf(x, p) && AllOf(y, q) && p != q
    ensures BundleOk(z) <==> SessionOk(x) && SessionOk(y)
    ensures BundleOk(x + y) <==> SessionOk(x) && SessionOk(y)
  {
    hide SessionOk, BundleOk;
    OtherSession(y, q, p);
    SessionsApart(z, x, y, p);
    SessionsApart(x + y, x, y, p);
    OneSession(y, q);
  }

  // ----- Streaming against batch -----

  /** The event numbered 1 quotes nothing. The batch check does not look at this. */
  ghost predicate HeadUnlinked(es: seq<Event>) {
    forall e :: e in es && Seq(e) == 1 ==> GetOr(e.prevSig, "") == ""
  }

  /** What the batch check looks at and the streaming linkage does not. */
  ghost predicate WellFormed(es: seq<Event>) {
    && (forall e :: e in es ==> IsInt(e.seqNo) && Signed(e) && (Seq(e) != 1 ==> e.prevSig.Some?))
    && (forall a, b :: a in es && b in es && Seq(b) == Seq(a) + 1 ==> Ts(b) >= Ts(a) && b.format == a.format)
  }

  /** For every list of events: the batch check accepts it with an unlinked head exactly when the
      streaming check, fed the events in any order, ends without gaps, repeats or broken links
      and the remaining structural conditions hold. */
  lemma StreamAgreesWithBatch(es: seq<Event>, fed: seq<Event>)
    requires multiset(fed) == multiset(es)
    ensures SessionOk(es) && HeadUnlinked(es) <==> LinkedPermutation(Numbered(fed)) && WellFormed(es)
  {
    LinkedPermuted(es, fed);
    LinkedPermuted(fed, es);
    if SessionOk(es) && HeadUnlinked(es) {
      var s :| ArrangedSound(s, es);
      SoundIsLinked(es, s);
      SoundIsWellFormed(es, s);
    } else if LinkedPermutation(Numbered(es)) && WellFormed(es) {
      LinkedIsSound(es);
    }
  }

  /** The same for the two procedures: the batch check finds no fault in the sorted events and their
      head is unlinked exactly when a verifier fed them in any order closes with zero counters and the
      remaining structural conditions hold. */
  lemma VerifierAgreesWithBatch(es: seq<Event>, v: ChainVerifier)
    requires v.Closed() && multiset(v.fed) == multiset(es)
    ensures |Sorted(es)| == |es|
    ensures Faultless(Sorted(es), |es|) && HeadUnlinked(es) <==>
      v.gaps == 0 && v.dupes == 0 && v.linkFailures == 0 && WellFormed(es)
  {
    hide LinkedPermutation, Faultless, HeadUnlinked, WellFormed, SessionOk;
    SessionVerdict(es);
    ClosingVerdict(v);
    StreamAgreesWithBatch(es, v.fed);
  }

  lemma SoundIsLinked(es: seq<Event>, s: seq<Event>)
    requires ArrangedSound(s, es) && HeadUnlinked(es)
    ensures LinkedPermutation(Numbered(es))
  {
    PermutedMembers(s, es);
    NumberedPermuted(s, es);
    NumberedAll(s);
    assert s != [] ==> s[0] in es;
    SoundLinks(s, Numbered(s));
    assert ArrangedLinked(Numbered(s), Numbered(es));
  }

  lemma SoundLinks(s: seq<Event>, l: seq<Link>)
    requires SoundChain(s) && (s != [] ==> GetOr(s[0].prevSig, "") == "")
    requires |l| == |s| && forall i :: 0 <= i < |s| ==> l[i] == LinkOf(s[i])
    ensures Linked(l)
  {
    forall i, j | 0 <= i < |l| && j == i + 1 < |l| ensures l[j].prev == l[i].sig {
      assert Follows(s[i], s[j]);
    }
  }

  lemma SoundIsWellFormed(es: seq<Event>, s: seq<Event>)
    requires ArrangedSound(s, es)
    ensures WellFormed(es)
  {
    PermutedMembers(s, es);
    forall e | e in es ensures IsInt(e.seqNo) && Signed(e) && (Seq(e) != 1 ==> e.prevSig.Some?) {
      var j :| 0 <= j < |s| && s[j] == e;
      assert j > 0 ==> Follows(s[j - 1], s[j]);
    }
    forall a, b | a in es && b in es && Seq(b) == Seq(a) + 1 ensures Ts(b) >= Ts(a) && b.format == a.format {
      var i :| 0 <= i < |s| && s[i] == a;
      var j :| 0 <= j < |s| && s[j] == b;
      assert Follows(s[i], s[j]);
    }
  }

  lemma LinkedIsSound(es: seq<Event>)
    requires LinkedPermutation(Numbered(es)) && WellFormed(es)
    ensures SessionOk(es) && HeadUnlinked(es)
  {
    var s, l := Sorted(es), Numbered(Sorted(es));
    SortedAscends(es);
    PermutedMembers(s, es);
    NumberedPermuted(s, es);
    NumberedAll(s);
    var c :| ArrangedLinked(c, Numbered(es));
    AscendingUnique(c, l, (x: Link) => x.n);
    SortedIsSound(es, s, l);
  }

  lemma SortedIsSound(es: seq<Event>, s: seq<Event>, l: seq<Link>)
    requires WellFormed(es) && multiset(s) == multiset(es)
    requires Linked(l) && |l| == |s| && forall i :: 0 <= i < |s| ==> l[i] == LinkOf(s[i])
    ensures SessionOk(es) && HeadUnlinked(es)
  {
    PermutedMembers(s, es);
    forall i, j | 0 <= i < |s| && j == i + 1 < |s| ensures Follows(s[i], s[j]) {
      assert s[i] in es && s[j] in es;
      assert l[j].prev == l[i].sig;
    }
    assert ArrangedSound(s, es);
    forall e | e in es && Seq(e) == 1 ensures GetOr(e.prevSig, "") == "" {
      var i :| 0 <= i < |s| && s[i] == e;
    }
  }

  // ----- What the streaming check reads -----

  /** The formats the signer can write are the formats whose signatures are checked. An event of any
      other format is counted as unsupported instead. */
  lemma KnownToSigner(h: seq<Event>, e: Event, authentic: Event -> bool, s: ChainFormat.Signed)
    requires e.format.None? || e.format == Some(s.format)
    ensures if e.format.None? || ChainFormat.Supported(s) then
        && Unsupported(h + [e]) == Unsupported(h)
        && Forged(h + [e], authentic) == Forged(h, authentic) + (if authentic(e) then 0 else 1)
      else
        && Unsupported(h + [e]) == Unsupported(h) + 1
        && Forged(h + [e], authentic) == Forged(h, authentic)
  {
    assert (h + [e])[..|h|] == h;
  }

  predicate StoredInteger(e: Event) {
    e.seqNo.Whole? || e.seqNo.Flag?
  }

  /** The integer-numbered events fed, arranged as a chain of stored fields. An absent signature or
      predecessor counts as empty text. */
  ghost predicate ArrangedFed(s: seq<Event>, h: seq<Event>) {
    && (forall e :: multiset(s)[e] == if StoredInteger(e) then multiset(h)[e] else 0)
    && (forall i :: 0 <= i < |s| ==> StoredNumber(s[i].seqNo, i + 1))
    && (s != [] ==> s[0].prevSig in {None, Some("")})
    && (forall i, j :: 0 <= i < |s| && j == i + 1 < |s| ==>
          s[j].prevSig == s[i].sdkSig || (s[j].prevSig in {None, Some("")} && s[i].sdkSig in {None, Some("")}))
  }

  /** The integer-numbered events, in feeding order. */
  function WithNumbers(h: seq<Event>): seq<Event> {
    if h == [] then []
    else
      var last := h[|h| - 1];
      WithNumbers(h[..|h| - 1]) + if StoredInteger(last) then [last] else []
  }

  lemma WithNumbersStep(h: seq<Event>, last: Event)
    ensures WithNumbers(h + [last]) == if StoredInteger(last) then WithNumbers(h) + [last] else WithNumbers(h)
    ensures Numbered(h + [last]) == if StoredInteger(last) then Numbered(h) + [LinkOf(last)] else Numbered(h)
  {
    assert (h + [last])[..|h|] == h;
  }

  lemma {:induction false} WithNumbersExact(h: seq<Event>, e: Event)
    ensures multiset(WithNumbers(h))[e] == if StoredInteger(e) then multiset(h)[e] else 0
    ensures Numbered(WithNumbers(h)) == Numbered(h)
  {
    hide StoredInteger, WithNumbers, Numbered;
    if h == [] {
      NothingNumbered();
    } else {
      var front, last := h[..|h| - 1], h[|h| - 1];
      assert h == front + [last];
      WithNumbersExact(front, e);
      WithNumbersStep(front, last);
      NumbersAgain(WithNumbers(front), last);
    }
  }

  lemma NothingNumbered()
    ensures WithNumbers([]) == [] && Numbered([]) == []
  {
  }

  lemma NumbersAgain(w: seq<Event>, last: Event)
    ensures StoredInteger(last) ==> Numbered(w + [last]) == Numbered(w) + [LinkOf(last)]
  {
    WithNumbersStep(w, last);
  }

  lemma WithNumbersUnique(s: seq<Event>, h: seq<Event>)
    requires forall e :: multiset(s)[e] == if StoredInteger(e) then multiset(h)[e] else 0
    ensures multiset(s) == multiset(WithNumbers(h))
    ensures multiset(Numbered(s)) == multiset(Numbered(h))
    ensures forall e :: e in s ==> StoredInteger(e)
  {
    forall e ensures multiset(s)[e] == multiset(WithNumbers(h))[e] {
      WithNumbersExact(h, e);
    }
    forall e | e in s ensures StoredInteger(e) {
      assert multiset(s)[e] > 0;
    }
    assert Numbered(WithNumbers(h)) == Numbered(h) by {
      if h != [] {
        WithNumbersExact(h, h[0]);
      }
    }
    NumberedPermuted(s, WithNumbers(h));
  }

  /** The links of integer-numbered events are linked exactly when the stored fields are. */
  lemma LinksAsStored(s: seq<Event>, l: seq<Link>)
    requires forall e :: e in s ==> StoredInteger(e)
    requires |l| == |s| && forall i :: 0 <= i < |s| ==> l[i] == LinkOf(s[i])
    ensures Linked(l) <==>
      && (forall i :: 0 <= i < |s| ==> StoredNumber(s[i].seqNo, i + 1))
      && (s != [] ==> s[0].prevSig in {None, Some("")})
      && (forall i, j :: 0 <= i < |s| && j == i + 1 < |s| ==>
            s[j].prevSig == s[i].sdkSig || (s[j].prevSig in {None, Some("")} && s[i].sdkSig in {None, Some("")}))
  {
    forall i | 0 <= i < |s| ensures l[i].n == i + 1 <==> StoredNumber(s[i].seqNo, i + 1) {
      assert StoredInteger(s[i]);
    }
    forall i, j | 0 <= i < |s| && j == i + 1 < |s|
      ensures l[j].prev == l[i].sig <==>
        s[j].prevSig == s[i].sdkSig || (s[j].prevSig in {None, Some("")} && s[i].sdkSig in {None, Some("")})
    {
      SameText(s[j].prevSig, s[i].sdkSig);
    }
  }

  lemma SameText(a: Option<string>, b: Option<string>)
    ensures GetOr(a, "") == GetOr(b, "") <==> a == b || (a in {None, Some("")} && b in {None, Some("")})
  {
  }

  lemma LinkedAsStored(h: seq<Event>)
    ensures LinkedPermutation(Numbered(h)) <==> exists s :: ArrangedFed(s, h)
  {
    if s: seq<Event> :| ArrangedFed(s, h) {
      WithNumbersUnique(s, h);
      NumberedAll(s);
      LinksAsStored(s, Numbered(s));
      assert ArrangedLinked(Numbered(s), Numbered(h));
    }
    if LinkedPermutation(Numbered(h)) {
      var s := SortedNumbers(h);
      assert ArrangedFed(s, h);
    }
  }

  lemma SortedNumbers(h: seq<Event>) returns (s: seq<Event>)
    requires LinkedPermutation(Numbered(h))
    ensures ArrangedFed(s, h)
  {
    var w := WithNumbers(h);
    s := Sorted(w);
    SortedAscends(w);
    forall e ensures multiset(s)[e] == if StoredInteger(e) then multiset(h)[e] else 0 {
      WithNumbersExact(h, e);
    }
    WithNumbersUnique(s, h);
    NumberedAll(s);
    var c :| ArrangedLinked(c, Numbered(h));
    AscendingUnique(c, Numbered(s), (x: Link) => x.n);
    LinksAsStored(s, Numbered(s));
  }

  /** What a clean feed is, in terms of the stored fields. */
  lemma CleanAsStored(v: ChainVerifier)
    requires v.Closed()
    ensures v.Clean() <==>
      && (exists s :: ArrangedFed(s, v.fed))
      && SessionsAgree(v.fed)
      && forall e :: e in v.fed ==>
           e.format in {None, Some(1), Some(2), Some(3), Some(4), Some(5)} && v.authentic(e)
  {
    ClosingVerdict(v);
    LinkedAsStored(v.fed);
    hide LinkedPermutation, SessionsAgree;
    forall e: Event ensures Supported(e) <==> e.format in {None, Some(1), Some(2), Some(3), Some(4), Some(5)} {
    }
  }

  // ----- Parts of an accepted bundle -----

  /** `sub` keeps exactly the events of `es` up to some number. */
  ghost predicate SeqPrefix(es: seq<Event>, sub: seq<Event>) {
    forall e :: e in es ==> (e in sub <==> Seq(e) <= |sub|)
  }

  /** The parts of an accepted chain that are accepted are exactly its prefixes by number. */
  lemma AcceptedParts(es: seq<Event>, sub: seq<Event>)
    requires SessionOk(es) && multiset(sub) <= multiset(es)
    ensures SessionOk(sub) <==> SeqPrefix(es, sub)
  {
    var s :| ArrangedSound(s, es);
    PermutedMembers(s, es);
    SubMembers(sub, es);
    if SessionOk(sub) {
      var t :| ArrangedSound(t, sub);
      PermutedMembers(t, sub);
      forall e | e in es ensures e in sub <==> Seq(e) <= |sub| {
        var i :| 0 <= i < |s| && s[i] == e;
        if Seq(e) <= |sub| {
          assert t[i] in es;
          var j :| 0 <= j < |s| && s[j] == t[i];
        }
      }
    } else if SeqPrefix(es, sub) {
      PrefixIsSound(es, sub, s);
    }
  }

  lemma SubMembers(sub: seq<Event>, es: seq<Event>)
    requires multiset(sub) <= multiset(es)
    ensures |sub| <= |es| && forall e :: e in sub ==> e in es
  {
    assert |multiset(sub)| == |sub| && |multiset(es)| == |es|;
    assert multiset(es) == multiset(sub) + (multiset(es) - multiset(sub));
    forall e | e in sub ensures e in es {
      assert e in multiset(sub);
      assert e in multiset(es);
    }
  }

  lemma PrefixIsSound(es: seq<Event>, sub: seq<Event>, s: seq<Event>)
    requires ArrangedSound(s, es) && multiset(sub) <= multiset(es) && SeqPrefix(es, sub)
    ensures SessionOk(sub)
  {
    PermutedMembers(s, es);
    SubMembers(sub, es);
    var head := s[..|sub|];
    forall e ensures e in head <==> e in sub {
      if e in sub {
        var i :| 0 <= i < |s| && s[i] == e;
        assert head[i] == e;
      }
    }
    assert Distinct(s);
    assert Distinct(sub) by {
      forall i, j | 0 <= i < j < |sub| ensures sub[i] != sub[j] {
        if sub[i] == sub[j] {
          RepeatCount(sub, i, j);
          DistinctCount(s, sub[i]);
        }
      }
    }
    SameElementsPermute(head, sub);
    assert SoundChain(head) by {
      forall e | e in head ensures Signed(e) {
        assert e in s;
      }
    }
    assert ArrangedSound(head, sub);
  }

  /** Taking one event out of an accepted chain is noticed unless it is the last. */
  lemma DeletionNoticed(es: seq<Event>, e: Event, sub: seq<Event>)
    requires SessionOk(es) && e in es && multiset(sub) == multiset(es) - multiset{e}
    ensures SessionOk(sub) <==> Seq(e) == |es|
  {
    var s :| ArrangedSound(s, es);
    PermutedMembers(s, es);
    assert |multiset(sub)| == |sub| && |multiset(es)| == |es|;
    assert Distinct(s);
    DistinctPermuted(s, es);
    AcceptedParts(es, sub);
    forall x | x in es ensures x in sub <==> x != e {
      DistinctCount(es, x);
      assert x in sub <==> x in multiset(sub);
    }
    var i :| 0 <= i < |s| && s[i] == e;
    assert s[|s| - 1] in es;
    if Seq(e) == |es| {
      forall x | x in es ensures x in sub <==> Seq(x) <= |sub| {
        var k :| 0 <= k < |s| && s[k] == x;
      }
    }
  }

  ghost predicate GroupPrefix(es: seq<Event>, sub: seq<Event>, sid: string) {
    SeqPrefix(Group(es, sid), Group(sub, sid))
  }

  /** The same for bundles: session by session, exactly the prefixes are accepted. */
  lemma AcceptedSubBundles(es: seq<Event>, sub: seq<Event>)
    requires BundleOk(es) && multiset(sub) <= multiset(es)
    ensures BundleOk(sub) <==> forall sid :: GroupPrefix(es, sub, sid)
  {
    forall sid ensures GroupOk(sub, sid) <==> GroupPrefix(es, sub, sid) {
      GroupMonotone(sub, es, sid);
      assert GroupOk(es, sid);
      AcceptedParts(Group(es, sid), Group(sub, sid));
    }
    assert BundleOk(sub) <==> forall sid :: GroupOk(sub, sid);
  }
}
