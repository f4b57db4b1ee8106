/** Binding snapshots: flattening, ordering, and the regrouping that a verifier does. */
module CoverageBindings {
  import opened Wrappers
  import opened CodePoints
  import opened StableSort
  import opened StrippedText
  import opened Documents
  import opened SeqFacts
  import Strings

  const ITEM_MAX := 256
  const TEXT_MAX := 256

  /** An enforcement depth; other texts are kept until they are normalised. */
  datatype Depth = Unknown | Observe | Enforce | Other(text: string)

  /** What a snapshot reports of one symbol. Absent fields are None. */
  datatype Entry = Entry(
    bound: Option<bool>,
    depth: Option<Depth>,
    exclusions: Option<seq<string>>,
    version: Option<string>,
    initializedAt: Option<int>,
    errorType: Option<string>,
    error: Option<string>)

  datatype Binding = Binding(integration: string, symbol: string, entry: Entry)

  datatype Named = Named(symbol: string, entry: Entry)

  /** One integration of a snapshot; both levels keep their insertion order. */
  datatype Group = Group(integration: string, symbols: seq<Named>)

  type Snapshot = seq<Group>

  // ----- Texts and entries -----

  function CleanText(s: string): Option<string> {
    if TextFits(s, TEXT_MAX) then Some(Strip(s)) else None
  }

  function StripAll(values: seq<string>): set<string> {
    set v | v in values :: Strip(v)
  }

  /** `_unique_texts` */
  function UniqueTexts(values: seq<string>): Option<seq<string>> {
    if |values| <= ITEM_MAX && forall v :: v in values ==> TextFits(v, TEXT_MAX)
    then Some(SortedList(StripAll(values))) else None
  }

  function OptionalText(t: Option<string>): Option<Option<string>> {
    if t.None? then Some(None)
    else
      var clean :- CleanText(t.value);
      Some(Some(clean))
  }

  predicate SafeInteger(n: int) {
    0 <= n <= MAX_SAFE
  }

  function KnownDepth(d: Option<Depth>): Depth {
    if d.None? || d.value.Other? then Unknown else d.value
  }

  /** `_binding` */
  function NormalBinding(b: Binding): Option<Binding> {
    var integration :- CleanText(b.integration);
    var symbol :- CleanText(b.symbol);
    var exclusions :- UniqueTexts(GetOr(b.entry.exclusions, []));
    var version :- OptionalText(b.entry.version);
    var errorType :- OptionalText(b.entry.errorType);
    var error :- OptionalText(b.entry.error);
    if b.entry.initializedAt.Some? && !SafeInteger(b.entry.initializedAt.value) then None
    else
      Some(Binding(integration, symbol, Entry(
        Some(b.entry.bound == Some(true)), Some(KnownDepth(b.entry.depth)), Some(exclusions),
        version, b.entry.initializedAt, errorType, error)))
  }

  lemma {:induction false} StripAllSize(values: seq<string>)
    ensures |StripAll(values)| <= |values|
  {
    if values == [] {
      assert StripAll(values) == {};
    } else {
      var front, last := values[..|values| - 1], values[|values| - 1];
      assert values == front + [last];
      StripAllSize(front);
      assert StripAll(values) == StripAll(front) + {Strip(last)};
    }
  }

  /** A cleaned list is cleaned to itself. */
  lemma UniqueTextsFixed(values: seq<string>)
    requires UniqueTexts(values).Some?
    ensures UniqueTexts(UniqueTexts(values).value) == UniqueTexts(values)
  {
    hide Strip, TextFits;
    var s, r := StripAll(values), UniqueTexts(values).value;
    StripAllSize(values);
    ListSize(r, s, AtMost);
    forall v | v in r ensures TextFits(v, TEXT_MAX) && Strip(v) == v {
      var w :| w in values && v == Strip(w);
      FitsStripped(w, TEXT_MAX);
    }
    assert StripAll(r) == s;
  }

  lemma CleanTextFixed(s: string)
    requires CleanText(s).Some?
    ensures CleanText(CleanText(s).value) == CleanText(s)
  {
    FitsStripped(s, TEXT_MAX);
  }

  lemma OptionalTextFixed(t: Option<string>)
    requires OptionalText(t).Some?
    ensures OptionalText(OptionalText(t).value) == OptionalText(t)
  {
    if t.Some? {
      CleanTextFixed(t.value);
    }
  }

  predicate IsNormal(b: Binding) {
    NormalBinding(b) == Some(b)
  }

  /** A normalised binding is normalised to itself. */
  lemma NormalFixed(b: Binding)
    requires NormalBinding(b).Some?
    ensures IsNormal(NormalBinding(b).value)
  {
    hide CleanText, UniqueTexts, OptionalText;
    CleanTextFixed(b.integration);
    CleanTextFixed(b.symbol);
    UniqueTextsFixed(GetOr(b.entry.exclusions, []));
    OptionalTextFixed(b.entry.version);
    OptionalTextFixed(b.entry.errorType);
    OptionalTextFixed(b.entry.error);
    var n := NormalBinding(b).value;
    assert UniqueTexts(GetOr(n.entry.exclusions, [])) == n.entry.exclusions;
    assert NormalBinding(n).Some?;
  }

  function NormalAll(bs: seq<Binding>): Option<seq<Binding>> {
    if bs == [] then Some([])
    else
      var front :- NormalAll(bs[..|bs| - 1]);
      var last :- NormalBinding(bs[|bs| - 1]);
      Some(front + [last])
  }

  predicate AllNormal(bs: seq<Binding>) {
    forall b :: b in bs ==> IsNormal(b)
  }

  lemma {:induction false} NormalAllMeaning(bs: seq<Binding>)
    ensures NormalAll(bs).Some? ==> AllNormal(NormalAll(bs).value) && |NormalAll(bs).value| == |bs|
    ensures AllNormal(bs) ==> NormalAll(bs) == Some(bs)
  {
    hide NormalBinding;
    if bs != [] {
      var front, last := bs[..|bs| - 1], bs[|bs| - 1];
      assert bs == front + [last];
      NormalAllMeaning(front);
      if AllNormal(bs) {
        assert IsNormal(last);
        assert forall b :: b in front ==> b in bs;
      }
      if NormalBinding(last).Some? {
        NormalFixed(last);
      }
    }
  }

  // ----- Flattening -----

  function OfGroup(integration: string, symbols: seq<Named>): seq<Binding> {
    if symbols == [] then []
    else
      var last := symbols[|symbols| - 1];
      OfGroup(integration, symbols[..|symbols| - 1]) + [Binding(integration, last.symbol, last.entry)]
  }

  /** Every symbol of every integration, in the snapshot's order. */
  function Flat(snapshot: Snapshot): seq<Binding> {
    if snapshot == [] then []
    else
      var last := snapshot[|snapshot| - 1];
      Flat(snapshot[..|snapshot| - 1]) + OfGroup(last.integration, last.symbols)
  }

  /** The sort key of a binding. */
  function BindingKey(b: Binding): string {
    b.integration + "\0" + b.symbol
  }

  /** `_flatten_bindings` */
  function FlattenBindings(snapshot: Snapshot): Option<seq<Binding>> {
    var flattened :- NormalAll(Flat(snapshot));
    if |flattened| <= ITEM_MAX then Some(Sort(flattened, BindingKey)) else None
  }

  // ----- Regrouping -----

  function PutSymbol(symbols: seq<Named>, n: Named): seq<Named> {
    if symbols == [] then [n]
    else if symbols[0].symbol == n.symbol then [n] + symbols[1..]
    else [symbols[0]] + PutSymbol(symbols[1..], n)
  }

  /** `snapshot.setdefault(integration, {})[symbol] = entry` */
  function Put(snapshot: Snapshot, b: Binding): Snapshot {
    if snapshot == [] then [Group(b.integration, [Named(b.symbol, b.entry)])]
    else if snapshot[0].integration == b.integration
    then [Group(b.integration, PutSymbol(snapshot[0].symbols, Named(b.symbol, b.entry)))] + snapshot[1..]
    else [snapshot[0]] + Put(snapshot[1..], b)
  }

  function Regroup(bs: seq<Binding>): Snapshot {
    if bs == [] then [] else Put(Regroup(bs[..|bs| - 1]), bs[|bs| - 1])
  }

  /** The order in which a verifier meets the bindings again. */
  function Regrouped(bs: seq<Binding>): seq<Binding> {
    Flat(Regroup(bs))
  }

  /** The loop of `canonicalize_coverage_attestation_body` over the bindings. */
  method RegroupBindings(bs: seq<Binding>) returns (snapshot: Snapshot)
    ensures snapshot == Regroup(bs)
  {
    snapshot := [];
    for i := 0 to |bs|
      invariant snapshot == Regroup(bs[..i])
    {
      assert bs[..i + 1][..i] == bs[..i];
      snapshot := Put(snapshot, bs[i]);
    }
    assert bs[..|bs|] == bs;
  }

  predicate SamePair(a: Binding, b: Binding) {
    a.integration == b.integration && a.symbol == b.symbol
  }

  predicate HasPair(bs: seq<Binding>, b: Binding) {
    exists x :: x in bs && SamePair(x, b)
  }

  predicate DistinctPairs(bs: seq<Binding>) {
    forall i, j :: 0 <= i < j < |bs| ==> !SamePair(bs[i], bs[j])
  }

  lemma {:induction false} OfGroupFront(integration: string, symbols: seq<Named>)
    requires symbols != []
    ensures OfGroup(integration, symbols)
      == [Binding(integration, symbols[0].symbol, symbols[0].entry)] + OfGroup(integration, symbols[1..])
  {
    if |symbols| > 1 {
      var front := symbols[..|symbols| - 1];
      OfGroupFront(integration, front);
      assert front[1..] == symbols[1..][..|symbols| - 2];
    }
  }

  lemma FlatLast(snapshot: Snapshot, g: Group)
    ensures Flat(snapshot + [g]) == Flat(snapshot) + OfGroup(g.integration, g.symbols)
  {
    hide OfGroup;
    assert (snapshot + [g])[..|snapshot|] == snapshot;
  }

  lemma {:induction false} FlatFront(g: Group, snapshot: Snapshot)
    ensures Flat([g] + snapshot) == OfGroup(g.integration, g.symbols) + Flat(snapshot)
  {
    if snapshot == [] {
      assert Flat([]) == [];
      assert [g] + snapshot == [] + [g];
      FlatLast([], g);
    } else {
      hide *;
      var front, last := snapshot[..|snapshot| - 1], snapshot[|snapshot| - 1];
      FlatFront(g, front);
      FlatLast(front, last);
      FlatLast([g] + front, last);
      var one := [g];
      assert snapshot == front + [last];
      assert one + snapshot == (one + front) + [last];
    }
  }

  /** r is bs with b added, or, when the pair is there already, with one binding replaced by b. */
  ghost predicate Gains(bs: seq<Binding>, b: Binding, r: seq<Binding>) {
    && (!HasPair(bs, b) ==> multiset(r) == multiset(bs) + multiset{b} && |r| == |bs| + 1)
    && (HasPair(bs, b) ==> |r| == |bs|)
    && (forall x :: x in r ==> x in bs || x == b)
    && (forall x :: x in bs ==> HasPair(r, x))
    && HasPair(r, b)
  }

  lemma GainsAfter(a: seq<Binding>, bs: seq<Binding>, b: Binding, r: seq<Binding>)
    requires Gains(bs, b, r) && !HasPair(a, b)
    ensures Gains(a + bs, b, a + r)
  {
    assert HasPair(a + bs, b) <==> HasPair(bs, b);
    assert multiset(a + bs) == multiset(a) + multiset(bs) && multiset(a + r) == multiset(a) + multiset(r);
    forall x | x in a + bs ensures HasPair(a + r, x) {
      if x in a {
        assert x in a + r && SamePair(x, x);
      } else {
        assert HasPair(r, x);
      }
    }
  }

  lemma GainsBefore(a: seq<Binding>, bs: seq<Binding>, b: Binding, r: seq<Binding>)
    requires Gains(bs, b, r) && !HasPair(a, b)
    ensures Gains(bs + a, b, r + a)
  {
    assert HasPair(bs + a, b) <==> HasPair(bs, b);
    assert multiset(bs + a) == multiset(a) + multiset(bs) && multiset(r + a) == multiset(a) + multiset(r);
    forall x | x in bs + a ensures HasPair(r + a, x) {
      if x in a {
        assert x in r + a && SamePair(x, x);
      } else {
        assert HasPair(r, x);
      }
    }
  }

  lemma {:induction false} PutSymbolGains(integration: string, symbols: seq<Named>, n: Named)
    ensures Gains(OfGroup(integration, symbols), Binding(integration, n.symbol, n.entry),
                  OfGroup(integration, PutSymbol(symbols, n)))
  {
    var b := Binding(integration, n.symbol, n.entry);
    if symbols == [] {
      assert OfGroup(integration, [n][..0]) == [];
      assert OfGroup(integration, [n]) == [b] && SamePair(b, b);
    } else {
      var first := Binding(integration, symbols[0].symbol, symbols[0].entry);
      var rest := OfGroup(integration, symbols[1..]);
      OfGroupFront(integration, symbols);
      OfGroupFront(integration, PutSymbol(symbols, n));
      if symbols[0].symbol == n.symbol {
        assert PutSymbol(symbols, n)[1..] == symbols[1..];
        GainsHead(first, rest, b);
      } else {
        assert PutSymbol(symbols, n)[1..] == PutSymbol(symbols[1..], n);
        PutSymbolGains(integration, symbols[1..], n);
        GainsAfter([first], rest, b, OfGroup(integration, PutSymbol(symbols[1..], n)));
      }
    }
  }

  lemma GainsHead(first: Binding, rest: seq<Binding>, b: Binding)
    requires SamePair(first, b)
    ensures Gains([first] + rest, b, [b] + rest)
  {
    var bs, r := [first] + rest, [b] + rest;
    assert first in bs && b in r && SamePair(b, b);
    forall x | x in bs ensures HasPair(r, x) {
      if x == first {
        assert SamePair(b, x);
      } else {
        assert x in r && SamePair(x, x);
      }
    }
  }

  predicate DistinctGroups(snapshot: Snapshot) {
    forall i, j :: 0 <= i < j < |snapshot| ==> snapshot[i].integration != snapshot[j].integration
  }

  predicate HasGroup(snapshot: Snapshot, integration: string) {
    exists g :: g in snapshot && g.integration == integration
  }

  lemma {:induction false} OfGroupMembers(integration: string, symbols: seq<Named>)
    ensures forall x :: x in OfGroup(integration, symbols) ==> x.integration == integration
  {
    if symbols != [] {
      OfGroupMembers(integration, symbols[..|symbols| - 1]);
    }
  }

  lemma {:induction false} FlatMembers(snapshot: Snapshot)
    ensures forall x :: x in Flat(snapshot) ==> HasGroup(snapshot, x.integration)
  {
    if snapshot != [] {
      hide OfGroup;
      var front, last := snapshot[..|snapshot| - 1], snapshot[|snapshot| - 1];
      assert snapshot == front + [last];
      FlatMembers(front);
      OfGroupMembers(last.integration, last.symbols);
      forall x | x in Flat(snapshot) ensures HasGroup(snapshot, x.integration) {
        if x in Flat(front) {
          assert HasGroup(front, x.integration);
        } else {
          assert last in snapshot && x in OfGroup(last.integration, last.symbols);
        }
      }
    }
  }

  /** Putting a binding keeps the order of the integrations and adds a new one at the end. */
  lemma {:induction false} PutIntegrations(snapshot: Snapshot, b: Binding)
    ensures var put := Put(snapshot, b);
      && |put| == (if HasGroup(snapshot, b.integration) then |snapshot| else |snapshot| + 1)
      && (forall i :: 0 <= i < |snapshot| ==> put[i].integration == snapshot[i].integration)
      && (!HasGroup(snapshot, b.integration) ==> put[|snapshot|].integration == b.integration)
  {
    hide PutSymbol;
    if snapshot != [] {
      var first, rest := snapshot[0], snapshot[1..];
      assert snapshot == [first] + rest;
      if first.integration == b.integration {
        assert HasGroup(snapshot, b.integration);
      } else {
        PutIntegrations(rest, b);
        assert HasGroup(snapshot, b.integration) <==> HasGroup(rest, b.integration);
        assert forall i :: 0 <= i < |rest| ==> snapshot[i + 1] == rest[i];
      }
    }
  }

  lemma {:induction false} PutGains(snapshot: Snapshot, b: Binding)
    requires DistinctGroups(snapshot)
    ensures Gains(Flat(snapshot), b, Flat(Put(snapshot, b)))
  {
    if snapshot == [] {
      PutFirst(b);
    } else {
      hide PutSymbol, Flat, OfGroup, Gains, HasPair;
      var first, rest := snapshot[0], snapshot[1..];
      assert snapshot == [first] + rest;
      FlatFront(first, rest);
      if first.integration == b.integration {
        var n := Named(b.symbol, b.entry);
        PutSymbolGains(b.integration, first.symbols, n);
        FlatFront(Group(b.integration, PutSymbol(first.symbols, n)), rest);
        NoPair(rest, b);
        GainsBefore(Flat(rest), OfGroup(first.integration, first.symbols), b,
                    OfGroup(first.integration, PutSymbol(first.symbols, n)));
      } else {
        PutGains(rest, b);
        FlatFront(first, Put(rest, b));
        OfGroupMembers(first.integration, first.symbols);
        NoPairInGroup(first, b);
        GainsAfter(OfGroup(first.integration, first.symbols), Flat(rest), b, Flat(Put(rest, b)));
      }
    }
  }

  lemma PutFirst(b: Binding)
    ensures Gains([], b, Flat(Put([], b)))
  {
    var g := Group(b.integration, [Named(b.symbol, b.entry)]);
    assert g.symbols[..0] == [] && OfGroup(g.integration, g.symbols) == [b];
    FlatLast([], g);
    assert [] + [g] == [g] && Flat([]) == [];
    assert SamePair(b, b);
  }

  lemma NoPair(snapshot: Snapshot, b: Binding)
    requires forall g :: g in snapshot ==> g.integration != b.integration
    ensures !HasPair(Flat(snapshot), b)
  {
    FlatMembers(snapshot);
  }

  lemma NoPairInGroup(g: Group, b: Binding)
    requires g.integration != b.integration
    ensures !HasPair(OfGroup(g.integration, g.symbols), b)
  {
    OfGroupMembers(g.integration, g.symbols);
  }

  function IntegrationOf(b: Binding): string {
    b.integration
  }

  /** Where an integration first appears; past the end when it does not. */
  function FirstOf(bs: seq<Binding>, integration: string): nat {
    FirstWith(bs, IntegrationOf, integration)
  }

  /** The groups are those of the integrations of the bindings, in order of first appearance. */
  ghost predicate GroupsInOrder(bs: seq<Binding>, snapshot: Snapshot) {
    && (forall integration :: HasGroup(snapshot, integration) <==> FirstOf(bs, integration) < |bs|)
    && (forall i, j :: 0 <= i < j < |snapshot| ==>
          FirstOf(bs, snapshot[i].integration) < FirstOf(bs, snapshot[j].integration))
  }

  lemma {:induction false} RegroupInOrder(bs: seq<Binding>)
    ensures GroupsInOrder(bs, Regroup(bs))
  {
    if bs == [] {
      NoGroups();
    } else {
      hide Put, FirstOf;
      var front, last := bs[..|bs| - 1], bs[|bs| - 1];
      assert bs == front + [last];
      RegroupInOrder(front);
      PutInOrder(front, last, Regroup(front));
    }
  }

  lemma NoGroups()
    ensures GroupsInOrder([], []) && Regroup([]) == []
  {
  }

  lemma PutInOrder(bs: seq<Binding>, b: Binding, snapshot: Snapshot)
    requires GroupsInOrder(bs, snapshot)
    ensures GroupsInOrder(bs + [b], Put(snapshot, b))
  {
    hide FirstOf, Put;
    var put := Put(snapshot, b);
    PutIntegrations(snapshot, b);
    forall integration
      ensures FirstOf(bs, integration) <= |bs| && FirstOf(bs + [b], integration) ==
        if FirstOf(bs, integration) < |bs| || integration == b.integration then FirstOf(bs, integration) else |bs| + 1
    {
      FirstOfStep(bs, b, integration);
    }
    forall i | 0 <= i < |snapshot| ensures FirstOf(bs, snapshot[i].integration) < |bs| {
      assert HasGroup(snapshot, snapshot[i].integration);
    }
    forall integration
      ensures HasGroup(put, integration) <==> HasGroup(snapshot, integration) || integration == b.integration
    {
      PutHasGroup(snapshot, put, b.integration, integration);
    }
  }

  lemma FirstOfStep(bs: seq<Binding>, b: Binding, integration: string)
    ensures FirstOf(bs, integration) <= |bs|
    ensures FirstOf(bs + [b], integration) ==
      if FirstOf(bs, integration) < |bs| || integration == b.integration then FirstOf(bs, integration) else |bs| + 1
  {
    FirstWithStep(bs, b, IntegrationOf, integration);
  }

  lemma PutHasGroup(snapshot: Snapshot, put: Snapshot, added: string, integration: string)
    requires |put| == if HasGroup(snapshot, added) then |snapshot| else |snapshot| + 1
    requires forall i :: 0 <= i < |snapshot| ==> put[i].integration == snapshot[i].integration
    requires !HasGroup(snapshot, added) ==> put[|snapshot|].integration == added
    ensures HasGroup(put, integration) <==> HasGroup(snapshot, integration) || integration == added
  {
    if HasGroup(snapshot, integration) {
      var g :| g in snapshot && g.integration == integration;
      var i :| 0 <= i < |snapshot| && snapshot[i] == g;
      assert put[i] in put;
    }
    if HasGroup(put, integration) {
      var g :| g in put && g.integration == integration;
      var i :| 0 <= i < |put| && put[i] == g;
      assert i < |snapshot| ==> snapshot[i] in snapshot;
    }
    if !HasGroup(snapshot, added) {
      assert put[|snapshot|] in put;
    }
  }

  lemma RegroupDistinct(bs: seq<Binding>)
    ensures DistinctGroups(Regroup(bs))
  {
    hide FirstOf, Regroup;
    RegroupInOrder(bs);
  }

  lemma DistinctStep(bs: seq<Binding>, b: Binding)
    ensures DistinctPairs(bs + [b]) <==> DistinctPairs(bs) && !HasPair(bs, b)
  {
    if DistinctPairs(bs + [b]) {
      forall i, j | 0 <= i < j < |bs| ensures !SamePair(bs[i], bs[j]) {
        assert !SamePair((bs + [b])[i], (bs + [b])[j]);
      }
      forall x | x in bs ensures !SamePair(x, b) {
        var i :| 0 <= i < |bs| && bs[i] == x;
        assert !SamePair((bs + [b])[i], (bs + [b])[|bs|]);
      }
    }
  }

  /** Regrouping collapses repeated pairs, and only reorders the bindings when there are none. */
  lemma {:induction false} RegroupedMeaning(bs: seq<Binding>)
    ensures |Regrouped(bs)| <= |bs| && (|Regrouped(bs)| == |bs| <==> DistinctPairs(bs))
    ensures DistinctPairs(bs) ==> multiset(Regrouped(bs)) == multiset(bs)
    ensures forall x :: x in Regrouped(bs) ==> x in bs
    ensures forall x :: x in bs ==> HasPair(Regrouped(bs), x)
  {
    hide Put, Flat, DistinctPairs, SamePair, Gains;
    if bs == [] {
      NothingFlat();
    } else {
      var front, last := bs[..|bs| - 1], bs[|bs| - 1];
      assert bs == front + [last];
      RegroupedMeaning(front);
      RegroupDistinct(front);
      PutGains(Regroup(front), last);
      DistinctStep(front, last);
      SamePairs(front, last);
      RegroupedStep(front, last, Regrouped(front), Regrouped(bs));
    }
  }

  lemma RegroupedStep(front: seq<Binding>, last: Binding, before: seq<Binding>, after: seq<Binding>)
    requires Gains(before, last, after) && |before| <= |front|
    requires forall x :: x in before ==> x in front
    requires forall x :: x in front ==> HasPair(before, x)
    ensures |after| <= |front| + 1
    ensures |after| == |front| + 1 <==> |before| == |front| && !HasPair(before, last)
    ensures !HasPair(before, last) ==> multiset(after) == multiset(before) + multiset{last}
    ensures forall x :: x in after ==> x in front || x == last
    ensures forall x :: x in front + [last] ==> HasPair(after, x)
  {
    hide HasPair;
    forall x | x in front ensures HasPair(after, x) {
      PairThrough(before, after, x);
    }
  }

  lemma PairThrough(before: seq<Binding>, after: seq<Binding>, x: Binding)
    requires HasPair(before, x) && forall y :: y in before ==> HasPair(after, y)
    ensures HasPair(after, x)
  {
    var y :| y in before && SamePair(y, x);
    var z :| z in after && SamePair(z, y);
  }

  lemma NothingFlat()
    ensures Flat([]) == [] && DistinctPairs([])
  {
  }

  lemma SamePairs(front: seq<Binding>, b: Binding)
    requires forall x :: x in Regrouped(front) ==> x in front
    requires forall x :: x in front ==> HasPair(Regrouped(front), x)
    ensures HasPair(front, b) <==> HasPair(Regrouped(front), b)
  {
    hide Regrouped;
    if HasPair(front, b) {
      var x :| x in front && SamePair(x, b);
      assert HasPair(Regrouped(front), x);
    }
  }

  // ----- Bindings with equal sort keys -----

  /** Of two bindings with the same sort key, the earlier belongs to an integration that appears
      earlier. */
  predicate TiesFollow(bs: seq<Binding>) {
    forall i, j :: 0 <= i < j < |bs| && BindingKey(bs[i]) == BindingKey(bs[j]) ==>
      FirstOf(bs, bs[i].integration) < FirstOf(bs, bs[j].integration)
  }

  /** What a list of bindings must be for a verifier's regrouping to sort back to it. */
  predicate KeepsTies(bs: seq<Binding>) {
    DistinctPairs(bs) && TiesFollow(bs)
  }

  /** Regrouping lists the bindings by the first appearance of their integrations. */
  lemma {:induction false} FlatInOrder(bs: seq<Binding>, snapshot: Snapshot)
    requires forall i, j :: 0 <= i < j < |snapshot| ==>
      FirstOf(bs, snapshot[i].integration) < FirstOf(bs, snapshot[j].integration)
    ensures AscendingBy(Flat(snapshot), (b: Binding) => FirstOf(bs, b.integration))
  {
    hide OfGroup, FirstOf;
    if snapshot != [] {
      var front, last := snapshot[..|snapshot| - 1], snapshot[|snapshot| - 1];
      assert forall i :: 0 <= i < |front| ==> front[i] == snapshot[i];
      FlatInOrder(bs, front);
      FlatMembers(front);
      OfGroupMembers(last.integration, last.symbols);
      var a, g := Flat(front), OfGroup(last.integration, last.symbols);
      forall x | x in a ensures FirstOf(bs, x.integration) < FirstOf(bs, last.integration) {
        var h :| h in front && h.integration == x.integration;
      }
      forall i, j | 0 <= i < j < |a + g|
        ensures FirstOf(bs, (a + g)[i].integration) <= FirstOf(bs, (a + g)[j].integration)
      {
        assert i < |a| ==> (a + g)[i] == a[i] && a[i] in a;
        assert j < |a| ==> (a + g)[j] == a[j];
        assert i >= |a| ==> (a + g)[i] in g;
        assert j >= |a| ==> (a + g)[j] in g;
      }
    }
  }

  /** The bindings of one key, regrouped and as listed. */
  lemma TiesOfKey(bs: seq<Binding>, k: string)
    requires DistinctPairs(bs)
    ensures WithKey(Regrouped(bs), BindingKey, k) == WithKey(bs, BindingKey, k)
      <==> StrictlyBy(WithKey(bs, BindingKey, k), (b: Binding) => FirstOf(bs, b.integration))
  {
    hide WithKey, Regrouped, FirstOf, BindingKey;
    var first := (b: Binding) => FirstOf(bs, b.integration);
    var p, q := WithKey(Regrouped(bs), BindingKey, k), WithKey(bs, BindingKey, k);
    RegroupedMeaning(bs);
    WithKeyPermuted(Regrouped(bs), bs, BindingKey, k);
    RegroupedAscends(bs, k);
    if StrictlyBy(q, first) {
      StrictUnique(p, q, first);
    }
    if p == q {
      forall i, j | 0 <= i < j < |q| ensures first(q[i]) < first(q[j]) {
        TiesApart(bs, k, i, j);
      }
    }
  }

  lemma RegroupedAscends(bs: seq<Binding>, k: string)
    ensures AscendingBy(WithKey(Regrouped(bs), BindingKey, k), (b: Binding) => FirstOf(bs, b.integration))
  {
    hide WithKey, FirstOf, BindingKey, Regroup, Flat;
    var first := (b: Binding) => FirstOf(bs, b.integration);
    var le := (x: Binding, y: Binding) => first(x) <= first(y);
    RegroupInOrder(bs);
    FlatInOrder(bs, Regroup(bs));
    WithKeyPairs(Regrouped(bs), BindingKey, k, le);
    assert PairwiseWith(Regrouped(bs), BindingKey, k, le);
    assert Pairwise(WithKey(Regrouped(bs), BindingKey, k), le);
  }

  /** Distinct bindings with one key belong to integrations that appear first in different places. */
  lemma TiesApart(bs: seq<Binding>, k: string, i: nat, j: nat)
    requires DistinctPairs(bs) && i < j < |WithKey(bs, BindingKey, k)|
    ensures var q := WithKey(bs, BindingKey, k); FirstOf(bs, q[i].integration) != FirstOf(bs, q[j].integration)
  {
    hide WithKey, BindingKey;
    var q := WithKey(bs, BindingKey, k);
    var apart := (x: Binding, y: Binding) => !SamePair(x, y);
    WithKeyPairs(bs, BindingKey, k, apart);
    assert PairwiseWith(bs, BindingKey, k, apart);
    assert apart(q[i], q[j]);
    assert q[i] in q && q[j] in q;
    WithKeyMembers(bs, BindingKey, k, q[i]);
    WithKeyMembers(bs, BindingKey, k, q[j]);
    KeyAndIntegration(q[i], q[j]);
    Appears(bs, q[i]);
    Appears(bs, q[j]);
  }

  lemma KeyAndIntegration(x: Binding, y: Binding)
    requires BindingKey(x) == BindingKey(y)
    ensures x.integration == y.integration ==> SamePair(x, y)
  {
    if x.integration == y.integration {
      Strings.Cancel(x.integration + "\0", x.symbol, y.integration + "\0", y.symbol);
    }
  }

  lemma Appears(bs: seq<Binding>, b: Binding)
    requires b in bs
    ensures FirstOf(bs, b.integration) < |bs| && bs[FirstOf(bs, b.integration)].integration == b.integration
  {
    var i :| 0 <= i < |bs| && bs[i] == b;
    FirstWithAt(bs, IntegrationOf, i);
  }

  ghost predicate TiesOf(bs: seq<Binding>, k: string) {
    forall i, j :: 0 <= i < j < |bs| && BindingKey(bs[i]) == k && BindingKey(bs[j]) == k ==>
      FirstOf(bs, bs[i].integration) < FirstOf(bs, bs[j].integration)
  }

  lemma TiesByKey(bs: seq<Binding>)
    ensures TiesFollow(bs) <==> forall k :: TiesOf(bs, k)
  {
    hide FirstOf, BindingKey;
    if forall k :: TiesOf(bs, k) {
      forall i, j | 0 <= i < j < |bs| && BindingKey(bs[i]) == BindingKey(bs[j])
        ensures FirstOf(bs, bs[i].integration) < FirstOf(bs, bs[j].integration)
      {
        assert TiesOf(bs, BindingKey(bs[i]));
      }
    }
  }

  /** Regrouping sorts back to the list exactly when pairs are distinct and ties follow the
      integrations. */
  lemma TiesExactly(bs: seq<Binding>)
    ensures SameByKey(Regrouped(bs), bs, BindingKey) <==> KeepsTies(bs)
  {
    hide WithKey, Regrouped, TiesOf, TiesFollow, DistinctPairs;
    if SameByKey(Regrouped(bs), bs, BindingKey) {
      SameByKeySize(Regrouped(bs), bs, BindingKey);
      RegroupedMeaning(bs);
    }
    if DistinctPairs(bs) {
      forall k ensures WithKey(Regrouped(bs), BindingKey, k) == WithKey(bs, BindingKey, k) <==> TiesOf(bs, k) {
        TiesOfKey(bs, k);
        TiesListed(bs, k);
      }
      TiesByKey(bs);
    }
  }

  lemma TiesListed(bs: seq<Binding>, k: string)
    ensures StrictlyBy(WithKey(bs, BindingKey, k), (b: Binding) => FirstOf(bs, b.integration)) <==> TiesOf(bs, k)
  {
    hide WithKey, FirstOf, BindingKey;
    var lt := (x: Binding, y: Binding) => FirstOf(bs, x.integration) < FirstOf(bs, y.integration);
    WithKeyPairs(bs, BindingKey, k, lt);
    assert Pairwise(WithKey(bs, BindingKey, k), lt) <==>
      StrictlyBy(WithKey(bs, BindingKey, k), (b: Binding) => FirstOf(bs, b.integration));
    assert PairwiseWith(bs, BindingKey, k, lt) <==> TiesOf(bs, k);
  }

  predicate DistinctKeys(bs: seq<Binding>) {
    forall i, j :: 0 <= i < j < |bs| ==> BindingKey(bs[i]) != BindingKey(bs[j])
  }

  /** No ties, nothing to keep. */
  lemma DistinctKeysKeep(bs: seq<Binding>)
    requires DistinctKeys(bs)
    ensures KeepsTies(bs)
  {
  }

  lemma KeyPair(x: Binding, y: Binding)
    requires '\0' !in x.symbol && '\0' !in y.symbol
    ensures BindingKey(x) == BindingKey(y) ==> SamePair(x, y)
  {
    if BindingKey(x) == BindingKey(y) {
      Strings.LastMark(x.integration, x.symbol, y.integration, y.symbol, '\0');
    }
  }

  /** Symbols without NUL leave no two pairs with the same key. */
  lemma PlainSymbolsDistinct(bs: seq<Binding>)
    requires DistinctPairs(bs) && forall b :: b in bs ==> '\0' !in b.symbol
    ensures DistinctKeys(bs)
  {
    hide BindingKey;
    forall i, j | 0 <= i < j < |bs| ensures BindingKey(bs[i]) != BindingKey(bs[j]) {
      KeyPair(bs[i], bs[j]);
    }
  }

  predicate Arranged(bs: seq<Binding>) {
    && AllNormal(bs) && |bs| <= ITEM_MAX
    && forall i, j :: 0 <= i < j < |bs| ==> AtMost(BindingKey(bs[i]), BindingKey(bs[j]))
  }

  lemma RegroupedNormal(bs: seq<Binding>)
    requires AllNormal(bs)
    ensures NormalAll(Regrouped(bs)) == Some(Regrouped(bs)) && |Regrouped(bs)| <= |bs|
  {
    hide NormalAll, Regrouped, IsNormal;
    RegroupedMeaning(bs);
    NormalAllMeaning(Regrouped(bs));
  }

  /** What flattening returns is normalised, bounded and in order. */
  lemma FlattenArranged(snapshot: Snapshot)
    ensures FlattenBindings(snapshot).Some? ==> Arranged(FlattenBindings(snapshot).value)
  {
    hide NormalAll, Sort, Flat, IsNormal;
    if FlattenBindings(snapshot).Some? {
      var flattened := NormalAll(Flat(snapshot)).value;
      SortIsStable(flattened, BindingKey, "");
      NormalAllMeaning(Flat(snapshot));
      forall b | b in Sort(flattened, BindingKey) ensures IsNormal(b) {
        assert b in multiset(flattened);
      }
    }
  }

  /** Regrouping and flattening reproduces a list of bindings exactly when the list is arranged and
      regrouping keeps its ties. */
  lemma FlattenExactly(bs: seq<Binding>)
    ensures FlattenBindings(Regroup(bs)) == Some(bs) <==> Arranged(bs) && KeepsTies(bs)
  {
    hide NormalAll, Sort, Flat, Regroup, SameByKey, AllNormal, KeepsTies;
    FlattenArranged(Regroup(bs));
    TiesExactly(bs);
    if Arranged(bs) {
      RegroupedNormal(bs);
      SortsTo(Regrouped(bs), bs, BindingKey);
    }
  }

  // ----- Names in a snapshot -----

  /** No two entries have the same integration and symbol once both are trimmed. */
  predicate DistinctCleanPairs(bs: seq<Binding>) {
    forall i, j :: 0 <= i < j < |bs| ==>
      CleanText(bs[i].integration) != CleanText(bs[j].integration) || CleanText(bs[i].symbol) != CleanText(bs[j].symbol)
  }

  /** No trimmed symbol holds NUL. */
  predicate PlainSymbols(bs: seq<Binding>) {
    forall i :: 0 <= i < |bs| ==> CleanText(bs[i].symbol).Some? ==> '\0' !in CleanText(bs[i].symbol).value
  }

  lemma NormalNames(b: Binding)
    requires NormalBinding(b).Some?
    ensures var n := NormalBinding(b).value;
      CleanText(b.integration) == Some(n.integration) && CleanText(b.symbol) == Some(n.symbol)
  {
    hide CleanText, UniqueTexts, OptionalText;
  }

  /** Normalising keeps the places of the bindings and trims their names. */
  lemma {:induction false} NormalAllNames(bs: seq<Binding>)
    requires NormalAll(bs).Some?
    ensures var ns := NormalAll(bs).value;
      && |ns| == |bs|
      && forall i :: 0 <= i < |bs| ==>
           CleanText(bs[i].integration) == Some(ns[i].integration) && CleanText(bs[i].symbol) == Some(ns[i].symbol)
  {
    hide NormalBinding, CleanText;
    if bs != [] {
      NormalAllNames(bs[..|bs| - 1]);
      NormalNames(bs[|bs| - 1]);
    }
  }

  lemma DistinctPairsPermuted(a: seq<Binding>, b: seq<Binding>)
    requires DistinctPairs(a) && multiset(a) == multiset(b)
    ensures DistinctPairs(b)
  {
    PermutedMembers(a, b);
    forall i, j | 0 <= i < j < |a| ensures a[i] != a[j] {
      assert !SamePair(a[i], a[j]);
    }
    DistinctPermuted(a, b);
    forall i, j | 0 <= i < j < |b| ensures !SamePair(b[i], b[j]) {
      assert b[i] in b && b[j] in b;
      var k :| 0 <= k < |a| && a[k] == b[i];
      var l :| 0 <= l < |a| && a[l] == b[j];
      assert k != l;
    }
  }

  /** The names of a flattened snapshot are the trimmed names of its entries. */
  lemma FlattenedNames(snapshot: Snapshot)
    requires FlattenBindings(snapshot).Some?
    ensures DistinctPairs(FlattenBindings(snapshot).value) <==> DistinctCleanPairs(Flat(snapshot))
    ensures PlainSymbols(Flat(snapshot)) ==> forall b :: b in FlattenBindings(snapshot).value ==> '\0' !in b.symbol
  {
    hide NormalAll, Sort, Flat, CleanText;
    var ns, bs := NormalAll(Flat(snapshot)).value, FlattenBindings(snapshot).value;
    NormalAllNames(Flat(snapshot));
    SortIsStable(ns, BindingKey, "");
    assert DistinctPairs(ns) <==> DistinctCleanPairs(Flat(snapshot));
    if DistinctPairs(ns) {
      DistinctPairsPermuted(ns, bs);
    }
    if DistinctPairs(bs) {
      DistinctPairsPermuted(bs, ns);
    }
    PermutedMembers(ns, bs);
  }

  predicate OptionalFits(t: Option<string>) {
    t.Some? ==> TextFits(t.value, 256)
  }

  function OptionalStrip(t: Option<string>): Option<string> {
    if t.Some? then Some(Strip(t.value)) else None
  }

  /** Exactly which entries are accepted, and their normal form: trimmed texts, `bound` only when it is
      true, and an unknown depth for any other text. */
  lemma BindingAccepted(b: Binding)
    ensures NormalBinding(b).Some? <==>
      && TextFits(b.integration, 256) && TextFits(b.symbol, 256)
      && |GetOr(b.entry.exclusions, [])| <= 256
      && (forall x :: x in GetOr(b.entry.exclusions, []) ==> TextFits(x, 256))
      && OptionalFits(b.entry.version) && OptionalFits(b.entry.errorType) && OptionalFits(b.entry.error)
      && (b.entry.initializedAt.Some? ==> 0 <= b.entry.initializedAt.value <= 0x1F_FFFF_FFFF_FFFF)
    ensures NormalBinding(b).Some? ==>
      var e := NormalBinding(b).value.entry;
      && e.bound == Some(b.entry.bound == Some(true))
      && e.depth == (if b.entry.depth in {Some(Observe), Some(Enforce)} then b.entry.depth else Some(Unknown))
      && e.version == OptionalStrip(b.entry.version) && e.initializedAt == b.entry.initializedAt
      && e.errorType == OptionalStrip(b.entry.errorType) && e.error == OptionalStrip(b.entry.error)
  {
    hide Strip, TextFits;
  }

  /** Some entry of the list is normalised to the binding. */
  ghost predicate Normalises(raw: seq<Binding>, b: Binding) {
    exists x :: x in raw && NormalBinding(x) == Some(b)
  }

  lemma {:induction false} NormalAllMembers(raw: seq<Binding>, b: Binding)
    requires NormalAll(raw).Some?
    ensures b in NormalAll(raw).value <==> Normalises(raw, b)
    ensures forall x :: x in raw ==> NormalBinding(x).Some?
  {
    hide NormalBinding;
    if raw != [] {
      var front, last := raw[..|raw| - 1], raw[|raw| - 1];
      assert raw == front + [last];
      NormalAllMembers(front, b);
    }
  }

  /** A flattened snapshot holds exactly the normalised entries. */
  lemma FlattenedMembers(snapshot: Snapshot, b: Binding)
    requires FlattenBindings(snapshot).Some?
    ensures b in FlattenBindings(snapshot).value <==> Normalises(Flat(snapshot), b)
    ensures forall x :: x in Flat(snapshot) ==> NormalBinding(x).Some?
  {
    hide NormalBinding, Normalises, Sort, Flat;
    var ns := NormalAll(Flat(snapshot)).value;
    NormalAllMembers(Flat(snapshot), b);
    SortIsStable(ns, BindingKey, "");
    PermutedMembers(ns, FlattenBindings(snapshot).value);
  }

  // ----- Names with NUL -----

  function Plain(integration: string, symbol: string): Binding {
    Binding(integration, symbol, Entry(Some(true), Some(Enforce), Some([]), None, None, None, None))
  }

  function TiedSnapshot(): Snapshot {
    [Group("a", [Named("b\0c", Plain("a", "b\0c").entry)]),
     Group("a\0b", [Named("a", Plain("a\0b", "a").entry), Named("c", Plain("a\0b", "c").entry)])]
  }

  lemma ShortText(s: string)
    requires 1 <= |s| <= 3 && forall c :: c in s ==> c == '\0' || 'a' <= c <= 'c'
    ensures CleanText(s) == Some(s)
  {
    forall i | 0 <= i < |s| ensures 'a' <= s[i] <= 'c' || s[i] == '\0' {
      assert s[i] in s;
    }
    SmallText(s);
  }

  lemma {:induction false} SmallText(s: string)
    requires forall i :: 0 <= i < |s| ==> s[i] as int < 0x80
    ensures Utf8Length(s) == |s|
  {
    if s != "" {
      SmallText(s[..|s| - 1]);
    }
  }

  lemma PlainNormal(integration: string, symbol: string)
    requires CleanText(integration) == Some(integration) && CleanText(symbol) == Some(symbol)
    ensures IsNormal(Plain(integration, symbol))
  {
    hide CleanText;
    assert StripAll([]) == {};
    assert UniqueTexts([]) == Some([]) by {
      ListsEmpty(SortedList({}), {}, AtMost);
    }
  }

  lemma TiedOrder(x: Binding, y: Binding, z: Binding)
    requires x == Plain("a", "b\0c") && y == Plain("a\0b", "a") && z == Plain("a\0b", "c")
    ensures BindingKey(x) == BindingKey(z) == "a\0b\0c" && BindingKey(y) == "a\0b\0a"
    ensures BindingKey(x) != BindingKey(y) && AtMost(BindingKey(y), BindingKey(x))
  {
    assert BindingKey(x) == BindingKey(z) == "a\0b\0c" && BindingKey(y) == "a\0b\0a";
    var k, l := "a\0b\0c", "a\0b\0a";
    assert AtMost(l[4..], k[4..]);
    assert l[3..][1..] == l[4..] && k[3..][1..] == k[4..];
    assert AtMost(l[3..], k[3..]);
    assert l[2..][1..] == l[3..] && k[2..][1..] == k[3..];
    assert AtMost(l[2..], k[2..]);
    assert l[1..][1..] == l[2..] && k[1..][1..] == k[2..];
    assert AtMost(l[1..], k[1..]);
  }

  lemma KeyedThree(p: Binding, q: Binding, r: Binding, k: string)
    ensures WithKey([p, q, r], BindingKey, k) ==
      (if BindingKey(p) == k then [p] else []) + (if BindingKey(q) == k then [q] else [])
      + if BindingKey(r) == k then [r] else []
  {
    hide BindingKey;
    assert [p, q, r] == ([] + [p] + [q]) + [r];
    WithKeyAppend([], p, BindingKey, k);
    WithKeyAppend([] + [p], q, BindingKey, k);
    WithKeyAppend([] + [p] + [q], r, BindingKey, k);
  }

  /** Distinct clean pairs are not enough: with NUL in the names, a verifier's regrouping of a
      flattened snapshot sorts to another list. */
  lemma NulBreaksOrder()
    ensures FlattenBindings(TiedSnapshot()).Some?
    ensures DistinctPairs(FlattenBindings(TiedSnapshot()).value)
    ensures !KeepsTies(FlattenBindings(TiedSnapshot()).value)
  {
    var x, y, z := Plain("a", "b\0c"), Plain("a\0b", "a"), Plain("a\0b", "c");
    TiedOrder(x, y, z);
    TiedFlattens(x, y, z);
    TiedFirst(x, y, z);
    var bs := [y, x, z];
    assert BindingKey(bs[1]) == BindingKey(bs[2]);
  }

  lemma TiedFirst(x: Binding, y: Binding, z: Binding)
    requires x.integration != y.integration == z.integration
    ensures FirstOf([y, x, z], x.integration) == 1 && FirstOf([y, x, z], z.integration) == 0
  {
    var bs := [y, x, z];
    FirstWithIsFirst(bs, IntegrationOf, x.integration);
    FirstWithAt(bs, IntegrationOf, 0);
    FirstWithAt(bs, IntegrationOf, 1);
  }

  lemma TiedFlattens(x: Binding, y: Binding, z: Binding)
    requires x == Plain("a", "b\0c") && y == Plain("a\0b", "a") && z == Plain("a\0b", "c")
    ensures FlattenBindings(TiedSnapshot()) == Some([y, x, z])
  {
    TiedFlat(x, y, z);
    TiedNormal(x, y, z);
    TiedSorts(x, y, z);
    hide *;
    Flattens(TiedSnapshot(), [x, y, z]);
  }

  lemma Flattens(snapshot: Snapshot, bs: seq<Binding>)
    requires Flat(snapshot) == bs && AllNormal(bs) && |bs| <= ITEM_MAX
    ensures FlattenBindings(snapshot) == Some(Sort(bs, BindingKey))
  {
    hide NormalAll, Sort, AllNormal;
    NormalAllMeaning(bs);
  }

  lemma TiedNormal(x: Binding, y: Binding, z: Binding)
    requires x == Plain("a", "b\0c") && y == Plain("a\0b", "a") && z == Plain("a\0b", "c")
    ensures AllNormal([x, y, z])
  {
    hide CleanText, Plain, IsNormal;
    ShortText("a");
    ShortText("c");
    ShortText("a\0b");
    ShortText("b\0c");
    PlainNormal("a", "b\0c");
    PlainNormal("a\0b", "a");
    PlainNormal("a\0b", "c");
  }

  lemma TiedSorts(x: Binding, y: Binding, z: Binding)
    requires x == Plain("a", "b\0c") && y == Plain("a\0b", "a") && z == Plain("a\0b", "c")
    ensures Sort([x, y, z], BindingKey) == [y, x, z]
  {
    TiedOrder(x, y, z);
    CodePointOrder();
    hide AtMost, Sort, WithKey, BindingKey, Plain;
    assert InOrder([y, x, z], BindingKey);
    forall k ensures WithKey([x, y, z], BindingKey, k) == WithKey([y, x, z], BindingKey, k) {
      KeyedThree(x, y, z, k);
      KeyedThree(y, x, z, k);
    }
    SortsTo([x, y, z], [y, x, z], BindingKey);
  }

  lemma TiedFlat(x: Binding, y: Binding, z: Binding)
    requires x == Plain("a", "b\0c") && y == Plain("a\0b", "a") && z == Plain("a\0b", "c")
    ensures Flat(TiedSnapshot()) == [x, y, z]
  {
    var gx, gyz := TiedSnapshot()[0], TiedSnapshot()[1];
    assert gx.symbols[..0] == [] && gyz.symbols[..1][..0] == [];
    assert OfGroup("a", gx.symbols) == [x];
    assert OfGroup("a\0b", gyz.symbols[..1]) == [y];
    assert OfGroup("a\0b", gyz.symbols) == [y, z];
    FlatLast([], gx);
    FlatLast([gx], gyz);
    assert [] + [gx] == [gx] && TiedSnapshot() == [gx] + [gyz];
    NothingFlat();
  }

  // ----- The bounds in numbers -----

  lemma LettersStripped(n: nat)
    ensures Strip(Letters(n)) == Letters(n)
  {
    assert n > 0 ==> Letters(n)[0] == 'a' && Letters(n)[n - 1] == 'a';
  }

  /** How long a name and a list of texts may be. */
  lemma BoundsInNumbers(n: nat)
    ensures CleanText(Letters(n)).Some? <==> 1 <= n <= 256
    ensures UniqueTexts(seq(n, i => "a")).Some? <==> n <= 256
  {
    hide Strip, Utf8Length;
    LettersStripped(n);
    LettersLength(n);
    LettersStripped(1);
    LettersLength(1);
    assert Letters(1) == "a";
  }

  lemma {:induction false} NormalAllSize(bs: seq<Binding>)
    requires NormalAll(bs).Some?
    ensures |NormalAll(bs).value| == |bs|
  {
    hide NormalBinding;
    if bs != [] {
      NormalAllSize(bs[..|bs| - 1]);
    }
  }

  /** A snapshot is refused for its size exactly when it has more than 256 entries. */
  lemma SnapshotSize(snapshot: Snapshot)
    requires NormalAll(Flat(snapshot)).Some?
    ensures FlattenBindings(snapshot).Some? <==> |Flat(snapshot)| <= 256
  {
    hide NormalAll, Flat, Sort;
    NormalAllSize(Flat(snapshot));
  }
}
