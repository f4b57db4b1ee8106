/** When two intent policy documents build to the same canonical document: a relation on the documents
    as they are written, and both directions of it. */
module IntentForms {
  import opened Wrappers
  import opened SeqFacts
  import opened Documents
  import opened IntentPolicy

  // ----- What may differ -----

  ghost predicate SameItems(a: seq<Json>, b: seq<Json>) {
    forall x :: x in a <==> x in b
  }

  /** The same value, or two lists within the bound that differ in order and repetition alone. */
  ghost predicate SameList(p: Profile, a: Json, b: Json) {
    a == b || (IsList(p, a) && IsList(p, b) && SameItems(a.items, b.items))
  }

  /** Version 2: one target field, holding a list of texts or a list of hashes. */
  predicate OneForm(f: Fields) {
    || (AllowedTargets in f && AllowedTargetHashes !in f
        && IsList(V2, f[AllowedTargets]) && AllTargets(f[AllowedTargets].items))
    || (AllowedTargetHashes in f && AllowedTargets !in f
        && IsList(V2, f[AllowedTargetHashes]) && AllHashes(f[AllowedTargetHashes].items))
  }

  /** The hash is listed, or is that of a listed target. */
  ghost predicate Lists(hash: string -> string, f: Fields, h: string)
    requires OneForm(f)
  {
    if AllowedTargets in f then exists t :: Str(t) in f[AllowedTargets].items && hash(t) == h
    else Str(h) in f[AllowedTargetHashes].items
  }

  ghost predicate ListSameHashes(hash: string -> string, f: Fields, g: Fields)
    requires OneForm(f) && OneForm(g)
  {
    forall h :: Lists(hash, f, h) <==> Lists(hash, g, h)
  }

  /** Version 1: the same targets. Version 2: the same fields with the same items, or targets and hashes
      that come to the same hashes. */
  ghost predicate SameTargets(p: Profile, hash: string -> string, f: Fields, g: Fields) {
    || ((AllowedTargets in f <==> AllowedTargets in g) && (AllowedTargetHashes in f <==> AllowedTargetHashes in g)
        && SameList(p, At(f, AllowedTargets), At(g, AllowedTargets))
        && SameList(p, At(f, AllowedTargetHashes), At(g, AllowedTargetHashes)))
    || (p == V2 && OneForm(f) && OneForm(g) && ListSameHashes(hash, f, g))
  }

  function OtherKeys(f: Fields): set<Key> {
    f.Keys - {AllowedTargets, AllowedTargetHashes}
  }

  /** Two scopes that differ in the order and repetition of list items, and in version 2 in how targets
      are given. */
  ghost predicate SameScope(p: Profile, hash: string -> string, f: Fields, g: Fields) {
    && OtherKeys(f) == OtherKeys(g) && SameTargets(p, hash, f, g)
    && At(f, IntentId) == At(g, IntentId) && At(f, MaxPriorActions) == At(g, MaxPriorActions)
    && SameList(p, At(f, AllowedActions), At(g, AllowedActions))
    && SameList(p, At(f, AllowedRequestedScopes), At(g, AllowedRequestedScopes))
    && SameList(p, At(f, AllowedDataClassifications), At(g, AllowedDataClassifications))
    && SameList(p, At(f, DenyAfterOutcomes), At(g, DenyAfterOutcomes))
  }

  ghost predicate SameScopeText(p: Profile, hash: string -> string, a: Json, b: Json) {
    a == b || (a.Obj? && b.Obj? && SameScope(p, hash, a.fields, b.fields))
  }

  /** The scopes of a are, one by one, like those of a rearrangement c of b. */
  ghost predicate Matches(p: Profile, hash: string -> string, a: seq<Json>, b: seq<Json>, c: seq<Json>) {
    && multiset(c) == multiset(b) && |a| == |c|
    && forall i :: 0 <= i < |a| ==> SameScopeText(p, hash, a[i], c[i])
  }

  ghost predicate SameScopesText(p: Profile, hash: string -> string, a: seq<Json>, b: seq<Json>) {
    exists c :: Matches(p, hash, a, b, c)
  }

  /** Two policies that differ in the order of scopes and in what their scopes may differ in. */
  ghost predicate SamePolicyText(p: Profile, hash: string -> string, a: Json, b: Json) {
    || a == b
    || (a.Obj? && b.Obj? && a.fields.Keys == b.fields.Keys
        && At(a.fields, Schema) == At(b.fields, Schema) && At(a.fields, ProfileVersion) == At(b.fields, ProfileVersion)
        && At(a.fields, IntentScopes).List? && At(b.fields, IntentScopes).List?
        && SameScopesText(p, hash, a.fields[IntentScopes].items, b.fields[IntentScopes].items))
  }

  // ----- Lists -----

  lemma SameListReads(p: Profile, a: Json, b: Json)
    requires SameList(p, a, b)
    ensures TextSet(p, a) == TextSet(p, b) && PairSet(p, a) == PairSet(p, b)
  {
    hide IsText, IsPair;
    if a != b {
      SameImage(a.items, b.items, TextOf);
      SameImage(a.items, b.items, PairOf);
      assert AllTexts(p, a.items) <==> AllTexts(p, b.items);
    }
  }

  /** Lists of texts that stand for the same set have the same items. */
  lemma SameTexts(p: Profile, a: Json, b: Json)
    requires TextSet(p, a).Some? && TextSet(p, a) == TextSet(p, b)
    ensures SameList(p, a, b)
  {
    hide IsText;
    ImageIncludes(a.items, b.items, TextOf);
    ImageIncludes(b.items, a.items, TextOf);
  }

  lemma ImageIncludes<U(!new)>(a: seq<Json>, b: seq<Json>, read: Json -> U)
    requires Image(a, read) == Image(b, read)
    requires forall x, y :: x in a && y in b && read(x) == read(y) ==> x == y
    ensures forall x :: x in a ==> x in b
  {
    forall x | x in a ensures x in b {
      assert read(x) in Image(b, read);
    }
  }

  lemma SamePairs(p: Profile, a: Json, b: Json)
    requires PairSet(p, a).Some? && PairSet(p, a) == PairSet(p, b)
    ensures SameList(p, a, b)
  {
    hide IsPair;
    forall x, y | x in a.items && y in b.items && PairOf(x) == PairOf(y) ensures x == y {
      PairDetermines(p, x, y);
    }
    forall x, y | x in b.items && y in a.items && PairOf(x) == PairOf(y) ensures x == y {
      PairDetermines(p, x, y);
    }
    ImageIncludes(a.items, b.items, PairOf);
    ImageIncludes(b.items, a.items, PairOf);
  }

  lemma PairDetermines(p: Profile, x: Json, y: Json)
    requires IsPair(p, x) && IsPair(p, y) && PairOf(x) == PairOf(y)
    ensures x == y
  {
    hide IsText;
    assert x.fields.Keys == {Kind, Name} == y.fields.Keys;
    assert x.fields == y.fields;
  }

  // ----- Targets -----

  lemma FormReads(hash: string -> string, f: Fields)
    ensures TargetSet(V2, hash, f).Some? <==> OneForm(f)
    ensures OneForm(f) ==> forall h :: h in TargetSet(V2, hash, f).value <==> Lists(hash, f, h)
  {
    hide IsText, IsHash;
    if OneForm(f) {
      forall h ensures h in TargetSet(V2, hash, f).value <==> Lists(hash, f, h) {
        ListedHash(hash, f, h);
      }
    }
  }

  lemma ListedHash(hash: string -> string, f: Fields, h: string)
    requires OneForm(f)
    ensures TargetSet(V2, hash, f).Some?
    ensures h in TargetSet(V2, hash, f).value <==> Lists(hash, f, h)
  {
    hide IsText, IsHash;
    if AllowedTargets in f {
      var items := f[AllowedTargets].items;
      TextListed(items);
      assert TargetSet(V2, hash, f).value == Hashed(hash, Image(items, TextOf));
    } else {
      TextListed(f[AllowedTargetHashes].items);
    }
  }

  lemma TextListed(items: seq<Json>)
    requires forall x :: x in items ==> x.Str?
    ensures forall t :: t in Image(items, TextOf) <==> Str(t) in items
  {
    forall t | Str(t) in items ensures t in Image(items, TextOf) {
      assert TextOf(Str(t)) == t;
    }
  }

  lemma SameTargetsRead(p: Profile, hash: string -> string, f: Fields, g: Fields)
    requires SameTargets(p, hash, f, g)
    ensures TargetSet(p, hash, f) == TargetSet(p, hash, g)
  {
    hide Lists, TargetSet;
    if p == V2 && OneForm(f) && OneForm(g) && ListSameHashes(hash, f, g) {
      FormReads(hash, f);
      FormReads(hash, g);
      assert TargetSet(V2, hash, f).value == TargetSet(V2, hash, g).value;
    } else {
      SameFormReads(p, hash, f, g);
    }
  }

  lemma SameFormReads(p: Profile, hash: string -> string, f: Fields, g: Fields)
    requires (AllowedTargets in f <==> AllowedTargets in g) && (AllowedTargetHashes in f <==> AllowedTargetHashes in g)
    requires SameList(p, At(f, AllowedTargets), At(g, AllowedTargets))
    requires SameList(p, At(f, AllowedTargetHashes), At(g, AllowedTargetHashes))
    ensures TargetSet(p, hash, f) == TargetSet(p, hash, g)
  {
    hide IsText, IsHash, TextSet;
    SameListReads(p, At(f, AllowedTargets), At(g, AllowedTargets));
    SameListImage(p, At(f, AllowedTargets), At(g, AllowedTargets));
    SameListImage(p, At(f, AllowedTargetHashes), At(g, AllowedTargetHashes));
  }

  lemma SameListImage(p: Profile, a: Json, b: Json)
    requires SameList(p, a, b)
    ensures IsList(p, a) <==> IsList(p, b)
    ensures IsList(p, a) ==>
      && Image(a.items, TextOf) == Image(b.items, TextOf)
      && (AllTargets(a.items) <==> AllTargets(b.items)) && (AllHashes(a.items) <==> AllHashes(b.items))
  {
    hide IsText, IsHash;
    if a != b {
      SameImage(a.items, b.items, TextOf);
    }
  }

  /** Accepted targets that are read alike are the same targets. */
  lemma TargetsDetermine(p: Profile, hash: string -> string, f: Fields, g: Fields)
    requires TargetSet(p, hash, f).Some? && TargetSet(p, hash, f) == TargetSet(p, hash, g)
    requires p == V1 ==> AllowedTargetHashes !in f && AllowedTargetHashes !in g
    ensures SameTargets(p, hash, f, g)
  {
    if p == V1 {
      hide TextSet;
      SameTexts(V1, At(f, AllowedTargets), At(g, AllowedTargets));
      Present(V1, f, AllowedTargets);
      Present(V1, g, AllowedTargets);
    } else {
      hide TargetSet, Lists, OneForm;
      FormReads(hash, f);
      FormReads(hash, g);
    }
  }

  lemma Present(p: Profile, f: Fields, k: Key)
    ensures TextSet(p, At(f, k)).Some? || PairSet(p, At(f, k)).Some? || Text(p, At(f, k)).Some? ==> k in f
  {
  }

  /** Raw targets may be replaced by their hashes, in any order and with any repetition. */
  lemma RawOrHashed(hash: string -> string, raw: Fields, hashed: Fields)
    requires HexHash(hash) && OneForm(raw) && AllowedTargets in raw
    requires AllowedTargetHashes in hashed && AllowedTargets !in hashed && IsList(V2, hashed[AllowedTargetHashes])
    requires forall x :: x in hashed[AllowedTargetHashes].items <==>
               exists t :: Str(t) in raw[AllowedTargets].items && x == Str(hash(t))
    ensures SameTargets(V2, hash, raw, hashed)
  {
    hide IsText, IsHash;
    assert AllHashes(hashed[AllowedTargetHashes].items);
  }

  // ----- Scopes -----

  /** Scopes that differ in these ways are read alike, or are both refused. */
  lemma SameScopeReads(p: Profile, hash: string -> string, a: Json, b: Json)
    requires SameScopeText(p, hash, a, b)
    ensures ReadScope(p, hash, a) == ReadScope(p, hash, b)
  {
    hide TargetSet, TextSet, PairSet, SameList, SameTargets, ScopeKeys, IsText, OtherKeys;
    if a != b {
      var f, g := a.fields, b.fields;
      SameTargetsRead(p, hash, f, g);
      SameListReads(p, At(f, AllowedActions), At(g, AllowedActions));
      SameListReads(p, At(f, AllowedRequestedScopes), At(g, AllowedRequestedScopes));
      SameListReads(p, At(f, AllowedDataClassifications), At(g, AllowedDataClassifications));
      SameListReads(p, At(f, DenyAfterOutcomes), At(g, DenyAfterOutcomes));
      SameKeysRead(p, hash, f, g);
      SameFieldsRead(p, hash, f, g);
    }
  }

  lemma SameFieldsRead(p: Profile, hash: string -> string, f: Fields, g: Fields)
    requires f.Keys <= ScopeKeys(p) <==> g.Keys <= ScopeKeys(p)
    requires forall k :: k != AllowedTargets && k != AllowedTargetHashes ==> (k in f <==> k in g)
    requires TargetSet(p, hash, f) == TargetSet(p, hash, g)
    requires At(f, IntentId) == At(g, IntentId) && At(f, MaxPriorActions) == At(g, MaxPriorActions)
    requires PairSet(p, At(f, AllowedActions)) == PairSet(p, At(g, AllowedActions))
    requires TextSet(p, At(f, AllowedRequestedScopes)) == TextSet(p, At(g, AllowedRequestedScopes))
    requires TextSet(p, At(f, AllowedDataClassifications)) == TextSet(p, At(g, AllowedDataClassifications))
    requires TextSet(p, At(f, DenyAfterOutcomes)) == TextSet(p, At(g, DenyAfterOutcomes))
    ensures ReadScope(p, hash, Obj(f)) == ReadScope(p, hash, Obj(g))
  {
    hide TargetSet, TextSet, PairSet, ScopeKeys, Text, OutcomeSet, Maximum, At;
    SameOptionalRead(p, f, g);
  }

  lemma SameOptionalRead(p: Profile, f: Fields, g: Fields)
    requires forall k :: k in {DenyAfterOutcomes, MaxPriorActions} ==> (k in f <==> k in g)
    requires At(f, MaxPriorActions) == At(g, MaxPriorActions)
    requires TextSet(p, At(f, DenyAfterOutcomes)) == TextSet(p, At(g, DenyAfterOutcomes))
    ensures OutcomeSet(p, f) == OutcomeSet(p, g) && Maximum(f) == Maximum(g)
  {
    hide TextSet;
  }

  /** Either both scopes have supported keys alone, or neither is read. */
  lemma SameKeysRead(p: Profile, hash: string -> string, f: Fields, g: Fields)
    requires OtherKeys(f) == OtherKeys(g) && SameTargets(p, hash, f, g)
    ensures f.Keys <= ScopeKeys(p) <==> g.Keys <= ScopeKeys(p)
    ensures forall k :: k != AllowedTargets && k != AllowedTargetHashes ==> (k in f <==> k in g)
  {
    hide SameList, OneForm, ListSameHashes;
    forall k | k != AllowedTargets && k != AllowedTargetHashes ensures k in f <==> k in g {
      assert k in OtherKeys(f) <==> k in f;
      assert k in OtherKeys(g) <==> k in g;
    }
  }

  /** Scopes that are read alike differ in these ways alone. */
  lemma ScopeDetermines(p: Profile, hash: string -> string, a: Json, b: Json)
    requires ReadScope(p, hash, a).Some? && ReadScope(p, hash, a) == ReadScope(p, hash, b)
    ensures SameScopeText(p, hash, a, b)
  {
    var f, g := a.fields, b.fields;
    ScopeParts(p, hash, a, b);
    hide ReadScope, TargetSet, TextSet, PairSet, IsText, SameList, SameTargets, ScopeKeys;
    TargetsDetermine(p, hash, f, g);
    SamePairs(p, At(f, AllowedActions), At(g, AllowedActions));
    SameTexts(p, At(f, AllowedRequestedScopes), At(g, AllowedRequestedScopes));
    SameTexts(p, At(f, AllowedDataClassifications), At(g, AllowedDataClassifications));
    if DenyAfterOutcomes in f {
      SameTexts(p, At(f, DenyAfterOutcomes), At(g, DenyAfterOutcomes));
    } else {
      SameNothing(p, f, g, DenyAfterOutcomes);
    }
  }

  lemma SameNothing(p: Profile, f: Fields, g: Fields, k: Key)
    requires k !in f && k !in g
    ensures SameList(p, At(f, k), At(g, k))
  {
  }

  /** What reading alike says of each field. */
  lemma ScopeParts(p: Profile, hash: string -> string, a: Json, b: Json)
    requires ReadScope(p, hash, a).Some? && ReadScope(p, hash, a) == ReadScope(p, hash, b)
    ensures a.Obj? && b.Obj? && OtherKeys(a.fields) == OtherKeys(b.fields)
    ensures p == V1 ==> AllowedTargetHashes !in a.fields && AllowedTargetHashes !in b.fields
    ensures var f, g := a.fields, b.fields;
      && TargetSet(p, hash, f).Some? && TargetSet(p, hash, f) == TargetSet(p, hash, g)
      && PairSet(p, At(f, AllowedActions)).Some?
      && PairSet(p, At(f, AllowedActions)) == PairSet(p, At(g, AllowedActions))
      && TextSet(p, At(f, AllowedRequestedScopes)).Some?
      && TextSet(p, At(f, AllowedRequestedScopes)) == TextSet(p, At(g, AllowedRequestedScopes))
      && TextSet(p, At(f, AllowedDataClassifications)).Some?
      && TextSet(p, At(f, AllowedDataClassifications)) == TextSet(p, At(g, AllowedDataClassifications))
      && (DenyAfterOutcomes in f <==> DenyAfterOutcomes in g)
      && (DenyAfterOutcomes in f ==>
            TextSet(p, At(f, DenyAfterOutcomes)).Some?
            && TextSet(p, At(f, DenyAfterOutcomes)) == TextSet(p, At(g, DenyAfterOutcomes)))
      && At(f, IntentId) == At(g, IntentId) && At(f, MaxPriorActions) == At(g, MaxPriorActions)
  {
    var f, g := a.fields, b.fields;
    PresentAll(p, hash, a);
    PresentAll(p, hash, b);
    hide TargetSet, TextSet, PairSet, IsText;
    assert MaxPriorActions in f <==> MaxPriorActions in g;
  }

  /** An accepted scope has the required keys, and no others but the optional ones. */
  lemma PresentAll(p: Profile, hash: string -> string, a: Json)
    requires ReadScope(p, hash, a).Some?
    ensures var f := a.fields;
      && {IntentId, AllowedActions, AllowedRequestedScopes, AllowedDataClassifications} <= OtherKeys(f)
      && OtherKeys(f) <= {IntentId, AllowedActions, AllowedRequestedScopes, AllowedDataClassifications,
                          DenyAfterOutcomes, MaxPriorActions}
      && (p == V1 ==> AllowedTargetHashes !in f)
  {
    hide TargetSet, TextSet, PairSet, IsText, Text;
    var f := a.fields;
    Present(p, f, IntentId);
    Present(p, f, AllowedActions);
    Present(p, f, AllowedRequestedScopes);
    Present(p, f, AllowedDataClassifications);
  }

  // ----- Lists of scopes -----

  predicate AllRead(p: Profile, hash: string -> string, items: seq<Json>) {
    forall x :: x in items ==> ReadScope(p, hash, x).Some?
  }

  predicate DistinctIds(p: Profile, hash: string -> string, items: seq<Json>)
    requires AllRead(p, hash, items)
  {
    forall i, j :: 0 <= i < j < |items| ==>
      ReadScope(p, hash, items[i]).value.id != ReadScope(p, hash, items[j]).value.id
  }

  /** A list of scopes is read exactly when each of them is and no id appears twice. */
  lemma {:induction false} ReadScopesExactly(p: Profile, hash: string -> string, items: seq<Json>)
    ensures ReadScopes(p, hash, items).Some? <==> AllRead(p, hash, items) && DistinctIds(p, hash, items)
  {
    hide ReadScope;
    if items != [] {
      var front, last := items[..|items| - 1], items[|items| - 1];
      assert items == front + [last];
      ReadScopesExactly(p, hash, front);
      if ReadScopes(p, hash, front).Some? && ReadScope(p, hash, last).Some? {
        var rest, scope := ReadScopes(p, hash, front).value, ReadScope(p, hash, last).value;
        ScopesMeaning(p, hash, front, rest);
        IdListed(p, hash, front, rest, scope.id);
        DistinctIdsStep(p, hash, front, last);
      }
      if AllRead(p, hash, items) {
        assert AllRead(p, hash, front) && last in items;
        DistinctIdsStep(p, hash, front, last);
      }
    }
  }

  lemma IdListed(p: Profile, hash: string -> string, items: seq<Json>, policy: Policy, id: string)
    requires ReadScopes(p, hash, items) == Some(policy) && AllRead(p, hash, items)
    ensures id in policy <==> exists i :: 0 <= i < |items| && ReadScope(p, hash, items[i]).value.id == id
  {
    hide ReadScope, ReadScopes;
    ScopesMeaning(p, hash, items, policy);
    forall i | 0 <= i < |items| && ReadScope(p, hash, items[i]).value.id == id ensures id in policy {
      assert items[i] in items;
      var m := ReadScope(p, hash, items[i]).value;
      assert ReadScope(p, hash, items[i]) == Some(m);
    }
    if id in policy {
      var m := policy[id];
      assert policy[id] == m;
      var i :| 0 <= i < |items| && ReadScope(p, hash, items[i]) == Some(m) && m.id == id;
    }
  }

  lemma DistinctIdsStep(p: Profile, hash: string -> string, front: seq<Json>, last: Json)
    requires AllRead(p, hash, front) && ReadScope(p, hash, last).Some?
    ensures AllRead(p, hash, front + [last])
    ensures DistinctIds(p, hash, front + [last]) <==>
      && DistinctIds(p, hash, front)
      && !exists i :: 0 <= i < |front| && ReadScope(p, hash, front[i]).value.id == ReadScope(p, hash, last).value.id
  {
    hide ReadScope;
    var items := front + [last];
    assert items[|front|] == last && forall i :: 0 <= i < |front| ==> items[i] == front[i];
    if DistinctIds(p, hash, items) {
      forall i, j | 0 <= i < j < |front|
        ensures ReadScope(p, hash, front[i]).value.id != ReadScope(p, hash, front[j]).value.id
      {
        assert items[i] == front[i] && items[j] == front[j];
      }
    }
  }

  /** The order of the scopes does not matter, to acceptance or to meaning. */
  lemma ScopeOrderFree(p: Profile, hash: string -> string, a: seq<Json>, b: seq<Json>)
    requires multiset(a) == multiset(b)
    ensures ReadScopes(p, hash, a) == ReadScopes(p, hash, b)
  {
    hide ReadScope, ReadScopes;
    PermutedMembers(a, b);
    ReadScopesExactly(p, hash, a);
    ReadScopesExactly(p, hash, b);
    if AllRead(p, hash, a) {
      DistinctIdsPermuted(p, hash, a, b);
      DistinctIdsPermuted(p, hash, b, a);
    }
    if ReadScopes(p, hash, a).Some? {
      SamePolicies(p, hash, a, b, ReadScopes(p, hash, a).value, ReadScopes(p, hash, b).value);
    }
  }

  lemma DistinctIdsPermuted(p: Profile, hash: string -> string, a: seq<Json>, b: seq<Json>)
    requires multiset(a) == multiset(b) && AllRead(p, hash, a) && AllRead(p, hash, b)
    ensures DistinctIds(p, hash, a) ==> DistinctIds(p, hash, b)
  {
    hide ReadScope;
    PermutedMembers(a, b);
    if DistinctIds(p, hash, a) {
      assert Distinct(a);
      DistinctPermuted(a, b);
      forall i, j | 0 <= i < j < |b|
        ensures ReadScope(p, hash, b[i]).value.id != ReadScope(p, hash, b[j]).value.id
      {
        assert b[i] in b && b[j] in b;
        var k :| 0 <= k < |a| && a[k] == b[i];
        var l :| 0 <= l < |a| && a[l] == b[j];
        assert k != l;
      }
    }
  }

  lemma SamePolicies(p: Profile, hash: string -> string, a: seq<Json>, b: seq<Json>, m: Policy, n: Policy)
    requires ReadScopes(p, hash, a) == Some(m) && ReadScopes(p, hash, b) == Some(n) && forall x :: x in a <==> x in b
    ensures m == n
  {
    hide ReadScope, ReadScopes;
    ScopesMeaning(p, hash, a, m);
    ScopesMeaning(p, hash, b, n);
    forall id | id in m ensures id in n && n[id] == m[id] {
      var i :| 0 <= i < |a| && ReadScope(p, hash, a[i]) == Some(m[id]) && m[id].id == id;
      assert a[i] in b;
      var j :| 0 <= j < |b| && b[j] == a[i];
    }
    forall id | id in n ensures id in m {
      var i :| 0 <= i < |b| && ReadScope(p, hash, b[i]) == Some(n[id]) && n[id].id == id;
      assert b[i] in a;
      var j :| 0 <= j < |a| && a[j] == b[i];
    }
    assert m.Keys == n.Keys;
  }

  /** Scopes that are pairwise read alike are read alike as lists. */
  lemma {:induction false} PairwiseReads(p: Profile, hash: string -> string, a: seq<Json>, c: seq<Json>)
    requires |a| == |c| && forall i :: 0 <= i < |a| ==> ReadScope(p, hash, a[i]) == ReadScope(p, hash, c[i])
    ensures ReadScopes(p, hash, a) == ReadScopes(p, hash, c)
  {
    hide ReadScope;
    if a != [] {
      PairwiseReads(p, hash, a[..|a| - 1], c[..|c| - 1]);
    }
  }

  lemma SameScopesRead(p: Profile, hash: string -> string, a: seq<Json>, b: seq<Json>)
    requires SameScopesText(p, hash, a, b)
    ensures ReadScopes(p, hash, a) == ReadScopes(p, hash, b) && |a| == |b|
  {
    hide ReadScope, ReadScopes, SameScopeText;
    var c :| Matches(p, hash, a, b, c);
    forall i | 0 <= i < |a| ensures ReadScope(p, hash, a[i]) == ReadScope(p, hash, c[i]) {
      SameScopeReads(p, hash, a[i], c[i]);
    }
    PairwiseReads(p, hash, a, c);
    ScopeOrderFree(p, hash, c, b);
    PermutedMembers(c, b);
  }

  /** The scope of b with the id of a scope of a. */
  lemma Partner(p: Profile, hash: string -> string, a: seq<Json>, b: seq<Json>, i: nat) returns (y: Json)
    requires ReadScopes(p, hash, a).Some? && ReadScopes(p, hash, a) == ReadScopes(p, hash, b) && i < |a|
    ensures y in b && ReadScope(p, hash, a[i]).Some? && ReadScope(p, hash, y) == ReadScope(p, hash, a[i])
  {
    hide ReadScope, ReadScopes;
    var m := ReadScopes(p, hash, a).value;
    ReadScopesExactly(p, hash, a);
    ScopesMeaning(p, hash, a, m);
    ScopesMeaning(p, hash, b, m);
    assert a[i] in a;
    var scope := ReadScope(p, hash, a[i]).value;
    assert ReadScope(p, hash, a[i]) == Some(scope);
    assert scope.id in m && m[scope.id] == scope;
    var j :| 0 <= j < |b| && ReadScope(p, hash, b[j]) == Some(scope) && scope.id == scope.id;
    y := b[j];
  }

  lemma {:induction false} Partners(p: Profile, hash: string -> string, a: seq<Json>, b: seq<Json>, n: nat)
      returns (c: seq<Json>)
    requires ReadScopes(p, hash, a).Some? && ReadScopes(p, hash, a) == ReadScopes(p, hash, b) && n <= |a|
    ensures |c| == n && forall i :: 0 <= i < n ==>
      c[i] in b && ReadScope(p, hash, a[i]).Some? && ReadScope(p, hash, c[i]) == ReadScope(p, hash, a[i])
  {
    hide ReadScope, ReadScopes;
    if n == 0 {
      c := [];
    } else {
      var front := Partners(p, hash, a, b, n - 1);
      var y := Partner(p, hash, a, b, n - 1);
      c := front + [y];
    }
  }

  /** Lists of scopes that are read alike match one by one. */
  lemma ScopesDetermine(p: Profile, hash: string -> string, a: seq<Json>, b: seq<Json>)
    requires ReadScopes(p, hash, a).Some? && ReadScopes(p, hash, a) == ReadScopes(p, hash, b)
    ensures SameScopesText(p, hash, a, b)
  {
    hide ReadScope, ReadScopes, SameScopeText;
    var c := Partners(p, hash, a, b, |a|);
    ReadScopesExactly(p, hash, a);
    ReadScopesExactly(p, hash, b);
    PartnersPermute(p, hash, a, b, c);
    forall i | 0 <= i < |a| ensures SameScopeText(p, hash, a[i], c[i]) {
      ScopeDetermines(p, hash, a[i], c[i]);
    }
    assert Matches(p, hash, a, b, c);
  }

  lemma PartnersPermute(p: Profile, hash: string -> string, a: seq<Json>, b: seq<Json>, c: seq<Json>)
    requires ReadScopes(p, hash, a).Some? && ReadScopes(p, hash, a) == ReadScopes(p, hash, b) && |c| == |a|
    requires AllRead(p, hash, a) && DistinctIds(p, hash, a) && AllRead(p, hash, b) && DistinctIds(p, hash, b)
    requires forall i :: 0 <= i < |a| ==> c[i] in b && ReadScope(p, hash, c[i]) == ReadScope(p, hash, a[i])
    ensures multiset(c) == multiset(b)
  {
    hide ReadScope, ReadScopes;
    assert Distinct(b);
    forall i, j | 0 <= i < j < |c| ensures c[i] != c[j] {
      assert ReadScope(p, hash, a[i]).value.id != ReadScope(p, hash, a[j]).value.id;
    }
    forall y | y in b ensures y in c {
      var j :| 0 <= j < |b| && b[j] == y;
      var x := Partner(p, hash, b, a, j);
      var i :| 0 <= i < |a| && a[i] == x;
      assert c[i] in b;
      var l :| 0 <= l < |b| && b[l] == c[i];
      assert ReadScope(p, hash, b[l]).value.id == ReadScope(p, hash, b[j]).value.id;
    }
    SameElementsPermute(c, b);
  }

  // ----- Policies -----

  lemma SamePolicyReads(p: Profile, hash: string -> string, a: Json, b: Json)
    requires SamePolicyText(p, hash, a, b)
    ensures ReadPolicy(p, hash, a) == ReadPolicy(p, hash, b)
  {
    hide ReadScopes, SameScopesText, PolicySchema, PolicyVersion;
    if a != b {
      SameScopesRead(p, hash, a.fields[IntentScopes].items, b.fields[IntentScopes].items);
    }
  }

  lemma PolicyDetermines(p: Profile, hash: string -> string, a: Json, b: Json)
    requires ReadPolicy(p, hash, a).Some? && ReadPolicy(p, hash, a) == ReadPolicy(p, hash, b)
    ensures SamePolicyText(p, hash, a, b)
  {
    hide ReadScopes, SameScopesText, PolicySchema;
    VersionPresent(p);
    ScopesDetermine(p, hash, a.fields[IntentScopes].items, b.fields[IntentScopes].items);
    assert a.fields.Keys == {Schema, ProfileVersion, IntentScopes} == b.fields.Keys by {
      hide PolicyVersion;
    }
  }

  lemma VersionPresent(p: Profile)
    ensures PolicySchema(p) != Null && PolicyVersion(p) != Null
  {
  }

  /** Policies that differ in the order and repetition of list items, in the order of scopes, or, in
      version 2, in targets against hashes, build to the same document or are both refused. */
  lemma SameBuilds(p: Profile, hash: string -> string, a: Json, b: Json)
    requires SamePolicyText(p, hash, a, b)
    ensures BuildPolicy(p, hash, a) == BuildPolicy(p, hash, b)
  {
    hide ReadPolicy, SamePolicyText;
    SamePolicyReads(p, hash, a, b);
  }

  /** And accepted policies that build to the same document differ in these ways alone. */
  lemma CanonicalExactly(p: Profile, hash: string -> string, a: Json, b: Json)
    requires HexHash(hash) && BuildPolicy(p, hash, a).Some? && BuildPolicy(p, hash, b).Some?
    ensures BuildPolicy(p, hash, a) == BuildPolicy(p, hash, b) <==> SamePolicyText(p, hash, a, b)
  {
    hide ReadPolicy, SamePolicyText, HexHash, WritePolicy;
    BuildCanonical(p, hash, a, b);
    if ReadPolicy(p, hash, a) == ReadPolicy(p, hash, b) {
      PolicyDetermines(p, hash, a, b);
    }
    if SamePolicyText(p, hash, a, b) {
      SameBuilds(p, hash, a, b);
    }
  }
}
