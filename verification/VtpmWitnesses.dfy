/** Runs of the cache on real keys that show where its name index and its parent links fall short. */
module VtpmWitnesses {
  import opened Wrappers
  import opened Bytes
  import opened WireSchema
  import opened WireTypes
  import opened WireCodec
  import opened WireTheorems
  import opened WireValues
  import opened VtpmPolicyList
  import opened VtpmPolicy
  import opened VtpmStore
  import opened VtpmRecord
  import opened VtpmNames
  import opened VtpmLinks
  import opened VtpmCache
  import opened VtpmRuns
  import opened VtpmRestart

  type TpmStore = Store<WireValues.PublicArea, SavedContext, PolicyStep>
  type TpmOp = Op<WireValues.PublicArea, SavedContext, PolicyStep>

  const NO_CONTEXT: SavedContext := SavedContext(PersistentContext())

  /** A new cache over an empty directory, with the name entries supplied. */
  function NewStore(handles: map<Name, u32>): TpmStore {
    Store(map[], handles, map[], {}, TRANSIENT_START, map[], {})
  }

  function Blank(alg: AlgId): WireValues.PublicArea {
    WireValues.PublicArea(BlankPublic(alg))
  }

  lemma BlankAlg(alg: AlgId)
    ensures NameAlg(Blank(alg)) == alg && Link(Blank(alg)).Ok?
  {
    BlankPublicMarshals(alg);
  }

  /** Public areas with different name algorithms marshal differently. */
  lemma LinksDiffer(a: AlgId, b: AlgId)
    requires a != b
    ensures Link(Blank(a)) != Link(Blank(b))
  {
    BlankAlg(a);
    BlankAlg(b);
    PublicShape(BlankPublic(a), PUBLIC_PARMS, PUBLIC_ID);
    PublicShape(BlankPublic(b), PUBLIC_PARMS, PUBLIC_ID);
    PublicWellFormed();
    if Link(Blank(a)) == Link(Blank(b)) {
      EncodeInjective(PUBLIC, 0, BlankPublic(a), BlankPublic(b));
    }
  }

  /** Names begin with their algorithm. */
  lemma NamesDiffer(digest: DigestFunction, a: AlgId, b: AlgId)
    requires a != b && a in HASH_ALGS && b in HASH_ALGS
    ensures MakeName(digest, Blank(a)).Some? && MakeName(digest, Blank(b)).Some?
    ensures MakeName(digest, Blank(a)) != MakeName(digest, Blank(b))
  {
    BlankAlg(a);
    BlankAlg(b);
    AlgsDiffer(digest, Blank(a), Blank(b));
  }

  lemma AlgsDiffer(digest: DigestFunction, a: WireValues.PublicArea, b: WireValues.PublicArea)
    requires NameAlg(a) != NameAlg(b) && NameAlg(a) in HASH_ALGS && Link(a).Ok?
    ensures MakeName(digest, a).Some? && MakeName(digest, a) != MakeName(digest, b)
  {
    if MakeName(digest, a) == MakeName(digest, b) {
      NamesTellApart(digest, NameAlg(a), NameAlg(b), Link(a), Link(b));
    }
  }

  function Keyedhash(alg: AlgId): WireValues.PublicArea {
    WireValues.PublicArea(KeyedhashPublic(alg))
  }

  lemma KeyedhashAlg(alg: AlgId)
    ensures NameAlg(Keyedhash(alg)) == alg && Link(Keyedhash(alg)).Ok? && !IsNull(Keyedhash(alg))
  {
    KeyedhashPublicMarshals(alg);
    PublicShape(KeyedhashPublic(alg), PUBLIC_PARMS, PUBLIC_ID);
  }

  /** Saving at a cursor that stands on a free slot. */
  lemma SavedAtCursor<A, C, S>(env: Env<A, C, S>, s: Store<A, C, S>, context: C, public: A, parent: A, name: Name)
    requires InRange(s.next) && s.next !in s.contexts && s.next !in s.names && env.name(public) == Some(name)
    ensures SaveTransient(env, s, context, public, parent, []).store
            == s.(contexts := s.contexts[s.next := Key(VERSION, s.next, public, parent, context, [])],
                  handles := s.handles[name := s.next], names := s.names[s.next := name],
                  dirty := s.dirty + {s.next}, next := After(s.next))
  {
    assert Slot(s.next, 0) == s.next && FreeSlot(s.contexts, s.next, 0) == Some(s.next);
  }

  /** The state after two keys with one public area were saved in a new cache. */
  ghost predicate Twins<A, C, S>(env: Env<A, C, S>, s: Store<A, C, S>, public: A, parent: A, name: Name) {
    && s.contexts.Keys == {TRANSIENT_START, TRANSIENT_START + 1}
    && (forall c <- s.contexts :: s.contexts[c].public == public && s.contexts[c].parent == parent)
    && s.names == map[TRANSIENT_START := name, TRANSIENT_START + 1 := name]
    && s.handles == map[name := TRANSIENT_START + 1]
  }

  lemma TwinsRemoved<A, C, S>(env: Env<A, C, S>, s: Store<A, C, S>, public: A, parent: A, name: Name)
    requires Twins(env, s, public, parent, name)
    ensures var t := EvictAll(s, [TRANSIENT_START + 1]);
            && t.contexts == s.contexts - {TRANSIENT_START + 1}
            && t.names == map[TRANSIENT_START := name] && t.handles == map[]
  {
    assert EvictAll(s, [TRANSIENT_START + 1]) == Evict(s, TRANSIENT_START + 1);
  }

  /** A key whose parent is not among the cached keys has no descendants but itself. */
  lemma TwinAlone<A, C, S>(env: Env<A, C, S>, s: Store<A, C, S>, public: A, parent: A, name: Name, h: u32)
    requires Twins(env, s, public, parent, name) && h in s.contexts && env.link(public) != env.link(parent)
    ensures IsSubtree(env, s.contexts, h, [h]) && Partial(env, s.contexts, h, [h])
  {
    Childless(env, s.contexts, h);
    RemovesItself(env, s.contexts, h);
  }

  /**
    Two keys with one public area are saved, and the second is removed with all that
    descends from it, which is nothing: the first is live, and its name finds nothing.
   */
  lemma SharedNameHidden(digest: DigestFunction) returns (states: seq<TpmStore>, ops: seq<TpmOp>, name: Name)
    ensures Run(EnvOf(digest), states, ops) && |ops| == 3 && states[0] == NewStore(map[])
    ensures ops[0].DoSaveTransient? && ops[1] == ops[0] && ops[2] == DoRemove(TRANSIENT_START + 1)
    ensures Findable(states[2]) && !HidesNone(EnvOf(digest), states[2], ops[2], states[3])
    ensures IsSubtree(EnvOf(digest), states[2].contexts, TRANSIENT_START + 1, [TRANSIENT_START + 1])
    ensures states[3] == EvictAll(states[2], [TRANSIENT_START + 1])
    ensures TRANSIENT_START in states[3].contexts && name !in states[3].handles
    ensures EnvOf(digest).name(states[3].contexts[TRANSIENT_START].public) == Some(name)
  {
    LinksDiffer(ALG_SHA256, ALG_SHA384);
    NamesDiffer(digest, ALG_SHA256, ALG_SHA384);
    name := MakeName(digest, Blank(ALG_SHA256)).value;
    states, ops := TwinsRun(EnvOf(digest), NO_CONTEXT, Blank(ALG_SHA256), Blank(ALG_SHA384), name);
  }

  lemma TwinsRun<A, C, S>(env: Env<A, C, S>, context: C, public: A, parent: A, name: Name)
      returns (states: seq<Store<A, C, S>>, ops: seq<Op<A, C, S>>)
    requires env.name(public) == Some(name) && env.link(public) != env.link(parent)
    ensures Run(env, states, ops) && |ops| == 3
    ensures states[0] == Store(map[], map[], map[], {}, TRANSIENT_START, map[], {})
    ensures ops[0].DoSaveTransient? && ops[1] == ops[0] && ops[2] == DoRemove(TRANSIENT_START + 1)
    ensures Findable(states[2]) && !HidesNone(env, states[2], ops[2], states[3])
    ensures IsSubtree(env, states[2].contexts, TRANSIENT_START + 1, [TRANSIENT_START + 1])
    ensures states[3] == EvictAll(states[2], [TRANSIENT_START + 1])
    ensures TRANSIENT_START in states[3].contexts && name !in states[3].handles
    ensures env.name(states[3].contexts[TRANSIENT_START].public) == Some(name)
  {
    var s0: Store<A, C, S> := Store(map[], map[], map[], {}, TRANSIENT_START, map[], {});
    var s1 := SaveTransient(env, s0, context, public, parent, []).store;
    TwinsSaved(env, s0, context, public, parent, name);
    var s2 := SaveTransient(env, s1, context, public, parent, []).store;
    TwinAlone(env, s2, public, parent, name, TRANSIENT_START + 1);
    TwinsRemoved(env, s2, public, parent, name);
    var s3 := EvictAll(s2, [TRANSIENT_START + 1]);
    var save := DoSaveTransient(context, public, parent, []);
    states, ops := [s0, s1, s2, s3], [save, save, DoRemove(TRANSIENT_START + 1)];
    assert s3.names[TRANSIENT_START] == name;
  }

  lemma TwinsSaved<A, C, S>(env: Env<A, C, S>, s: Store<A, C, S>, context: C, public: A, parent: A, name: Name)
    requires s == Store(map[], map[], map[], {}, TRANSIENT_START, map[], {}) && env.name(public) == Some(name)
    ensures var t := SaveTransient(env, s, context, public, parent, []).store;
            && InRange(t.next)
            && Twins(env, SaveTransient(env, t, context, public, parent, []).store, public, parent, name)
  {
    SavedAtCursor(env, s, context, public, parent, name);
    var t := SaveTransient(env, s, context, public, parent, []).store;
    SavedAtCursor(env, t, context, public, parent, name);
  }

  /** A supplied name leads to a persistent handle, and a key of another name is saved there. */
  lemma SuppliedNameWrong(digest: DigestFunction) returns (states: seq<TpmStore>, ops: seq<TpmOp>, name: Name)
    ensures Run(EnvOf(digest), states, ops) && |ops| == 1 && states[0] == NewStore(map[name := 0x8100_0000])
    ensures SuppliedAgree(states[0]) && !SavesTruly(EnvOf(digest), states[0], ops[0])
    ensures name in states[1].handles && states[1].handles[name] in states[1].contexts
    ensures EnvOf(digest).name(states[1].contexts[states[1].handles[name]].public) != Some(name)
  {
    var env, h := EnvOf(digest), 0x8100_0000;
    NamesDiffer(digest, ALG_SHA256, ALG_SHA384);
    name := MakeName(digest, Blank(ALG_SHA384)).value;
    var s0 := NewStore(map[name := h]);
    var s1 := SavePersistent(env, s0, h, Blank(ALG_SHA256), Blank(ALG_SHA256), []).store;
    states, ops := [s0, s1], [DoSavePersistent(h, Blank(ALG_SHA256), Blank(ALG_SHA256), [])];
    assert s1.contexts[h].public == Blank(ALG_SHA256);
    assert s0.handles[name] == h && !OwnNameOnly(s0, h, MakeName(digest, Blank(ALG_SHA256)).value);
  }

  /** A key saved with its own public area as its parent: the way up from it never ends. */
  lemma SelfParentNeverEnds(digest: DigestFunction) returns (states: seq<TpmStore>, ops: seq<TpmOp>)
    ensures Run(EnvOf(digest), states, ops) && |ops| == 1 && states[0] == NewStore(map[])
    ensures ops[0].DoSaveTransient? && TRANSIENT_START in states[1].contexts
    ensures !ClimbsEnd(EnvOf(digest), states[1], TRANSIENT_START)
    ensures forall n: nat :: !NoLonger(EnvOf(digest), states[1], TRANSIENT_START, n)
  {
    var public := WireValues.PublicArea(KeyedhashPublic(ALG_SHA256));
    KeyedhashPublicMarshals(ALG_SHA256);
    PublicShape(public.value, PUBLIC_PARMS, PUBLIC_ID);
    states, ops := SelfParentRun(EnvOf(digest), NO_CONTEXT, public, MakeName(digest, public).value);
  }

  lemma SelfParentRun<A, C, S>(env: Env<A, C, S>, context: C, public: A, name: Name)
      returns (states: seq<Store<A, C, S>>, ops: seq<Op<A, C, S>>)
    requires env.name(public) == Some(name) && !env.isNull(public)
    ensures Run(env, states, ops) && |ops| == 1
    ensures states[0] == Store(map[], map[], map[], {}, TRANSIENT_START, map[], {})
    ensures ops[0].DoSaveTransient? && TRANSIENT_START in states[1].contexts
    ensures !ClimbsEnd(env, states[1], TRANSIENT_START)
    ensures forall n: nat :: !NoLonger(env, states[1], TRANSIENT_START, n)
  {
    var h := TRANSIENT_START;
    var s0: Store<A, C, S> := Store(map[], map[], map[], {}, h, map[], {});
    SavedAtCursor(env, s0, context, public, public, name);
    var s1 := SaveTransient(env, s0, context, public, public, []).store;
    states, ops := [s0, s1], [DoSaveTransient(context, public, public, [])];
    assert ParentCached(s1, h, h) && !NullParent(env, s1.contexts[h]);
    assert Climb(env, s1, [h, h], h) && !Distinct([h, h]) by {
      assert [h, h][..1] == [h] && Members([h]) == {h};
    }
    ClimbsBounded(env, s1, h);
  }

  // ----- removals that leave keys without a parent -----

  /** The state after two keys with different names were saved in a new cache. */
  ghost predicate TwoKeys<A, C, S>(s: Store<A, C, S>, a: A, above: A, m: Name, b: A, beside: A, n: Name) {
    var first, second := TRANSIENT_START, TRANSIENT_START + 1;
    && s.contexts.Keys == {first, second}
    && s.contexts[first].public == a && s.contexts[first].parent == above
    && s.contexts[second].public == b && s.contexts[second].parent == beside
    && s.names == map[first := m, second := n] && s.handles == map[m := first, n := second]
  }

  lemma TwoKeysSaved<A, C, S>(
      env: Env<A, C, S>, context: C, a: A, above: A, m: Name, b: A, beside: A, n: Name)
      returns (states: seq<Store<A, C, S>>, ops: seq<Op<A, C, S>>)
    requires env.name(a) == Some(m) && env.name(b) == Some(n) && m != n
    ensures Run(env, states, ops) && |ops| == 2 && ops[0].DoSaveTransient? && ops[1].DoSaveTransient?
    ensures states[0] == Store(map[], map[], map[], {}, TRANSIENT_START, map[], {})
    ensures TwoKeys(states[2], a, above, m, b, beside, n)
  {
    var s0: Store<A, C, S> := Store(map[], map[], map[], {}, TRANSIENT_START, map[], {});
    SavedAtCursor(env, s0, context, a, above, m);
    var s1 := SaveTransient(env, s0, context, a, above, []).store;
    SavedAtCursor(env, s1, context, b, beside, n);
    var s2 := SaveTransient(env, s1, context, b, beside, []).store;
    states := [s0, s1, s2];
    ops := [DoSaveTransient(context, a, above, []), DoSaveTransient(context, b, beside, [])];
  }

  lemma FirstRemoved<A, C, S>(
      env: Env<A, C, S>, s: Store<A, C, S>, a: A, above: A, m: Name, b: A, beside: A, n: Name)
    requires TwoKeys(s, a, above, m, b, beside, n) && m != n
    ensures var t := EvictAll(s, [TRANSIENT_START]);
            && Step(env, s, DoRemove(TRANSIENT_START), t)
            && t.contexts == s.contexts - {TRANSIENT_START} && t.handles == map[n := TRANSIENT_START + 1]
  {
    RemovesItself(env, s.contexts, TRANSIENT_START);
    EvictedFirst(s, a, above, m, b, beside, n);
  }

  /** A removal that got no further than its target. */
  lemma RemovesItself<A, C, S>(env: Env<A, C, S>, contexts: map<u32, Key<A, C, S>>, h: u32)
    requires h in contexts
    ensures Partial(env, contexts, h, [h])
  {
    DescendsSelf(env, contexts, h);
    assert Members([h]) == {h} && Distinct([h]);
  }

  lemma EvictedFirst<A, C, S>(s: Store<A, C, S>, a: A, above: A, m: Name, b: A, beside: A, n: Name)
    requires TwoKeys(s, a, above, m, b, beside, n) && m != n
    ensures var t := EvictAll(s, [TRANSIENT_START]);
            t.contexts == s.contexts - {TRANSIENT_START} && t.handles == map[n := TRANSIENT_START + 1]
  {
    assert EvictAll(s, [TRANSIENT_START]) == Evict(s, TRANSIENT_START);
  }

  lemma OneMoreStep<A, C, S>(
      env: Env<A, C, S>, states: seq<Store<A, C, S>>, ops: seq<Op<A, C, S>>, op: Op<A, C, S>, t: Store<A, C, S>)
    requires Run(env, states, ops) && Step(env, states[|ops|], op, t)
    ensures Run(env, states + [t], ops + [op])
  {
  }

  /**
    A key and its child are saved, and removing the key fails at the child: the child
    stays, with a parent that is neither cached nor published.
   */
  lemma FailedRemovalOrphans(digest: DigestFunction) returns (states: seq<TpmStore>, ops: seq<TpmOp>)
    ensures Run(EnvOf(digest), states, ops) && |ops| == 3 && states[0] == NewStore(map[])
    ensures ops[0].DoSaveTransient? && ops[1].DoSaveTransient? && ops[2] == DoRemove(TRANSIENT_START)
    ensures AllResolve(EnvOf(digest), states[2]) && states[3] == EvictAll(states[2], [TRANSIENT_START])
    ensures Descends(EnvOf(digest), states[2].contexts, TRANSIENT_START, TRANSIENT_START + 1)
    ensures TRANSIENT_START + 1 in states[3].contexts && !HasParent(EnvOf(digest), states[3], TRANSIENT_START + 1)
  {
    var parent, child := Keyedhash(ALG_SHA256), Blank(ALG_SHA384);
    KeyedhashAlg(ALG_SHA256);
    BlankAlg(ALG_SHA384);
    BlankIsNull(ALG_SHA384);
    AlgsDiffer(digest, parent, child);
    AlgsDiffer(digest, child, parent);
    states, ops := FamilyRun(EnvOf(digest), NO_CONTEXT, parent, child, MakeName(digest, parent).value,
                             MakeName(digest, child).value);
  }

  lemma BlankIsNull(alg: AlgId)
    ensures IsNull(Blank(alg))
  {
    PublicShape(BlankPublic(alg), PUBLIC_PARMS, PUBLIC_ID);
  }

  lemma FamilyRun<A, C, S>(env: Env<A, C, S>, context: C, parent: A, child: A, m: Name, n: Name)
      returns (states: seq<Store<A, C, S>>, ops: seq<Op<A, C, S>>)
    requires env.name(parent) == Some(m) && env.name(child) == Some(n) && m != n && parent != child
    requires env.isNull(child) && !env.isNull(parent) && env.link(parent).Ok?
    ensures Run(env, states, ops) && |ops| == 3
    ensures states[0] == Store(map[], map[], map[], {}, TRANSIENT_START, map[], {})
    ensures ops[0].DoSaveTransient? && ops[1].DoSaveTransient? && ops[2] == DoRemove(TRANSIENT_START)
    ensures AllResolve(env, states[2]) && states[3] == EvictAll(states[2], [TRANSIENT_START])
    ensures Descends(env, states[2].contexts, TRANSIENT_START, TRANSIENT_START + 1)
    ensures TRANSIENT_START + 1 in states[3].contexts && !HasParent(env, states[3], TRANSIENT_START + 1)
  {
    var first, second := TRANSIENT_START, TRANSIENT_START + 1;
    states, ops := TwoKeysSaved(env, context, parent, child, m, child, parent, n);
    var s := states[2];
    FirstRemoved(env, s, parent, child, m, child, parent, n);
    assert ParentCached(s, first, second);
    DescendsSelf(env, s.contexts, first);
    DescendsChild(env, s.contexts, first, first, second);
    OneMoreStep(env, states, ops, DoRemove(first), EvictAll(s, [first]));
    states, ops := states + [EvictAll(s, [first])], ops + [DoRemove(first)];
  }

  /**
    A digest that gives all areas one value: a key's parent is not cached, but a key of
    the same name is; removing that key, and all that descends from it, takes the name.
   */
  lemma CollisionOrphans() returns (states: seq<TpmStore>, ops: seq<TpmOp>)
    ensures var env := EnvOf((_, _) => []);
            && Run(env, states, ops) && |ops| == 3 && states[0] == NewStore(map[])
            && ops[0].DoSaveTransient? && ops[1].DoSaveTransient? && ops[2] == DoRemove(TRANSIENT_START)
            && AllResolve(env, states[2]) && states[3] == EvictAll(states[2], [TRANSIENT_START])
            && IsSubtree(env, states[2].contexts, TRANSIENT_START, [TRANSIENT_START])
            && TRANSIENT_START + 1 in states[3].contexts && !HasParent(env, states[3], TRANSIENT_START + 1)
  {
    var digest: DigestFunction := (_, _) => [];
    var named, parent, hanging := Blank(ALG_SHA256), Keyedhash(ALG_SHA256), Blank(ALG_SHA384);
    KeyedhashAlg(ALG_SHA256);
    BlankAlg(ALG_SHA256);
    BlankAlg(ALG_SHA384);
    BlankIsNull(ALG_SHA256);
    BlankIsNull(ALG_SHA384);
    NamesDiffer(digest, ALG_SHA256, ALG_SHA384);
    LinksDiffer(ALG_SHA256, ALG_SHA384);
    TypesDiffer(ALG_SHA256);
    states, ops := HangingRun(EnvOf(digest), NO_CONTEXT, named, parent, hanging, MakeName(digest, named).value,
                              MakeName(digest, hanging).value);
  }

  lemma TypesDiffer(alg: AlgId)
    ensures Link(Keyedhash(alg)) != Link(Blank(alg))
  {
    KeyedhashAlg(alg);
    BlankAlg(alg);
    PublicShape(BlankPublic(alg), PUBLIC_PARMS, PUBLIC_ID);
    PublicShape(KeyedhashPublic(alg), PUBLIC_PARMS, PUBLIC_ID);
    PublicWellFormed();
    if Link(Keyedhash(alg)) == Link(Blank(alg)) {
      EncodeInjective(PUBLIC, 0, KeyedhashPublic(alg), BlankPublic(alg));
    }
  }

  lemma HangingRun<A, C, S>(env: Env<A, C, S>, context: C, named: A, parent: A, hanging: A, m: Name, n: Name)
      returns (states: seq<Store<A, C, S>>, ops: seq<Op<A, C, S>>)
    requires env.name(named) == env.name(parent) == Some(m) && env.name(hanging) == Some(n) && m != n
    requires env.isNull(hanging) && !env.isNull(parent) && env.link(parent) != env.link(named)
    requires env.link(hanging) != env.link(named)
    ensures Run(env, states, ops) && |ops| == 3
    ensures states[0] == Store(map[], map[], map[], {}, TRANSIENT_START, map[], {})
    ensures ops[0].DoSaveTransient? && ops[1].DoSaveTransient? && ops[2] == DoRemove(TRANSIENT_START)
    ensures AllResolve(env, states[2]) && states[3] == EvictAll(states[2], [TRANSIENT_START])
    ensures IsSubtree(env, states[2].contexts, TRANSIENT_START, [TRANSIENT_START])
    ensures TRANSIENT_START + 1 in states[3].contexts && !HasParent(env, states[3], TRANSIENT_START + 1)
  {
    var first, second := TRANSIENT_START, TRANSIENT_START + 1;
    states, ops := TwoKeysSaved(env, context, named, hanging, m, hanging, parent, n);
    var s := states[2];
    FirstRemoved(env, s, named, hanging, m, hanging, parent, n);
    Childless(env, s.contexts, first);
    OneMoreStep(env, states, ops, DoRemove(first), EvictAll(s, [first]));
    states, ops := states + [EvictAll(s, [first])], ops + [DoRemove(first)];
  }

  lemma Childless<A, C, S>(env: Env<A, C, S>, contexts: map<u32, Key<A, C, S>>, h: u32)
    requires h in contexts && forall c: u32 :: !Child(env, contexts, h, c)
    ensures IsSubtree(env, contexts, h, [h])
  {
    DescendsSelf(env, contexts, h);
    assert Members([h]) == {h} && Distinct([h]);
    forall x: u32 | Descends(env, contexts, h, x)
      ensures x in Members([h])
    {
      ClosedHoldsDescendants(env, contexts, {h}, h, x);
    }
  }

  // ----- a directory that does not open -----

  /** A key that marshals and loads, but is named with no hash algorithm. */
  function NamelessKey(): TpmKey {
    Key(VERSION, 0x8100_0000, Blank(ALG_NULL), Blank(ALG_NULL), NO_CONTEXT, [])
  }

  lemma NamelessKeyLoads(digest: DigestFunction)
    ensures RecordBytes(NamelessKey()).Ok?
    ensures var r := LoadRecord(RecordBytes(NamelessKey()).value, 0x8100_0000);
            r.Ok? && MakeName(digest, r.value.public).None?
  {
    NamelessKeyMarshals();
    SameNameLoads(digest, NamelessKey());
    BlankUnnamed(digest);
  }

  lemma BlankUnnamed(digest: DigestFunction)
    ensures MakeName(digest, Blank(ALG_NULL)).None?
  {
    BlankAlg(ALG_NULL);
  }

  /** A record that loads, loads with its key's name. */
  lemma SameNameLoads(digest: DigestFunction, k: TpmKey)
    requires k.version == VERSION && RecordBytes(k).Ok? && Reloadable(k)
    ensures var r := LoadRecord(RecordBytes(k).value, k.handle);
            r.Ok? && MakeName(digest, r.value.public) == MakeName(digest, k.public)
  {
    RecordRoundTrip(k);
    RecordLinks(k);
    SameKeySameName(digest, LoadRecord(RecordBytes(k).value, k.handle).value, k);
  }

  lemma NamelessKeyMarshals()
    ensures RecordBytes(NamelessKey()).Ok? && Reloadable(NamelessKey())
  {
    BlankAlg(ALG_NULL);
    ContextMarshals();
    EmptyStepsMarshal([]);
    KeyMarshals(NamelessKey());
    RecordLength(NamelessKey());
    NamelessKeyFits();
  }

  lemma NamelessKeyFits()
    ensures SerializedLen(NamelessKey()) <= RECORD_SIZE_MAX
  {
    PublicWellFormed();
    StructureSizes();
    PairMaxLen(PUBLIC, CONTEXT);
    PairMaxLen(PUBLIC, Pair(PUBLIC, CONTEXT));
    LengthBound(RECORD_BODY, BodyOf(NamelessKey()));
  }

  lemma NamelessDirectory(digest: DigestFunction)
    requires RecordBytes(NamelessKey()).Ok?
    ensures !AllNamed(EnvOf(digest), map[0x8100_0000 := RecordBytes(NamelessKey()).value])
  {
    var files := map[0x8100_0000 := RecordBytes(NamelessKey()).value];
    NamelessKeyLoads(digest);
    assert 0x8100_0000 in files && Cached(0x8100_0000);
  }

  /** A directory that holds nothing but its record is refused. */
  method NamelessKeyRefused(digest: DigestFunction)
    returns (r: Result<Cache<WireValues.PublicArea, SavedContext, PolicyStep>, VtpmError>)
    ensures r == Err(OperationFailed)
  {
    NamelessKeyMarshals();
    NamelessDirectory(digest);
    EnvLawful(digest);
    var disk := new Disk(true, map[0x8100_0000 := RecordBytes(NamelessKey()).value]);
    r := Cache<WireValues.PublicArea, SavedContext, PolicyStep>.Open(EnvOf(digest), disk, map[]);
  }
}
