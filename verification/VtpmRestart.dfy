/** The cache over real keys: the codec keeps the laws the cache relies on, so keys survive a restart. */
module VtpmRestart {
  import opened Wrappers
  import opened Bytes
  import opened WireSchema
  import opened WireTypes
  import opened WireCodec
  import opened WireTheorems
  import opened WireValues
  import opened VtpmPolicyList
  import opened VtpmPolicy
  import opened VtpmStore
  import opened VtpmRecord
  import opened VtpmLinks
  import opened VtpmCache
  import opened VtpmRuns

  type DigestFunction = (AlgId, seq<byte>) -> Digest

  lemma PublicShape(v: Value, parms: Schema, unique: Schema)
    requires Typed(WireTypes.PublicArea(ALG, parms, unique), v)
    ensures v.WithTag? && v.body.Both? && v.body.first.Num? && v.body.first.n in ALG_IDS
    ensures Canon(WireTypes.PublicArea(ALG, parms, unique), v).WithTag?
    ensures Canon(WireTypes.PublicArea(ALG, parms, unique), v).tag == v.tag
    ensures Canon(WireTypes.PublicArea(ALG, parms, unique), v).body.Both?
    ensures Canon(WireTypes.PublicArea(ALG, parms, unique), v).body.first == v.body.first
  {
    var fields := Pair(ALG, Pair(UInt(4), Pair(DIGEST, Pair(parms, unique))));
    assert Typed(fields, v.body) && Typed(ALG, v.body.first);
    assert Canon(fields, v.body).first == Canon(ALG, v.body.first) == v.body.first;
  }

  /** The algorithm a public area is named with. */
  function NameAlg(public: WireValues.PublicArea): AlgId {
    PublicShape(public.value, PUBLIC_PARMS, PUBLIC_ID);
    public.value.body.first.n
  }

  /** `tpm_make_name`: the name algorithm, and its digest of the marshalled public area. */
  function MakeName(digest: DigestFunction, public: WireValues.PublicArea): Option<Name> {
    NameFrom(digest, NameAlg(public), Encode(PUBLIC, 0, public.value))
  }

  function NameFrom(digest: DigestFunction, alg: AlgId, encoded: Result<seq<byte>, TpmError>): Option<Name> {
    if alg !in HASH_ALGS || encoded.Err? then None else Some(BigEndian(2, alg) + digest(alg, encoded.value))
  }

  function IsNull(public: WireValues.PublicArea): bool {
    PublicShape(public.value, PUBLIC_PARMS, PUBLIC_ID);
    public.value.tag == ALG_NULL
  }

  function Link(public: WireValues.PublicArea): Result<seq<byte>, TpmError> {
    Encode(PUBLIC, 0, public.value)
  }

  type TpmEnv = Env<WireValues.PublicArea, SavedContext, PolicyStep>

  function EnvOf(digest: DigestFunction): TpmEnv {
    Env(public => MakeName(digest, public), IsNull, SavedContext(PersistentContext()), Link, RecordBytes, LoadRecord)
  }

  /** Loading and saving records are inverse, as the cache requires. */
  lemma EnvLawful(digest: DigestFunction)
    ensures Lawful(EnvOf(digest))
  {
    forall bytes, h: u32 | LoadRecord(bytes, h).Ok?
      ensures var k := LoadRecord(bytes, h).value;
              k.handle == h && k.version == VERSION && RecordBytes(k) == Ok(bytes)
    {
      RecordReproduces(bytes, h);
    }
  }

  /** Only what marshals has a name, as removal requires. */
  lemma NamesMarshal(digest: DigestFunction)
    ensures NamedMarshal(EnvOf(digest))
  {
    forall a: WireValues.PublicArea | MakeName(digest, a).Some?
      ensures Link(a).Ok?
    {
      assert NameFrom(digest, NameAlg(a), Link(a)).Some?;
    }
  }

  /** The digest tells the marshalled areas listed apart, under each algorithm that two of them are named with. */
  ghost predicate TellsApart(digest: DigestFunction, areas: set<WireValues.PublicArea>) {
    forall a <- areas, b <- areas | NameAlg(a) == NameAlg(b) && Link(a).Ok? && Link(b).Ok? ::
      digest(NameAlg(a), Link(a).value) == digest(NameAlg(b), Link(b).value) ==> Link(a) == Link(b)
  }

  /** The public areas the cached keys have or name as their parents. */
  function AreasOf(contexts: map<u32, TpmKey>): set<WireValues.PublicArea> {
    (set h | h in contexts :: contexts[h].public) + (set h | h in contexts :: contexts[h].parent)
  }

  /** Where the digest tells the cached areas apart, their names do not collide. */
  lemma NamesCollisionFree(digest: DigestFunction, s: Store<WireValues.PublicArea, SavedContext, PolicyStep>)
    requires TellsApart(digest, AreasOf(s.contexts))
    ensures CollisionFree(EnvOf(digest), s)
  {
    forall x <- s.contexts, c <- s.contexts
      | MakeName(digest, s.contexts[c].parent).Some?
        && MakeName(digest, s.contexts[c].parent) == MakeName(digest, s.contexts[x].public)
      ensures Link(s.contexts[c].parent) == Link(s.contexts[x].public)
    {
      var a, b := s.contexts[c].parent, s.contexts[x].public;
      assert a in AreasOf(s.contexts) && b in AreasOf(s.contexts);
      NamesTellApart(digest, NameAlg(a), NameAlg(b), Link(a), Link(b));
    }
  }

  /** Equal names were made with one algorithm, from inputs with one digest. */
  lemma NamesTellApart(
      digest: DigestFunction, a: AlgId, b: AlgId, x: Result<seq<byte>, TpmError>, y: Result<seq<byte>, TpmError>)
    requires NameFrom(digest, a, x).Some? && NameFrom(digest, a, x) == NameFrom(digest, b, y)
    ensures a == b && x.Ok? && y.Ok? && digest(a, x.value) == digest(b, y.value)
  {
    Pow256Values();
    var m, n := NameFrom(digest, a, x).value, NameFrom(digest, b, y).value;
    assert m[..2] == BigEndian(2, a) && n[..2] == BigEndian(2, b);
    assert m[2..] == digest(a, x.value) && n[2..] == digest(b, y.value);
    BigEndianRoundTrip(2, a);
    BigEndianRoundTrip(2, b);
  }

  /**
    On real keys: after a subtree is removed every survivor can still be followed up to
    a root exactly when none hangs from what went by a name alone, and so always where
    the digest tells the cached areas apart.
   */
  lemma RemovalOnKeys(
      digest: DigestFunction, s: Store<WireValues.PublicArea, SavedContext, PolicyStep>, root: u32, hs: seq<u32>)
    requires Inv(EnvOf(digest), s) && AllResolve(EnvOf(digest), s) && IsSubtree(EnvOf(digest), s.contexts, root, hs)
    ensures AllResolve(EnvOf(digest), EvictAll(s, hs))
            <==> forall c <- s.contexts | c !in Members(hs) :: !HangsBy(EnvOf(digest), s, Members(hs), c)
    ensures TellsApart(digest, AreasOf(s.contexts)) ==> AllResolve(EnvOf(digest), EvictAll(s, hs))
  {
    NamesMarshal(digest);
    RemovalKeepsParents(EnvOf(digest), s, root, hs);
    if TellsApart(digest, AreasOf(s.contexts)) {
      NamesCollisionFree(digest, s);
    }
  }

  /** The same key has the same name and the same links after a reload. */
  lemma SameKeySameName(digest: DigestFunction, a: TpmKey, b: TpmKey)
    requires SameKey(a, b) && Link(b.public).Ok? && Link(b.parent).Ok?
    ensures MakeName(digest, a.public) == MakeName(digest, b.public)
    ensures Link(a.public) == Link(b.public) && Link(a.parent) == Link(b.parent)
  {
    PublicWellFormed();
    EncodeCanon(PUBLIC, 0, b.public.value);
    EncodeCanon(PUBLIC, 0, b.parent.value);
    PublicShape(b.public.value, PUBLIC_PARMS, PUBLIC_ID);
  }

  /** The key can be written to a record that the loader accepts. */
  predicate Survives(k: TpmKey) {
    RecordBytes(k).Ok? && Reloadable(k)
  }

  /** The keys that survive are there again, unchanged, and no others. */
  ghost predicate Restored(before: map<u32, TpmKey>, after: map<u32, TpmKey>) {
    && (forall h: u32 :: h in after <==> h in before && Survives(before[h]))
    && forall h <- after :: h in before && SameKey(after[h], before[h])
  }

  /** A cache opened on the directory of a clean cache has the same keys. */
  lemma RestartSame(
      digest: DigestFunction, s: Store<WireValues.PublicArea, SavedContext, PolicyStep>, loaded: map<u32, TpmKey>)
    requires Inv(EnvOf(digest), s) && s.dirty !! s.contexts.Keys
    requires loaded == LoadedContexts(EnvOf(digest), s.files, s.files.Keys)
    ensures Restored(s.contexts, loaded)
  {
    forall h: u32
      ensures h in loaded <==> h in s.contexts && Survives(s.contexts[h])
      ensures h in loaded ==> SameKey(loaded[h], s.contexts[h])
    {
      RestartLoads(EnvOf(digest), s, h);
      if h in s.contexts {
        assert EnvOf(digest).record(s.contexts[h]) == Ok(s.files[h]);
        RecordSurvives(s.contexts[h], s.files[h]);
      }
    }
  }

  lemma RecordSurvives(k: TpmKey, bytes: seq<byte>)
    requires k.version == VERSION && RecordBytes(k) == Ok(bytes)
    ensures LoadRecord(bytes, k.handle).Ok? <==> Survives(k)
    ensures LoadRecord(bytes, k.handle).Ok? ==> SameKey(LoadRecord(bytes, k.handle).value, k)
  {
    RecordRoundTrip(k);
  }

  /** A key with a record has public areas that marshal. */
  lemma RecordLinks(k: TpmKey)
    requires RecordBytes(k).Ok?
    ensures Link(k.public).Ok? && Link(k.parent).Ok?
  {
    assert Encode(RECORD_BODY, 0, BodyOf(k)).Ok?;
  }

  /** The directory of a clean cache holds no key that a new cache could not name. */
  lemma FlushedNamed(digest: DigestFunction, s: Store<WireValues.PublicArea, SavedContext, PolicyStep>)
    requires Inv(EnvOf(digest), s) && s.dirty !! s.contexts.Keys
    ensures AllNamed(EnvOf(digest), s.files)
  {
    forall h <- s.files | Cached(h) && LoadRecord(s.files[h], h).Ok?
      ensures MakeName(digest, LoadRecord(s.files[h], h).value.public).Some?
    {
      var k := s.contexts[h];
      assert RecordBytes(k) == Ok(s.files[h]);
      RecordSurvives(k, s.files[h]);
      RecordLinks(k);
      SameKeySameName(digest, LoadRecord(s.files[h], h).value, k);
      assert EnvOf(digest).name(k.public) == Some(s.names[h]);
    }
  }

  /**
    Flushing a cache and opening another on the same directory gives back the same
    keys, for all records within the loader's limits. On a reliable directory, and
    with keys that can be written, nothing stands in the way.
   */
  method Reopen(
    cache: Cache<WireValues.PublicArea, SavedContext, PolicyStep>, digest: DigestFunction, handles: map<Name, u32>)
    returns (r: Result<Cache<WireValues.PublicArea, SavedContext, PolicyStep>, VtpmError>)
    requires cache.env == EnvOf(digest) && Inv(cache.env, cache.Snapshot())
    modifies cache`dirty, cache.disk
    ensures r.Ok? ==> Inv(r.value.env, r.value.Snapshot()) && r.value.dirty == {}
    ensures r.Ok? ==> Restored(cache.contexts, r.value.contexts)
    ensures AllMarshal(cache.env, cache.contexts, old(cache.dirty)) ==>
              cache.disk.reliable && AllPersistent(handles) ==> r.Ok?
  {
    EnvLawful(digest);
    var flushed, done := cache.Flush();
    if flushed.Err? {
      return Err(flushed.error);
    }
    ghost var clean := cache.Snapshot();
    FlushedNamed(digest, clean);
    r := Cache<WireValues.PublicArea, SavedContext, PolicyStep>.Open(cache.env, cache.disk, handles);
    if r.Ok? {
      RestartSame(digest, clean, r.value.contexts);
    }
  }

  // ----- the loader's limits matter -----

  /** A key with one policy step more than the loader accepts. */
  function CrowdedKey(): TpmKey {
    var blank := WireValues.PublicArea(BlankPublic(ALG_SHA256));
    Key(VERSION, 0x8100_0000, blank, blank, SavedContext(PersistentContext()),
        seq(POLICY_COUNT_MAX + 1, _ => DefaultStep(CC_POLICY_AUTH_VALUE, [])))
  }

  lemma {:induction false} EmptyStepsMarshal(steps: seq<PolicyStep>)
    requires forall i | 0 <= i < |steps| :: StepBody(steps[i]) == []
    ensures PartsBytes(PartsOf(PartOf, steps)).Ok?
  {
    if steps != [] {
      assert forall i | 0 <= i < |steps| - 1 :: steps[1..][i] == steps[i + 1];
      EmptyStepsMarshal(steps[1..]);
      PartsCons(PartOf(steps[0]), PartsOf(PartOf, steps[1..]));
    }
  }

  lemma KeyMarshals(k: TpmKey)
    requires Link(k.public).Ok? && Link(k.parent).Ok? && Encode(CONTEXT, 0, k.context.value).Ok?
    requires ListBytes(PolicyParts(k)).Ok?
    ensures RecordBytes(k).Ok?
  {
    PairMarshals(PUBLIC, CONTEXT, 0, k.parent.value, k.context.value);
    PairMarshals(PUBLIC, Pair(PUBLIC, CONTEXT), 0, k.public.value, Both(k.parent.value, k.context.value));
  }

  lemma TooManyStepsLost(k: TpmKey)
    requires k.version == VERSION && RecordBytes(k).Ok? && |k.policy| > POLICY_COUNT_MAX
    ensures LoadRecord(RecordBytes(k).value, k.handle).Err?
  {
    RecordRoundTrip(k);
  }

  lemma BlankNamed(digest: DigestFunction, alg: AlgId)
    requires alg in HASH_ALGS
    ensures MakeName(digest, WireValues.PublicArea(BlankPublic(alg))).Some?
  {
    BlankPublicMarshals(alg);
  }

  lemma CrowdedKeyMarshals()
    ensures RecordBytes(CrowdedKey()).Ok?
  {
    BlankPublicMarshals(ALG_SHA256);
    ContextMarshals();
    EmptyStepsMarshal(CrowdedKey().policy);
    KeyMarshals(CrowdedKey());
  }

  /** It is named, saved and written out like any other, but a restart loses it. */
  lemma CrowdedKeyLost(digest: DigestFunction)
    ensures MakeName(digest, CrowdedKey().public).Some? && RecordBytes(CrowdedKey()).Ok?
    ensures LoadRecord(RecordBytes(CrowdedKey()).value, CrowdedKey().handle).Err?
  {
    BlankNamed(digest, ALG_SHA256);
    CrowdedKeyMarshals();
    TooManyStepsLost(CrowdedKey());
  }
}
