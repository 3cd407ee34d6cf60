/** Typed values of the wire structures the cache stores. */
module WireValues {
  import opened Wrappers
  import opened Bytes
  import opened WireSchema
  import opened WireTypes
  import opened WireCodec

  const NULL_VARIANT: Value := Variant(0, Unit)

  lemma NullVariantTyped(select: map<nat, nat>, variants: seq<Schema>)
    requires variants != [] && variants[0] == Empty
    ensures Typed(Union(select, variants), NULL_VARIANT)
  {
    assert Typed(Empty, Unit);
  }

  lemma PairTyped(a: Schema, b: Schema, x: Value, y: Value)
    requires Typed(a, x) && Typed(b, y)
    ensures Typed(Pair(a, b), Both(x, y))
  {
  }

  /** The fields of a public area after its type: no attributes and an empty policy. */
  function Fields(alg: AlgId, parms: Value, unique: Value): Value {
    Both(Num(alg), Both(Num(0), Both(Octets([]), Both(parms, unique))))
  }

  lemma FieldsTyped(algs: Schema, parms: Schema, unique: Schema, tag: nat, alg: AlgId, p: Value, u: Value)
    requires tag in ALG_IDS && Typed(algs, Num(alg)) && Typed(parms, p) && Typed(unique, u)
    ensures Typed(WireTypes.PublicArea(algs, parms, unique), WithTag(tag, Fields(alg, p, u)))
  {
    assert Typed(UInt(4), Num(0)) && Typed(DIGEST, Octets([]));
    PairTyped(parms, unique, p, u);
    PairTyped(DIGEST, Pair(parms, unique), Octets([]), Both(p, u));
    assert Typed(Pair(algs, Pair(UInt(4), Pair(DIGEST, Pair(parms, unique)))), Fields(alg, p, u));
  }

  lemma FieldsMarshal(algs: Schema, parms: Schema, unique: Schema, tag: nat, alg: AlgId, p: Value, u: Value)
    requires tag in ALG_IDS && Typed(algs, Num(alg)) && Typed(parms, p) && Typed(unique, u)
    requires Encode(algs, tag, Num(alg)).Ok? && Encode(parms, tag, p).Ok? && Encode(unique, tag, u).Ok?
    ensures Typed(WireTypes.PublicArea(algs, parms, unique), WithTag(tag, Fields(alg, p, u)))
    ensures Encode(WireTypes.PublicArea(algs, parms, unique), 0, WithTag(tag, Fields(alg, p, u))).Ok?
  {
    var tail, both := Pair(DIGEST, Pair(parms, unique)), Both(p, u);
    var fields := Pair(algs, Pair(UInt(4), tail));
    assert Typed(DIGEST, Octets([])) && Encode(DIGEST, tag, Octets([])).Ok?;
    assert Typed(UInt(4), Num(0)) && Encode(UInt(4), tag, Num(0)).Ok?;
    PairMarshals(parms, unique, tag, p, u);
    PairMarshals(DIGEST, Pair(parms, unique), tag, Octets([]), both);
    PairMarshals(UInt(4), tail, tag, Num(0), Both(Octets([]), both));
    PairMarshals(algs, Pair(UInt(4), tail), tag, Num(alg), Both(Num(0), Both(Octets([]), both)));
    EncodedMatches(fields, tag, Fields(alg, p, u));
    TaggedMarshals(fields, tag, Fields(alg, p, u));
  }

  lemma TaggedMarshals(body: Schema, tag: nat, v: Value)
    requires tag in ALG_IDS && Typed(body, v) && Encode(body, tag, v).Ok? && MatchesTag(body, tag, v)
    ensures Encode(Tagged(2, ALG_IDS, NoNull, body), 0, WithTag(tag, v)).Ok?
  {
  }

  /** A public area of the null object type, named with `alg`. */
  function BlankPublic(alg: AlgId): (v: Value)
    ensures Typed(PUBLIC, v)
  {
    NullVariantTyped(PUBLIC_PARMS.select, PUBLIC_PARMS.variants);
    NullVariantTyped(PUBLIC_ID.select, PUBLIC_ID.variants);
    assert Typed(ALG, Num(alg));
    FieldsTyped(ALG, PUBLIC_PARMS, PUBLIC_ID, ALG_NULL, alg, NULL_VARIANT, NULL_VARIANT);
    WithTag(ALG_NULL, Fields(alg, NULL_VARIANT, NULL_VARIANT))
  }

  /** It marshals, under the tag that selects the null variants. */
  lemma BlankPublicMarshals(alg: AlgId)
    ensures Encode(PUBLIC, 0, BlankPublic(alg)).Ok?
  {
    NullVariantTyped(PUBLIC_PARMS.select, PUBLIC_PARMS.variants);
    NullVariantTyped(PUBLIC_ID.select, PUBLIC_ID.variants);
    assert Typed(ALG, Num(alg)) && Encode(ALG, ALG_NULL, Num(alg)).Ok?;
    NullVariantMarshals(PUBLIC_SELECT, PUBLIC_PARMS.variants);
    NullVariantMarshals(PUBLIC_SELECT, PUBLIC_ID.variants);
    FieldsMarshal(ALG, PUBLIC_PARMS, PUBLIC_ID, ALG_NULL, alg, NULL_VARIANT, NULL_VARIANT);
  }

  lemma NullVariantMarshals(select: map<nat, nat>, variants: seq<Schema>)
    requires variants != [] && variants[0] == Empty && Selects(select, ALG_NULL, 0)
    ensures Typed(Union(select, variants), NULL_VARIANT) && Encode(Union(select, variants), ALG_NULL, NULL_VARIANT).Ok?
  {
    assert Encode(Empty, ALG_NULL, Unit) == Ok([]);
  }

  const NO_SCHEME: Value := WithTag(ALG_NULL, NULL_VARIANT)

  /** A keyed-hash object without a scheme and with an empty identifier, named with `alg`. */
  function KeyedhashPublic(alg: AlgId): (v: Value)
    ensures Typed(PUBLIC, v)
  {
    KeyedhashVariants();
    assert Typed(ALG, Num(alg));
    FieldsTyped(ALG, PUBLIC_PARMS, PUBLIC_ID, ALG_KEYEDHASH, alg, Variant(1, NO_SCHEME), Variant(1, Octets([])));
    WithTag(ALG_KEYEDHASH, Fields(alg, Variant(1, NO_SCHEME), Variant(1, Octets([]))))
  }

  lemma KeyedhashVariants()
    ensures Typed(PUBLIC_PARMS, Variant(1, NO_SCHEME))
    ensures Encode(PUBLIC_PARMS, ALG_KEYEDHASH, Variant(1, NO_SCHEME)).Ok?
    ensures Typed(PUBLIC_ID, Variant(1, Octets([])))
    ensures Encode(PUBLIC_ID, ALG_KEYEDHASH, Variant(1, Octets([]))).Ok?
  {
    NoSchemeMarshals(ALG, KDF_SCHEME);
    SecondVariant(PUBLIC_PARMS.variants, KEYEDHASH_SCHEME, NO_SCHEME);
    assert Typed(DIGEST, Octets([])) && Encode(DIGEST, ALG_KEYEDHASH, Octets([])).Ok?;
    SecondVariant(PUBLIC_ID.variants, DIGEST, Octets([]));
  }

  lemma NoSchemeMarshals(alg: Schema, kdf: Schema)
    ensures Typed(KeyedhashScheme(alg, kdf), NO_SCHEME)
    ensures Encode(KeyedhashScheme(alg, kdf), ALG_KEYEDHASH, NO_SCHEME).Ok?
  {
    var body := KeyedhashScheme(alg, kdf).body;
    NullVariantTyped(body.select, body.variants);
    NullVariantMarshals(body.select, body.variants);
  }

  lemma SecondVariant(variants: seq<Schema>, schema: Schema, v: Value)
    requires |variants| > 1 && variants[1] == schema && Typed(schema, v) && Encode(schema, ALG_KEYEDHASH, v).Ok?
    ensures Typed(Union(PUBLIC_SELECT, variants), Variant(1, v))
    ensures Encode(Union(PUBLIC_SELECT, variants), ALG_KEYEDHASH, Variant(1, v)).Ok?
  {
    assert Selects(PUBLIC_SELECT, ALG_KEYEDHASH, 1);
  }

  lemma KeyedhashPublicMarshals(alg: AlgId)
    ensures Encode(PUBLIC, 0, KeyedhashPublic(alg)).Ok?
  {
    KeyedhashVariants();
    assert Typed(ALG, Num(alg)) && Encode(ALG, ALG_KEYEDHASH, Num(alg)).Ok?;
    FieldsMarshal(ALG, PUBLIC_PARMS, PUBLIC_ID, ALG_KEYEDHASH, alg, Variant(1, NO_SCHEME), Variant(1, Octets([])));
  }

  function NullAuthorize(): (v: Value)
    ensures Typed(POLICY_AUTHORIZE_STEP, v)
  {
    NullVariantTyped(SIGNATURE.body.select, SIGNATURE.body.variants);
    var signature := WithTag(ALG_NULL, NULL_VARIANT);
    assert Typed(SIGNATURE, signature) && Typed(DIGEST, Octets([]));
    assert Typed(SIZED_PUBLIC, BlankPublic(ALG_NULL));
    PairTyped(DIGEST, SIGNATURE, Octets([]), signature);
    PairTyped(SIZED_PUBLIC, Pair(DIGEST, SIGNATURE), BlankPublic(ALG_NULL), Both(Octets([]), signature));
    Both(BlankPublic(ALG_NULL), Both(Octets([]), signature))
  }

  function NullSecret(): (v: Value)
    ensures Typed(POLICY_SECRET_STEP, v)
  {
    Pow256Values();
    assert Typed(UInt(4), Num(0)) && Typed(NAME, Octets([])) && Typed(DIGEST, Octets([]));
    PairTyped(NAME, DIGEST, Octets([]), Octets([]));
    Both(Num(0), Both(Octets([]), Octets([])))
  }

  /** The context a persistent key is stored with: it lives in the TPM. */
  function PersistentContext(): (v: Value)
    ensures Typed(CONTEXT, v)
  {
    Pow256Values();
    var sequence, handle, hierarchy, blob := Num(0), Num(0), Num(0x4000_0001), Octets([]);
    assert Typed(UInt(8), sequence) && Typed(UInt(4), handle);
    assert Typed(Enum(4, RH_VALUES), hierarchy) && Typed(Buffer(2, 4096), blob);
    PairTyped(Enum(4, RH_VALUES), Buffer(2, 4096), hierarchy, blob);
    PairTyped(UInt(4), Pair(Enum(4, RH_VALUES), Buffer(2, 4096)), handle, Both(hierarchy, blob));
    Both(sequence, Both(handle, Both(hierarchy, blob)))
  }

  lemma ContextMarshals()
    ensures Encode(CONTEXT, 0, PersistentContext()).Ok?
  {
    Pow256Values();
    var sequence, handle, hierarchy, blob := Num(0), Num(0), Num(0x4000_0001), Octets([]);
    var s1, s2 := Pair(Enum(4, RH_VALUES), Buffer(2, 4096)), Pair(UInt(4), Pair(Enum(4, RH_VALUES), Buffer(2, 4096)));
    assert Typed(UInt(8), sequence) && Typed(UInt(4), handle);
    assert Typed(Enum(4, RH_VALUES), hierarchy) && Typed(Buffer(2, 4096), blob);
    PairMarshals(Enum(4, RH_VALUES), Buffer(2, 4096), 0, hierarchy, blob);
    PairMarshals(UInt(4), s1, 0, handle, Both(hierarchy, blob));
    PairMarshals(UInt(8), s2, 0, sequence, Both(handle, Both(hierarchy, blob)));
  }

  lemma PairMarshals(a: Schema, b: Schema, sel: nat, x: Value, y: Value)
    requires Typed(a, x) && Typed(b, y) && Encode(a, sel, x).Ok? && Encode(b, sel, y).Ok?
    ensures Typed(Pair(a, b), Both(x, y)) && Encode(Pair(a, b), sel, Both(x, y)).Ok?
  {
  }

  type PublicValue = v: Value | Typed(PUBLIC, v) witness BlankPublic(ALG_NULL)
  type ContextValue = v: Value | Typed(CONTEXT, v) witness PersistentContext()

  /** TpmtPublic and TpmsContext. */
  datatype PublicArea = PublicArea(value: PublicValue)
  datatype SavedContext = SavedContext(value: ContextValue)

  type AuthorizeParms = v: Value | Typed(POLICY_AUTHORIZE_STEP, v) witness NullAuthorize()
  type SecretParms = v: Value | Typed(POLICY_SECRET_STEP, v) witness NullSecret()
}
