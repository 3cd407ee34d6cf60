/** The wire types the other components exchange, as schemas. */
module WireTypes {
  import opened Bytes
  import opened WireSchema

  // ----- enumerations -----

  const ALG_RSA: nat := 0x0001
  const ALG_SHA1: nat := 0x0004
  const ALG_HMAC: nat := 0x0005
  const ALG_AES: nat := 0x0006
  const ALG_MGF1: nat := 0x0007
  const ALG_KEYEDHASH: nat := 0x0008
  const ALG_XOR: nat := 0x000A
  const ALG_SHA256: nat := 0x000B
  const ALG_SHA384: nat := 0x000C
  const ALG_SHA512: nat := 0x000D
  const ALG_NULL: nat := 0x0010
  const ALG_SM3_256: nat := 0x0012
  const ALG_SM4: nat := 0x0013
  const ALG_RSASSA: nat := 0x0014
  const ALG_RSAES: nat := 0x0015
  const ALG_RSAPSS: nat := 0x0016
  const ALG_OAEP: nat := 0x0017
  const ALG_ECDSA: nat := 0x0018
  const ALG_ECDH: nat := 0x0019
  const ALG_ECDAA: nat := 0x001A
  const ALG_SM2: nat := 0x001B
  const ALG_ECSCHNORR: nat := 0x001C
  const ALG_ECMQV: nat := 0x001D
  const ALG_KDF1_SP800_56A: nat := 0x0020
  const ALG_KDF2: nat := 0x0021
  const ALG_KDF1_SP800_108: nat := 0x0022
  const ALG_ECC: nat := 0x0023
  const ALG_SYMCIPHER: nat := 0x0025
  const ALG_CAMELLIA: nat := 0x0026
  const ALG_SHA3_256: nat := 0x0027
  const ALG_SHA3_384: nat := 0x0028
  const ALG_SHA3_512: nat := 0x0029
  const ALG_SHAKE128: nat := 0x002A
  const ALG_SHAKE256: nat := 0x002B
  const ALG_SHAKE256_192: nat := 0x002C
  const ALG_SHAKE256_256: nat := 0x002D
  const ALG_SHAKE256_512: nat := 0x002E

  predicate IsAlg(x: nat) {
    || x <= 0x01 || 0x03 <= x <= 0x08 || 0x0A <= x <= 0x0D || x == 0x10 || 0x12 <= x <= 0x1D
    || 0x20 <= x <= 0x23 || 0x25 <= x <= 0x2E || 0x3F <= x <= 0x44 || 0x50 <= x <= 0x54
    || 0x60 <= x <= 0x61 || 0x70 <= x <= 0x71 || 0x80 <= x <= 0x82 || 0x90 <= x <= 0x91
  }

  const ALG_IDS: set<nat> := set x: nat | x <= 0x91 && IsAlg(x)

  /** TpmCc: 0x11F to 0x1A1 with six gaps, and the vendor test command. */
  predicate IsCc(x: nat) {
    (0x11F <= x <= 0x1A1 && x !in {0x123, 0x15A, 0x15F, 0x166, 0x175, 0x197}) || x == 0x2000_0000
  }

  const CC_VALUES: set<nat> := set x: nat | x <= 0x2000_0000 && IsCc(x)

  const CC_POLICY_SECRET: nat := 0x151
  const CC_POLICY_AUTHORIZE: nat := 0x16A
  const CC_POLICY_AUTH_VALUE: nat := 0x16B
  const CC_POLICY_COMMAND_CODE: nat := 0x16C
  const CC_POLICY_COUNTER_TIMER: nat := 0x16D
  const CC_POLICY_CP_HASH: nat := 0x16E
  const CC_POLICY_NAME_HASH: nat := 0x170
  const CC_POLICY_OR: nat := 0x171
  const CC_POLICY_PCR: nat := 0x17F
  const CC_POLICY_RESTART: nat := 0x180
  const CC_POLICY_PHYSICAL_PRESENCE: nat := 0x187
  const CC_POLICY_GET_DIGEST: nat := 0x189
  const CC_POLICY_PASSWORD: nat := 0x18C
  const CC_POLICY_NV_WRITTEN: nat := 0x18F
  const CC_POLICY_TEMPLATE: nat := 0x190

  const RH_VALUES: set<nat> :=
    (set x: nat | 0x4000_0000 <= x <= 0x4000_000D) + (set x: nat | 0x4000_0140 <= x <= 0x4000_0143)
    + {0x4001_0000, 0x4002_0000, 0x4003_0000, 0x4004_0000}

  const CURVES: set<nat> := {0, 1, 2, 3, 4, 5, 0x10, 0x11, 0x20, 0x30, 0x31, 0x32, 0x40, 0x41}

  const EO_VALUES: set<nat> := set x: nat | x <= 0xB

  const ALG: Schema := Enum(2, ALG_IDS)
  const CC: Schema := Enum(4, CC_VALUES)

  type AlgId = a: nat | a <= 0x91 && IsAlg(a)

  const HASH_ALGS: set<nat> :=
    {ALG_SHA1, ALG_SHA256, ALG_SHA384, ALG_SHA512, ALG_SM3_256,
     ALG_SHA3_256, ALG_SHA3_384, ALG_SHA3_512, ALG_SHAKE128, ALG_SHAKE256}

  // ----- handle types -----

  const HT_PERMANENT: nat := 0x40
  const HT_TRANSIENT: nat := 0x80
  const HT_PERSISTENT: nat := 0x81

  const HANDLE_TYPES: set<nat> :=
    {0x00, 0x01, 0x02, 0x03, 0x11, 0x12, HT_PERMANENT, HT_TRANSIENT, HT_PERSISTENT, 0x90}

  /** The most significant byte of a handle. */
  function HandleType(h: u32): nat {
    h / 0x100_0000
  }

  // ----- buffers and lists -----

  const MAX_DIGEST_SIZE: nat := 64
  const DIGEST: Schema := Buffer(2, MAX_DIGEST_SIZE)
  const NAME: Schema := Buffer(2, MAX_DIGEST_SIZE + 2)
  const RSA_KEY: Schema := Buffer(2, 512)
  const MAX_BUFFER: Schema := Buffer(2, 1024)
  const PCR_SELECTION: Schema := Pair(ALG, Buffer(1, 4))
  const PCR_SELECTIONS: Schema := List(PCR_SELECTION, 8)
  const DIGESTS: Schema := List(DIGEST, 8)

  /** Tpm2bDigest and Tpm2bNonce. */
  type Digest = bs: seq<byte> | |bs| <= MAX_DIGEST_SIZE

  /** Tpm2bName. */
  type Name = bs: seq<byte> | |bs| <= MAX_DIGEST_SIZE + 2

  // ----- tagged structures -----

  // Each is a function of its parts, so that its well-formedness is proved once from theirs.

  /** A structure whose single tag field selects a union; variant 0 is the null variant. */
  function SelectedBy(select: map<nat, nat>, variants: seq<Schema>): Schema {
    Tagged(2, ALG_IDS, NoNull, Union(select, variants))
  }

  const KDF_SCHEME: Schema := SelectedBy(
    map[ALG_NULL := 0, ALG_MGF1 := 1, ALG_KDF1_SP800_56A := 2, ALG_KDF2 := 3, ALG_KDF1_SP800_108 := 4],
    [Empty, ALG, ALG, ALG, ALG])

  const ASYM_SCHEME: Schema := SelectedBy(
    map[ALG_NULL := 0, ALG_RSAES := 0,
        ALG_RSASSA := 1, ALG_RSAPSS := 1, ALG_ECDSA := 1, ALG_ECDAA := 1, ALG_SM2 := 1, ALG_ECSCHNORR := 1,
        ALG_OAEP := 1, ALG_ECDH := 1, ALG_ECMQV := 1],
    [Empty, ALG])

  function KeyedhashScheme(alg: Schema, kdf: Schema): Schema {
    SelectedBy(map[ALG_NULL := 0, ALG_HMAC := 1, ALG_XOR := 2], [Empty, alg, Pair(alg, kdf)])
  }

  const NO_SYM_DETAILS: Value := Both(Variant(0, Unit), Variant(0, Unit))

  /** TPMT_SYM_DEF: the one structure that stops after a null tag. */
  function SymDef(alg: Schema): Schema {
    var select: map<nat, nat> := map[ALG_NULL := 0, ALG_AES := 1, ALG_SM4 := 2, ALG_CAMELLIA := 3, ALG_XOR := 4];
    Tagged(2, ALG_IDS, NullTag(ALG_NULL, NO_SYM_DETAILS),
           Pair(Union(select, [Empty, UInt(2), UInt(2), UInt(2), alg]),
                Union(select, [Empty, alg, alg, alg, alg])))
  }

  const PUBLIC_SELECT: map<nat, nat> :=
    map[ALG_NULL := 0, ALG_KEYEDHASH := 1, ALG_SYMCIPHER := 2, ALG_RSA := 3, ALG_ECC := 4]

  function PublicParms(keyedhash: Schema, sym: Schema, asym: Schema, kdf: Schema): Schema {
    Union(PUBLIC_SELECT, [
      Empty,
      keyedhash,
      sym,
      Pair(sym, Pair(asym, Pair(UInt(2), UInt(4)))),
      Pair(sym, Pair(asym, Pair(Enum(2, CURVES), kdf)))])
  }

  const ECC_POINT: Schema := Pair(Buffer(2, 66), Buffer(2, 66))
  const PUBLIC_ID: Schema := Union(PUBLIC_SELECT, [Empty, DIGEST, Buffer(2, 32), RSA_KEY, ECC_POINT])

  /** TPMT_PUBLIC: the object type selects both the parameters and the unique field. */
  function PublicArea(alg: Schema, parms: Schema, unique: Schema): Schema {
    Tagged(2, ALG_IDS, NoNull, Pair(alg, Pair(UInt(4), Pair(DIGEST, Pair(parms, unique)))))
  }

  const SYM_DEF: Schema := SymDef(ALG)
  const KEYEDHASH_SCHEME: Schema := KeyedhashScheme(ALG, KDF_SCHEME)
  const PUBLIC_PARMS: Schema := PublicParms(KEYEDHASH_SCHEME, SYM_DEF, ASYM_SCHEME, KDF_SCHEME)
  const PUBLIC: Schema := PublicArea(ALG, PUBLIC_PARMS, PUBLIC_ID)
  const SIZED_PUBLIC: Schema := Sized(PUBLIC, 4096)

  /** TPMT_HA: the hash algorithm fixes the digest length, so no size is written. */
  const HASH_VALUE: Schema := SelectedBy(
    map[ALG_NULL := 0, ALG_SHA1 := 1, ALG_SHAKE256_192 := 2,
        ALG_SHA256 := 3, ALG_SM3_256 := 3, ALG_SHA3_256 := 3, ALG_SHAKE256_256 := 3,
        ALG_SHA384 := 4, ALG_SHA3_384 := 4,
        ALG_SHA512 := 5, ALG_SHA3_512 := 5, ALG_SHAKE256_512 := 5],
    [Empty, Raw(20), Raw(24), Raw(32), Raw(48), Raw(64)])

  function Signature(rsa: Schema, ecc: Schema, ha: Schema): Schema {
    SelectedBy(
      map[ALG_NULL := 0, ALG_RSASSA := 1, ALG_RSAPSS := 2, ALG_ECDSA := 3, ALG_ECDAA := 4, ALG_SM2 := 5,
          ALG_ECSCHNORR := 6, ALG_HMAC := 7],
      [Empty, rsa, rsa, ecc, ecc, ecc, ecc, ha])
  }

  const SIGNATURE: Schema := Signature(Pair(ALG, RSA_KEY), Pair(ALG, ECC_POINT), HASH_VALUE)

  // ----- structures -----

  const CONTEXT: Schema := Pair(UInt(8), Pair(UInt(4), Pair(Enum(4, RH_VALUES), Buffer(2, 4096))))
  const AUTH_COMMAND: Schema := Pair(UInt(4), Pair(DIGEST, Pair(UInt(1), DIGEST)))
  const AUTH_RESPONSE: Schema := Pair(DIGEST, Pair(UInt(1), DIGEST))
  const POLICY_SECRET_STEP: Schema := Pair(UInt(4), Pair(NAME, DIGEST))
  const POLICY_AUTHORIZE_STEP: Schema := Pair(SIZED_PUBLIC, Pair(DIGEST, SIGNATURE))
  const POLICY_PCR_STEP: Schema := Pair(DIGEST, PCR_SELECTIONS)
  const POLICY_COUNTER_TIMER_STEP: Schema :=
    Pair(MAX_BUFFER, Pair(UInt(2), Enum(2, EO_VALUES)))

  // ----- well-formedness -----

  lemma LeavesWellFormed()
    ensures WellFormed(ALG) && WellFormed(CC) && WellFormed(Enum(4, RH_VALUES)) && WellFormed(Enum(2, CURVES))
    ensures WellFormed(Enum(2, EO_VALUES))
    ensures forall cap: nat :: cap <= 4096 ==> WellFormed(Buffer(2, cap))
    ensures forall cap: nat :: cap <= 255 ==> WellFormed(Buffer(1, cap))
  {
    Pow256Values();
  }

  lemma SchemesWellFormed()
    ensures WellFormed(KDF_SCHEME) && MaxLen(KDF_SCHEME) <= 4
    ensures WellFormed(ASYM_SCHEME) && MaxLen(ASYM_SCHEME) <= 4
  {
    LeavesWellFormed();
  }

  lemma UniqueWellFormed()
    ensures WellFormed(PUBLIC_ID) && MaxLen(PUBLIC_ID) <= 514
  {
    LeavesWellFormed();
    assert WellFormed(ECC_POINT) && MaxLen(ECC_POINT) == 136;
  }

  lemma HashValueWellFormed()
    ensures WellFormed(HASH_VALUE)
  {
    LeavesWellFormed();
  }

  lemma KeyedhashWellFormed(alg: Schema, kdf: Schema)
    requires WellFormed(alg) && WellFormed(kdf) && MaxLen(alg) == 2 && MaxLen(kdf) <= 4
    ensures WellFormed(KeyedhashScheme(alg, kdf)) && MaxLen(KeyedhashScheme(alg, kdf)) <= 8
  {
    Pow256Values();
  }

  lemma SymDetailsCanonical(alg: Schema)
    ensures Typed(SymDef(alg).body, NO_SYM_DETAILS)
    ensures Canon(SymDef(alg).body, NO_SYM_DETAILS) == NO_SYM_DETAILS
  {
    var body := SymDef(alg).body;
    NullVariantCanonical(body.first.select, body.first.variants);
    NullVariantCanonical(body.second.select, body.second.variants);
  }

  lemma NullVariantCanonical(select: map<nat, nat>, variants: seq<Schema>)
    requires |variants| > 0 && variants[0] == Empty
    ensures Typed(Union(select, variants), Variant(0, Unit))
    ensures Canon(Union(select, variants), Variant(0, Unit)) == Variant(0, Unit)
  {
    assert Typed(Empty, Unit) && Canon(Empty, Unit) == Unit;
  }

  lemma SymDefWellFormed(alg: Schema)
    requires WellFormed(alg)
    ensures WellFormed(SymDef(alg))
  {
    Pow256Values();
    SymDetailsCanonical(alg);
    var body := SymDef(alg).body;
    UnionWellFormed(body.first.select, body.first.variants);
    UnionWellFormed(body.second.select, body.second.variants);
  }

  lemma SymDefMaxLen(alg: Schema)
    requires MaxLen(alg) == 2
    ensures MaxLen(SymDef(alg)) <= 6
  {
    var body := SymDef(alg).body;
    var bits, mode := body.first.variants, body.second.variants;
    assert bits == [Empty, UInt(2), UInt(2), UInt(2), alg] && mode == [Empty, alg, alg, alg, alg];
    FiveMaxLen(body.first.select, Empty, UInt(2), UInt(2), UInt(2), alg, 2);
    FiveMaxLen(body.second.select, Empty, alg, alg, alg, alg, 2);
    PairMaxLen(body.first, body.second);
  }

  lemma FiveMaxLen(select: map<nat, nat>, a: Schema, b: Schema, c: Schema, d: Schema, e: Schema, m: nat)
    requires MaxLen(a) <= m && MaxLen(b) <= m && MaxLen(c) <= m && MaxLen(d) <= m && MaxLen(e) <= m
    ensures MaxLen(Union(select, [a, b, c, d, e])) <= m
  {
    UnionMaxLen(select, [a, b, c, d, e], m);
  }

  lemma UnionWellFormed(select: map<nat, nat>, variants: seq<Schema>)
    requires forall t <- select :: select[t] < |variants|
    requires forall i :: 0 <= i < |variants| ==> WellFormed(variants[i])
    ensures WellFormed(Union(select, variants))
  {
  }

  lemma UnionMaxLen(select: map<nat, nat>, variants: seq<Schema>, m: nat)
    requires forall i :: 0 <= i < |variants| ==> MaxLen(variants[i]) <= m
    ensures MaxLen(Union(select, variants)) <= m
  {
  }

  lemma PairMaxLen(a: Schema, b: Schema)
    ensures MaxLen(Pair(a, b)) == MaxLen(a) + MaxLen(b)
  {
  }

  lemma ParmsWellFormed(keyedhash: Schema, sym: Schema, asym: Schema, kdf: Schema)
    requires WellFormed(keyedhash) && WellFormed(sym) && WellFormed(asym) && WellFormed(kdf)
    ensures WellFormed(PublicParms(keyedhash, sym, asym, kdf))
  {
    Pow256Values();
    assert WellFormed(Pair(asym, Pair(UInt(2), UInt(4))));
    assert WellFormed(Pair(asym, Pair(Enum(2, CURVES), kdf)));
  }

  lemma ParmsMaxLen(keyedhash: Schema, sym: Schema, asym: Schema, kdf: Schema)
    requires MaxLen(keyedhash) <= 8 && MaxLen(sym) <= 6 && MaxLen(asym) <= 4 && MaxLen(kdf) <= 4
    ensures MaxLen(PublicParms(keyedhash, sym, asym, kdf)) <= 16
  {
    var tail1, tail2 := Pair(UInt(2), UInt(4)), Pair(Enum(2, CURVES), kdf);
    var rsa, ecc := Pair(sym, Pair(asym, tail1)), Pair(sym, Pair(asym, tail2));
    PairMaxLen(UInt(2), UInt(4));
    PairMaxLen(Enum(2, CURVES), kdf);
    PairMaxLen(asym, tail1);
    PairMaxLen(asym, tail2);
    PairMaxLen(sym, rsa.second);
    PairMaxLen(sym, ecc.second);
    UnionMaxLen(PUBLIC_SELECT, [Empty, keyedhash, sym, rsa, ecc], 16);
  }

  lemma PublicAreaWellFormed(alg: Schema, parms: Schema, unique: Schema)
    requires WellFormed(alg) && WellFormed(parms) && WellFormed(unique)
    requires MaxLen(alg) == 2 && MaxLen(parms) <= 16 && MaxLen(unique) <= 514
    ensures WellFormed(PublicArea(alg, parms, unique)) && MaxLen(PublicArea(alg, parms, unique)) <= 700
  {
    Pow256Values();
    assert WellFormed(Pair(alg, Pair(UInt(4), Pair(DIGEST, Pair(parms, unique)))));
  }

  lemma SignatureWellFormed(rsa: Schema, ecc: Schema, ha: Schema)
    requires WellFormed(rsa) && WellFormed(ecc) && WellFormed(ha)
    ensures WellFormed(Signature(rsa, ecc, ha))
  {
    Pow256Values();
  }

  /** TPMT_PUBLIC is a well-formed schema that fits its TPM2B wrapper, so the codec theorems hold of it. */
  lemma PublicWellFormed()
    ensures WellFormed(PUBLIC) && MaxLen(PUBLIC) <= 700
  {
    LeavesWellFormed();
    SchemesWellFormed();
    KeyedhashWellFormed(ALG, KDF_SCHEME);
    SymDefWellFormed(ALG);
    SymDefMaxLen(ALG);
    UniqueWellFormed();
    ParmsWellFormed(KEYEDHASH_SCHEME, SYM_DEF, ASYM_SCHEME, KDF_SCHEME);
    ParmsMaxLen(KEYEDHASH_SCHEME, SYM_DEF, ASYM_SCHEME, KDF_SCHEME);
    PublicAreaWellFormed(ALG, PUBLIC_PARMS, PUBLIC_ID);
  }

  lemma StructuresWellFormed()
    ensures WellFormed(CONTEXT) && WellFormed(AUTH_COMMAND) && WellFormed(AUTH_RESPONSE)
  {
    Pow256Values();
    LeavesWellFormed();
  }

  lemma PcrSelectionsWellFormed()
    ensures WellFormed(PCR_SELECTIONS)
  {
    Pow256Values();
    LeavesWellFormed();
  }

  lemma PolicyStepsWellFormed()
    ensures WellFormed(POLICY_SECRET_STEP) && WellFormed(POLICY_PCR_STEP) && WellFormed(POLICY_COUNTER_TIMER_STEP)
    ensures WellFormed(DIGESTS)
  {
    Pow256Values();
    LeavesWellFormed();
    PcrSelectionsWellFormed();
  }

  lemma AuthorizeWellFormed()
    ensures WellFormed(POLICY_AUTHORIZE_STEP)
  {
    Pow256Values();
    LeavesWellFormed();
    PublicWellFormed();
    HashValueWellFormed();
    assert WellFormed(Pair(ALG, RSA_KEY)) && WellFormed(Pair(ALG, ECC_POINT));
    SignatureWellFormed(Pair(ALG, RSA_KEY), Pair(ALG, ECC_POINT), HASH_VALUE);
  }

  lemma SignatureMaxLen(rsa: Schema, ecc: Schema, ha: Schema)
    requires MaxLen(rsa) <= 516 && MaxLen(ecc) <= 516 && MaxLen(ha) <= 516
    ensures MaxLen(Signature(rsa, ecc, ha)) <= 518
  {
    var union := Signature(rsa, ecc, ha).body;
    UnionMaxLen(union.select, union.variants, 516);
  }

  lemma HashValueMaxLen()
    ensures MaxLen(HASH_VALUE) <= 66
  {
    var union := HASH_VALUE.body;
    UnionMaxLen(union.select, union.variants, 64);
  }

  /** The structured policy steps fit the buffer they are serialized into. */
  lemma PolicyStepsFit()
    ensures MaxLen(POLICY_AUTHORIZE_STEP) <= 4096 && MaxLen(POLICY_SECRET_STEP) <= 4096
  {
    PublicWellFormed();
    HashValueMaxLen();
    SignatureMaxLen(Pair(ALG, RSA_KEY), Pair(ALG, ECC_POINT), HASH_VALUE);
    PairMaxLen(DIGEST, SIGNATURE);
    PairMaxLen(SIZED_PUBLIC, Pair(DIGEST, SIGNATURE));
    assert MaxLen(SIZED_PUBLIC) == 2 + MaxLen(PUBLIC);
  }

  /** The size most unions, and the public area, declare. */
  const MAX_COMMAND_SIZE: nat := 4096

  /**
    No type can hold a value longer than the size it declares (`SIZE`). A structure
    declares the sum of its fields, a tagged one its tag and the size of its union, a
    sized one two bytes more than its content.
   */
  lemma DeclaredSizes()
    ensures MaxLen(KDF_SCHEME) <= 2 + MAX_COMMAND_SIZE && MaxLen(ASYM_SCHEME) <= 2 + MAX_COMMAND_SIZE
    ensures MaxLen(KEYEDHASH_SCHEME) <= 2 + MAX_COMMAND_SIZE && MaxLen(SYM_DEF) <= 2 + 2 + 2
    ensures MaxLen(PUBLIC_PARMS) <= MAX_COMMAND_SIZE && MaxLen(PUBLIC_ID) <= MAX_COMMAND_SIZE
    ensures MaxLen(PUBLIC) <= MAX_COMMAND_SIZE && MaxLen(SIZED_PUBLIC) <= 2 + MAX_COMMAND_SIZE
    ensures MaxLen(HASH_VALUE) <= 2 + MAX_DIGEST_SIZE && MaxLen(SIGNATURE) <= 2 + MAX_COMMAND_SIZE
    ensures MaxLen(CONTEXT) == 8 + 4 + 4 + (2 + MAX_COMMAND_SIZE)
    ensures MaxLen(AUTH_COMMAND) == 4 + (2 + MAX_DIGEST_SIZE) + 1 + (2 + MAX_DIGEST_SIZE)
    ensures MaxLen(AUTH_RESPONSE) == (2 + MAX_DIGEST_SIZE) + 1 + (2 + MAX_DIGEST_SIZE)
    ensures MaxLen(PCR_SELECTIONS) == 4 + 8 * (2 + (1 + 4))
  {
    SchemeSizes();
    PublicSizes();
    SignatureSize();
    StructureSizes();
  }

  lemma SchemeSizes()
    ensures MaxLen(KDF_SCHEME) <= 4 && MaxLen(ASYM_SCHEME) <= 4
    ensures MaxLen(KEYEDHASH_SCHEME) <= 8 && MaxLen(SYM_DEF) <= 6
  {
    SchemesWellFormed();
    LeavesWellFormed();
    KeyedhashWellFormed(ALG, KDF_SCHEME);
    SymDefMaxLen(ALG);
  }

  lemma PublicSizes()
    ensures MaxLen(PUBLIC_PARMS) <= 16 && MaxLen(PUBLIC_ID) <= 514
    ensures MaxLen(PUBLIC) <= 700 && MaxLen(SIZED_PUBLIC) <= 702
  {
    SchemeSizes();
    ParmsMaxLen(KEYEDHASH_SCHEME, SYM_DEF, ASYM_SCHEME, KDF_SCHEME);
    UniqueWellFormed();
    PublicWellFormed();
    assert MaxLen(SIZED_PUBLIC) == 2 + MaxLen(PUBLIC);
  }

  lemma SignatureSize()
    ensures MaxLen(HASH_VALUE) <= 66 && MaxLen(SIGNATURE) <= 518
  {
    HashValueMaxLen();
    SignatureMaxLen(Pair(ALG, RSA_KEY), Pair(ALG, ECC_POINT), HASH_VALUE);
  }

  lemma StructureSizes()
    ensures MaxLen(CONTEXT) == 4114 && MaxLen(AUTH_COMMAND) == 137 && MaxLen(AUTH_RESPONSE) == 133
    ensures MaxLen(PCR_SELECTIONS) == 60
  {
    PairMaxLen(Enum(4, RH_VALUES), Buffer(2, 4096));
    PairMaxLen(UInt(4), Pair(Enum(4, RH_VALUES), Buffer(2, 4096)));
    PairMaxLen(UInt(8), Pair(UInt(4), Pair(Enum(4, RH_VALUES), Buffer(2, 4096))));
    PairMaxLen(UInt(1), DIGEST);
    PairMaxLen(DIGEST, Pair(UInt(1), DIGEST));
    PairMaxLen(UInt(4), Pair(DIGEST, Pair(UInt(1), DIGEST)));
    PairMaxLen(ALG, Buffer(1, 4));
  }
}
