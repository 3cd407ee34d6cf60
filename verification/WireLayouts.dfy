/**
  The bytes of the wire structures, field by field, with the numbers of Part 2 of the
  TPM 2.0 Library Specification written out. The codec theorems hold for any schema; what
  is said here holds for the schemas of these structures alone.
 */
module WireLayouts {
  import opened Wrappers
  import opened Bytes
  import opened WireSchema
  import opened WireTypes
  import opened WireCodec

  /** The value is one of the type, and is written as these bytes when `sel` is the enclosing tag. */
  ghost predicate Writes(s: Schema, sel: nat, v: Value, bytes: seq<byte>) {
    Typed(s, v) && Encode(s, sel, v) == Ok(bytes)
  }

  // ----- the parts a structure is put together from -----

  lemma NumWrites(width: nat, sel: nat, n: nat)
    requires n < Pow256(width)
    ensures Writes(UInt(width), sel, Num(n), BigEndian(width, n))
  {
  }

  lemma EnumWrites(width: nat, values: set<nat>, sel: nat, n: nat)
    requires n in values
    ensures Writes(Enum(width, values), sel, Num(n), BigEndian(width, n))
  {
  }

  lemma AlgWrites(sel: nat, alg: AlgId)
    ensures Writes(ALG, sel, Num(alg), BigEndian(2, alg))
  {
    EnumWrites(2, ALG_IDS, sel, alg);
  }

  /** A buffer is its size and its bytes. */
  function SizedBytes(bytes: seq<byte>): seq<byte> {
    BigEndian(2, |bytes|) + bytes
  }

  lemma BufferWrites(capacity: nat, sel: nat, bytes: seq<byte>)
    requires |bytes| <= capacity
    ensures Writes(Buffer(2, capacity), sel, Octets(bytes), SizedBytes(bytes))
  {
  }

  lemma PairWrites(a: Schema, b: Schema, sel: nat, x: Value, y: Value, p: seq<byte>, q: seq<byte>)
    requires Writes(a, sel, x, p) && Writes(b, sel, y, q)
    ensures Writes(Pair(a, b), sel, Both(x, y), p + q)
  {
  }

  lemma UnionWrites(select: map<nat, nat>, variants: seq<Schema>, sel: nat, id: nat, v: Value, p: seq<byte>)
    requires id < |variants| && Selects(select, sel, id) && Writes(variants[id], sel, v, p)
    ensures Writes(Union(select, variants), sel, Variant(id, v), p)
  {
  }

  lemma TaggedWrites(nulls: NullRule, body: Schema, sel: nat, tag: nat, v: Value, p: seq<byte>)
    requires tag in ALG_IDS && !(nulls.NullTag? && tag == nulls.tag) && Writes(body, tag, v, p)
    ensures Writes(Tagged(2, ALG_IDS, nulls, body), sel, WithTag(tag, v), BigEndian(2, tag) + p)
  {
    EncodedMatches(body, tag, v);
  }

  lemma SelectedWrites(
      select: map<nat, nat>, variants: seq<Schema>, sel: nat, tag: nat, id: nat, v: Value, p: seq<byte>)
    requires tag in ALG_IDS && id < |variants| && Selects(select, tag, id) && Writes(variants[id], tag, v, p)
    ensures Writes(SelectedBy(select, variants), sel, WithTag(tag, Variant(id, v)), BigEndian(2, tag) + p)
  {
    UnionWrites(select, variants, tag, id, v, p);
    TaggedWrites(NoNull, Union(select, variants), sel, tag, Variant(id, v), p);
  }

  // ----- schemes -----

  const NO_DETAILS: Value := Variant(0, Unit)

  /** A symmetric definition: nothing after a null algorithm; a key size and a mode after a cipher. */
  lemma SymDefBytes(sel: nat, cipher: nat, bits: nat, mode: AlgId)
    requires cipher in {0x0006, 0x0013, 0x0026} && bits < U16_COUNT
    ensures Writes(SYM_DEF, sel, WithTag(0x0010, NO_SYM_DETAILS), BigEndian(2, 0x0010))
    ensures var id := if cipher == 0x0006 then 1 else if cipher == 0x0013 then 2 else 3;
            Writes(SYM_DEF, sel, WithTag(cipher, Both(Variant(id, Num(bits)), Variant(id, Num(mode)))),
                   BigEndian(2, cipher) + (BigEndian(2, bits) + BigEndian(2, mode)))
  {
    Pow256Values();
    SymDetailsCanonical(ALG);
    var id := if cipher == 0x0006 then 1 else if cipher == 0x0013 then 2 else 3;
    var body := SYM_DEF.body;
    NumWrites(2, cipher, bits);
    AlgWrites(cipher, mode);
    UnionWrites(body.first.select, body.first.variants, cipher, id, Num(bits), BigEndian(2, bits));
    UnionWrites(body.second.select, body.second.variants, cipher, id, Num(mode), BigEndian(2, mode));
    PairWrites(body.first, body.second, cipher, Variant(id, Num(bits)), Variant(id, Num(mode)), BigEndian(2, bits),
               BigEndian(2, mode));
    TaggedWrites(SYM_DEF.nulls, body, sel, cipher, Both(Variant(id, Num(bits)), Variant(id, Num(mode))),
                 BigEndian(2, bits) + BigEndian(2, mode));
  }

  /** The XOR definition has a hash where the ciphers have a key size. */
  lemma SymDefXorBytes(sel: nat, hash: AlgId, mode: AlgId)
    ensures Writes(SYM_DEF, sel, WithTag(0x000A, Both(Variant(4, Num(hash)), Variant(4, Num(mode)))),
                   BigEndian(2, 0x000A) + (BigEndian(2, hash) + BigEndian(2, mode)))
  {
    var body, tag := SYM_DEF.body, 0x000A;
    AlgWrites(tag, hash);
    AlgWrites(tag, mode);
    UnionWrites(body.first.select, body.first.variants, tag, 4, Num(hash), BigEndian(2, hash));
    UnionWrites(body.second.select, body.second.variants, tag, 4, Num(mode), BigEndian(2, mode));
    PairWrites(body.first, body.second, tag, Variant(4, Num(hash)), Variant(4, Num(mode)), BigEndian(2, hash),
               BigEndian(2, mode));
    TaggedWrites(SYM_DEF.nulls, body, sel, tag, Both(Variant(4, Num(hash)), Variant(4, Num(mode))),
                 BigEndian(2, hash) + BigEndian(2, mode));
  }

  /** An asymmetric scheme: null and RSAES have no details; the others name a hash. */
  lemma AsymSchemeBytes(sel: nat, tag: nat, hash: AlgId)
    ensures tag in {0x0010, 0x0015} ==> Writes(ASYM_SCHEME, sel, WithTag(tag, NO_DETAILS), BigEndian(2, tag))
    ensures tag in {0x0014, 0x0016, 0x0017, 0x0018, 0x0019, 0x001A, 0x001B, 0x001C, 0x001D} ==>
              Writes(ASYM_SCHEME, sel, WithTag(tag, Variant(1, Num(hash))), BigEndian(2, tag) + BigEndian(2, hash))
  {
    var body := ASYM_SCHEME.body;
    AlgWrites(tag, hash);
    if tag in {0x0010, 0x0015} {
      SelectedWrites(body.select, body.variants, sel, tag, 0, Unit, []);
      assert BigEndian(2, tag) + [] == BigEndian(2, tag);
    } else if tag in {0x0014, 0x0016, 0x0017, 0x0018, 0x0019, 0x001A, 0x001B, 0x001C, 0x001D} {
      SelectedWrites(body.select, body.variants, sel, tag, 1, Num(hash), BigEndian(2, hash));
    }
  }

  /** A key derivation scheme: null, or a hash. */
  lemma KdfSchemeBytes(sel: nat, tag: nat, hash: AlgId)
    ensures Writes(KDF_SCHEME, sel, WithTag(0x0010, NO_DETAILS), BigEndian(2, 0x0010))
    ensures tag in {0x0007, 0x0020, 0x0021, 0x0022} ==>
              var id := if tag == 0x0007 then 1 else if tag == 0x0020 then 2 else if tag == 0x0021 then 3 else 4;
              Writes(KDF_SCHEME, sel, WithTag(tag, Variant(id, Num(hash))), BigEndian(2, tag) + BigEndian(2, hash))
  {
    var body := KDF_SCHEME.body;
    var id := if tag == 0x0007 then 1 else if tag == 0x0020 then 2 else if tag == 0x0021 then 3 else 4;
    SelectedWrites(body.select, body.variants, sel, 0x0010, 0, Unit, []);
    assert BigEndian(2, 0x0010) + [] == BigEndian(2, 0x0010);
    if tag in {0x0007, 0x0020, 0x0021, 0x0022} {
      AlgWrites(tag, hash);
      SelectedWrites(body.select, body.variants, sel, tag, id, Num(hash), BigEndian(2, hash));
    }
  }

  /** A keyed-hash scheme: null, HMAC with a hash, or XOR with a hash and a key derivation scheme. */
  lemma KeyedhashSchemeBytes(sel: nat, hash: AlgId, kdf: Value, kdfBytes: seq<byte>)
    requires Writes(KDF_SCHEME, 0x000A, kdf, kdfBytes)
    ensures Writes(KEYEDHASH_SCHEME, sel, WithTag(0x0010, NO_DETAILS), BigEndian(2, 0x0010))
    ensures Writes(KEYEDHASH_SCHEME, sel, WithTag(0x0005, Variant(1, Num(hash))),
                   BigEndian(2, 0x0005) + BigEndian(2, hash))
    ensures Writes(KEYEDHASH_SCHEME, sel, WithTag(0x000A, Variant(2, Both(Num(hash), kdf))),
                   BigEndian(2, 0x000A) + (BigEndian(2, hash) + kdfBytes))
  {
    var body := KEYEDHASH_SCHEME.body;
    SelectedWrites(body.select, body.variants, sel, 0x0010, 0, Unit, []);
    assert BigEndian(2, 0x0010) + [] == BigEndian(2, 0x0010);
    AlgWrites(0x0005, hash);
    SelectedWrites(body.select, body.variants, sel, 0x0005, 1, Num(hash), BigEndian(2, hash));
    AlgWrites(0x000A, hash);
    PairWrites(ALG, KDF_SCHEME, 0x000A, Num(hash), kdf, BigEndian(2, hash), kdfBytes);
    SelectedWrites(body.select, body.variants, sel, 0x000A, 2, Both(Num(hash), kdf), BigEndian(2, hash) + kdfBytes);
  }

  // ----- public areas -----

  /** The fields every public area starts with, after its type. */
  datatype Head = Head(nameAlg: AlgId, attributes: u32, policy: Digest)

  function HeadBytes(h: Head): seq<byte> {
    BigEndian(2, h.nameAlg) + BigEndian(4, h.attributes) + SizedBytes(h.policy)
  }

  function AreaOf(objectType: nat, h: Head, parms: Value, unique: Value): Value {
    WithTag(objectType, Both(Num(h.nameAlg), Both(Num(h.attributes), Both(Octets(h.policy), Both(parms, unique)))))
  }

  /** A public area: its type, name algorithm, attributes, policy, parameters and identifier. */
  lemma AreaBytes(parmsType: Schema, uniqueType: Schema, tag: nat, h: Head, parms: Value, unique: Value, p: seq<byte>,
      u: seq<byte>)
    requires tag in ALG_IDS && Writes(parmsType, tag, parms, p) && Writes(uniqueType, tag, unique, u)
    ensures Writes(PublicArea(ALG, parmsType, uniqueType), 0, AreaOf(tag, h, parms, unique),
                   BigEndian(2, tag) + HeadBytes(h) + p + u)
  {
    Pow256Values();
    var last, policy := Both(parms, unique), SizedBytes(h.policy);
    var three := Both(Octets(h.policy), last);
    AlgWrites(tag, h.nameAlg);
    NumWrites(4, tag, h.attributes);
    BufferWrites(MAX_DIGEST_SIZE, tag, h.policy);
    var lastType := Pair(parmsType, uniqueType);
    PairWrites(parmsType, uniqueType, tag, parms, unique, p, u);
    PairWrites(DIGEST, lastType, tag, Octets(h.policy), last, policy, p + u);
    PairWrites(UInt(4), Pair(DIGEST, lastType), tag, Num(h.attributes), three, BigEndian(4, h.attributes),
               policy + (p + u));
    PairWrites(ALG, Pair(UInt(4), Pair(DIGEST, lastType)), tag, Num(h.nameAlg), Both(Num(h.attributes), three),
               BigEndian(2, h.nameAlg), BigEndian(4, h.attributes) + (policy + (p + u)));
    TaggedWrites(NoNull, Pair(ALG, Pair(UInt(4), Pair(DIGEST, lastType))), 0, tag,
                 Both(Num(h.nameAlg), Both(Num(h.attributes), three)),
                 BigEndian(2, h.nameAlg) + (BigEndian(4, h.attributes) + (policy + (p + u))));
    Flat(BigEndian(2, tag), BigEndian(2, h.nameAlg), BigEndian(4, h.attributes), policy, p, u);
  }

  lemma Flat(a: seq<byte>, b: seq<byte>, c: seq<byte>, d: seq<byte>, e: seq<byte>, f: seq<byte>)
    ensures a + (b + (c + (d + (e + f)))) == a + (b + c + d) + e + f
  {
  }

  /** One object type: what its parameters and identifier are written as. */
  lemma ObjectBytes(tag: nat, id: nat, h: Head, parms: Value, unique: Value, p: seq<byte>, u: seq<byte>)
    requires (tag, id) in {(0x0010, 0), (0x0008, 1), (0x0025, 2), (0x0001, 3), (0x0023, 4)}
    requires Writes(PUBLIC_PARMS.variants[id], tag, parms, p) && Writes(PUBLIC_ID.variants[id], tag, unique, u)
    ensures Writes(PUBLIC, 0, AreaOf(tag, h, Variant(id, parms), Variant(id, unique)),
                   BigEndian(2, tag) + HeadBytes(h) + p + u)
  {
    UnionWrites(PUBLIC_SELECT, PUBLIC_PARMS.variants, tag, id, parms, p);
    UnionWrites(PUBLIC_SELECT, PUBLIC_ID.variants, tag, id, unique, u);
    AreaBytes(PUBLIC_PARMS, PUBLIC_ID, tag, h, Variant(id, parms), Variant(id, unique), p, u);
  }

  /** A null object has neither parameters nor identifier. */
  lemma NullPublicBytes(h: Head)
    ensures Writes(PUBLIC, 0, AreaOf(0x0010, h, NO_DETAILS, NO_DETAILS), BigEndian(2, 0x0010) + HeadBytes(h))
  {
    ObjectBytes(0x0010, 0, h, Unit, Unit, [], []);
    assert BigEndian(2, 0x0010) + HeadBytes(h) + [] + [] == BigEndian(2, 0x0010) + HeadBytes(h);
  }

  /** A keyed-hash object: a scheme, and a digest. */
  lemma KeyedhashPublicBytes(h: Head, scheme: Value, schemeBytes: seq<byte>, unique: seq<byte>)
    requires Writes(KEYEDHASH_SCHEME, 0x0008, scheme, schemeBytes) && |unique| <= 64
    ensures Writes(PUBLIC, 0, AreaOf(0x0008, h, Variant(1, scheme), Variant(1, Octets(unique))),
                   BigEndian(2, 0x0008) + HeadBytes(h) + schemeBytes + SizedBytes(unique))
  {
    BufferWrites(64, 0x0008, unique);
    ObjectBytes(0x0008, 1, h, scheme, Octets(unique), schemeBytes, SizedBytes(unique));
  }

  /** A symmetric cipher object: a symmetric definition, and a digest of at most 32 bytes. */
  lemma SymcipherPublicBytes(h: Head, sym: Value, symBytes: seq<byte>, unique: seq<byte>)
    requires Writes(SYM_DEF, 0x0025, sym, symBytes) && |unique| <= 32
    ensures Writes(PUBLIC, 0, AreaOf(0x0025, h, Variant(2, sym), Variant(2, Octets(unique))),
                   BigEndian(2, 0x0025) + HeadBytes(h) + symBytes + SizedBytes(unique))
  {
    BufferWrites(32, 0x0025, unique);
    ObjectBytes(0x0025, 2, h, sym, Octets(unique), symBytes, SizedBytes(unique));
  }

  /** An RSA key: symmetric definition, scheme, key size, exponent; and the modulus. */
  lemma RsaPublicBytes(h: Head, sym: Value, symBytes: seq<byte>, scheme: Value, schemeBytes: seq<byte>, bits: nat,
      exponent: u32, modulus: seq<byte>)
    requires Writes(SYM_DEF, 0x0001, sym, symBytes) && Writes(ASYM_SCHEME, 0x0001, scheme, schemeBytes)
    requires bits < U16_COUNT && |modulus| <= 512
    ensures var parms := Both(sym, Both(scheme, Both(Num(bits), Num(exponent))));
            Writes(PUBLIC, 0, AreaOf(0x0001, h, Variant(3, parms), Variant(3, Octets(modulus))),
                   BigEndian(2, 0x0001) + HeadBytes(h)
                   + (symBytes + (schemeBytes + (BigEndian(2, bits) + BigEndian(4, exponent)))) + SizedBytes(modulus))
  {
    Pow256Values();
    var numbers, numberBytes := Both(Num(bits), Num(exponent)), BigEndian(2, bits) + BigEndian(4, exponent);
    NumWrites(2, 0x0001, bits);
    NumWrites(4, 0x0001, exponent);
    PairWrites(UInt(2), UInt(4), 0x0001, Num(bits), Num(exponent), BigEndian(2, bits), BigEndian(4, exponent));
    PairWrites(ASYM_SCHEME, Pair(UInt(2), UInt(4)), 0x0001, scheme, numbers, schemeBytes, numberBytes);
    PairWrites(SYM_DEF, Pair(ASYM_SCHEME, Pair(UInt(2), UInt(4))), 0x0001, sym, Both(scheme, numbers), symBytes,
               schemeBytes + numberBytes);
    BufferWrites(512, 0x0001, modulus);
    ObjectBytes(0x0001, 3, h, Both(sym, Both(scheme, numbers)), Octets(modulus), symBytes + (schemeBytes + numberBytes),
                SizedBytes(modulus));
  }

  /** An elliptic curve key: symmetric definition, scheme, curve, key derivation; and the two coordinates. */
  lemma EccPublicBytes(h: Head, sym: Value, symBytes: seq<byte>, scheme: Value, schemeBytes: seq<byte>, curve: nat,
      kdf: Value, kdfBytes: seq<byte>, x: seq<byte>, y: seq<byte>)
    requires Writes(SYM_DEF, 0x0023, sym, symBytes) && Writes(ASYM_SCHEME, 0x0023, scheme, schemeBytes)
    requires curve in CURVES && Writes(KDF_SCHEME, 0x0023, kdf, kdfBytes) && |x| <= 66 && |y| <= 66
    ensures var parms := Both(sym, Both(scheme, Both(Num(curve), kdf)));
            Writes(PUBLIC, 0, AreaOf(0x0023, h, Variant(4, parms), Variant(4, Both(Octets(x), Octets(y)))),
                   BigEndian(2, 0x0023) + HeadBytes(h)
                   + (symBytes + (schemeBytes + (BigEndian(2, curve) + kdfBytes))) + (SizedBytes(x) + SizedBytes(y)))
  {
    var rest, restBytes := Both(Num(curve), kdf), BigEndian(2, curve) + kdfBytes;
    var restType := Pair(Enum(2, CURVES), KDF_SCHEME);
    EnumWrites(2, CURVES, 0x0023, curve);
    PairWrites(Enum(2, CURVES), KDF_SCHEME, 0x0023, Num(curve), kdf, BigEndian(2, curve), kdfBytes);
    PairWrites(ASYM_SCHEME, restType, 0x0023, scheme, rest, schemeBytes, restBytes);
    PairWrites(SYM_DEF, Pair(ASYM_SCHEME, restType), 0x0023, sym, Both(scheme, rest), symBytes,
               schemeBytes + restBytes);
    BufferWrites(66, 0x0023, x);
    BufferWrites(66, 0x0023, y);
    PairWrites(Buffer(2, 66), Buffer(2, 66), 0x0023, Octets(x), Octets(y), SizedBytes(x), SizedBytes(y));
    ObjectBytes(0x0023, 4, h, Both(sym, Both(scheme, rest)), Both(Octets(x), Octets(y)),
                symBytes + (schemeBytes + restBytes), SizedBytes(x) + SizedBytes(y));
  }

  /** No other object type, and no other scheme or algorithm, selects anything. */
  lemma NoOtherTag()
    ensures PUBLIC_SELECT.Keys == {0x0001, 0x0008, 0x0010, 0x0023, 0x0025}
    ensures SYM_DEF.body.first.select.Keys == {0x0006, 0x000A, 0x0010, 0x0013, 0x0026}
    ensures SYM_DEF.body.second.select.Keys == {0x0006, 0x000A, 0x0010, 0x0013, 0x0026}
    ensures ASYM_SCHEME.body.select.Keys
            == {0x0010, 0x0014, 0x0015, 0x0016, 0x0017, 0x0018, 0x0019, 0x001A, 0x001B, 0x001C, 0x001D}
    ensures KDF_SCHEME.body.select.Keys == {0x0007, 0x0010, 0x0020, 0x0021, 0x0022}
    ensures KEYEDHASH_SCHEME.body.select.Keys == {0x0005, 0x000A, 0x0010}
    ensures SIGNATURE.body.select.Keys == {0x0005, 0x0010, 0x0014, 0x0016, 0x0018, 0x001A, 0x001B, 0x001C}
  {
  }

  // ----- signatures -----

  /** An RSA signature: scheme, hash, and the signature. */
  lemma RsaSignatureBytes(sel: nat, tag: nat, hash: AlgId, signature: seq<byte>)
    requires tag in {0x0014, 0x0016} && |signature| <= 512
    ensures var id := if tag == 0x0014 then 1 else 2;
            Writes(SIGNATURE, sel, WithTag(tag, Variant(id, Both(Num(hash), Octets(signature)))),
                   BigEndian(2, tag) + (BigEndian(2, hash) + SizedBytes(signature)))
  {
    var id, body := if tag == 0x0014 then 1 else 2, SIGNATURE.body;
    AlgWrites(tag, hash);
    BufferWrites(512, tag, signature);
    PairWrites(ALG, RSA_KEY, tag, Num(hash), Octets(signature), BigEndian(2, hash), SizedBytes(signature));
    SelectedWrites(body.select, body.variants, sel, tag, id, Both(Num(hash), Octets(signature)),
                   BigEndian(2, hash) + SizedBytes(signature));
  }

  /** An elliptic curve signature: scheme, hash, and the two numbers. */
  lemma EccSignatureBytes(sel: nat, tag: nat, hash: AlgId, r: seq<byte>, s: seq<byte>)
    requires tag in {0x0018, 0x001A, 0x001B, 0x001C} && |r| <= 66 && |s| <= 66
    ensures var id := if tag == 0x0018 then 3 else if tag == 0x001A then 4 else if tag == 0x001B then 5 else 6;
            Writes(SIGNATURE, sel, WithTag(tag, Variant(id, Both(Num(hash), Both(Octets(r), Octets(s))))),
                   BigEndian(2, tag) + (BigEndian(2, hash) + (SizedBytes(r) + SizedBytes(s))))
  {
    var id := if tag == 0x0018 then 3 else if tag == 0x001A then 4 else if tag == 0x001B then 5 else 6;
    var body, point := SIGNATURE.body, Both(Octets(r), Octets(s));
    AlgWrites(tag, hash);
    BufferWrites(66, tag, r);
    BufferWrites(66, tag, s);
    PairWrites(Buffer(2, 66), Buffer(2, 66), tag, Octets(r), Octets(s), SizedBytes(r), SizedBytes(s));
    PairWrites(ALG, ECC_POINT, tag, Num(hash), point, BigEndian(2, hash), SizedBytes(r) + SizedBytes(s));
    SelectedWrites(body.select, body.variants, sel, tag, id, Both(Num(hash), point),
                   BigEndian(2, hash) + (SizedBytes(r) + SizedBytes(s)));
  }

  /** The number of bytes a hash value has. */
  function HashBytes(alg: AlgId): Option<nat> {
    if alg == 0x0004 then Some(20)
    else if alg == 0x002C then Some(24)
    else if alg in {0x000B, 0x0012, 0x0027, 0x002D} then Some(32)
    else if alg in {0x000C, 0x0028} then Some(48)
    else if alg in {0x000D, 0x0029, 0x002E} then Some(64)
    else None
  }

  function HashVariant(length: nat): nat {
    if length == 20 then 1 else if length == 24 then 2 else if length == 32 then 3 else if length == 48 then 4 else 5
  }

  /** A hash value has no size: its algorithm fixes it. */
  lemma HashValueBytes(sel: nat, hash: AlgId, value: seq<byte>)
    requires HashBytes(hash) == Some(|value|)
    ensures Writes(HASH_VALUE, sel, WithTag(hash, Variant(HashVariant(|value|), Octets(value))),
                   BigEndian(2, hash) + value)
  {
    var ha, id := HASH_VALUE.body, HashVariant(|value|);
    assert ha.variants[id] == Raw(|value|);
    assert Selects(ha.select, hash, id);
    SelectedWrites(ha.select, ha.variants, sel, hash, id, Octets(value), value);
  }

  /** A null signature, and an HMAC, which is a hash value. */
  lemma HmacSignatureBytes(sel: nat, value: Value, valueBytes: seq<byte>)
    requires Writes(HASH_VALUE, 0x0005, value, valueBytes)
    ensures Writes(SIGNATURE, sel, WithTag(0x0010, NO_DETAILS), BigEndian(2, 0x0010))
    ensures Writes(SIGNATURE, sel, WithTag(0x0005, Variant(7, value)), BigEndian(2, 0x0005) + valueBytes)
  {
    var body := SIGNATURE.body;
    SelectedWrites(body.select, body.variants, sel, 0x0010, 0, Unit, []);
    assert BigEndian(2, 0x0010) + [] == BigEndian(2, 0x0010);
    SelectedWrites(body.select, body.variants, sel, 0x0005, 7, value, valueBytes);
  }

  // ----- structures without a tag -----

  /** A saved context. */
  lemma ContextBytes(sequence: nat, handle: u32, hierarchy: nat, blob: seq<byte>)
    requires sequence < U32_COUNT * U32_COUNT && hierarchy in RH_VALUES && |blob| <= 4096
    ensures Writes(CONTEXT, 0, Both(Num(sequence), Both(Num(handle), Both(Num(hierarchy), Octets(blob)))),
                   BigEndian(8, sequence) + (BigEndian(4, handle) + (BigEndian(4, hierarchy) + SizedBytes(blob))))
  {
    Pow256Values();
    var blobType, hierarchyType := Buffer(2, 4096), Enum(4, RH_VALUES);
    NumWrites(8, 0, sequence);
    NumWrites(4, 0, handle);
    EnumWrites(4, RH_VALUES, 0, hierarchy);
    BufferWrites(4096, 0, blob);
    PairWrites(hierarchyType, blobType, 0, Num(hierarchy), Octets(blob), BigEndian(4, hierarchy), SizedBytes(blob));
    PairWrites(UInt(4), Pair(hierarchyType, blobType), 0, Num(handle), Both(Num(hierarchy), Octets(blob)),
               BigEndian(4, handle), BigEndian(4, hierarchy) + SizedBytes(blob));
    PairWrites(UInt(8), Pair(UInt(4), Pair(hierarchyType, blobType)), 0, Num(sequence),
               Both(Num(handle), Both(Num(hierarchy), Octets(blob))), BigEndian(8, sequence),
               BigEndian(4, handle) + (BigEndian(4, hierarchy) + SizedBytes(blob)));
  }

  /** A session of a command, and of a response, which has no handle. */
  lemma SessionBytes(handle: u32, nonce: Digest, attributes: byte, hmac: Digest)
    ensures Writes(AUTH_RESPONSE, 0, Both(Octets(nonce), Both(Num(attributes), Octets(hmac))),
                   SizedBytes(nonce) + ([attributes] + SizedBytes(hmac)))
    ensures Writes(AUTH_COMMAND, 0, Both(Num(handle), Both(Octets(nonce), Both(Num(attributes), Octets(hmac)))),
                   BigEndian(4, handle) + (SizedBytes(nonce) + ([attributes] + SizedBytes(hmac))))
  {
    Pow256Values();
    NumWrites(4, 0, handle);
    NumWrites(1, 0, attributes);
    BufferWrites(64, 0, nonce);
    BufferWrites(64, 0, hmac);
    var tail, tailBytes := Both(Num(attributes), Octets(hmac)), [attributes] + SizedBytes(hmac);
    assert BigEndian(1, attributes) == [attributes];
    PairWrites(UInt(1), DIGEST, 0, Num(attributes), Octets(hmac), [attributes], SizedBytes(hmac));
    PairWrites(DIGEST, Pair(UInt(1), DIGEST), 0, Octets(nonce), tail, SizedBytes(nonce), tailBytes);
    PairWrites(UInt(4), AUTH_RESPONSE, 0, Num(handle), Both(Octets(nonce), tail), BigEndian(4, handle),
               SizedBytes(nonce) + tailBytes);
  }

  // ----- parameters of the stored policy commands -----

  /** PolicySecret: the handle, its name, and the policy reference. */
  lemma SecretStepBytes(handle: u32, name: Name, policyRef: Digest)
    ensures Writes(POLICY_SECRET_STEP, 0, Both(Num(handle), Both(Octets(name), Octets(policyRef))),
                   BigEndian(4, handle) + (SizedBytes(name) + SizedBytes(policyRef)))
  {
    Pow256Values();
    NumWrites(4, 0, handle);
    BufferWrites(66, 0, name);
    BufferWrites(64, 0, policyRef);
    PairWrites(NAME, DIGEST, 0, Octets(name), Octets(policyRef), SizedBytes(name), SizedBytes(policyRef));
    PairWrites(UInt(4), Pair(NAME, DIGEST), 0, Num(handle), Both(Octets(name), Octets(policyRef)), BigEndian(4, handle),
               SizedBytes(name) + SizedBytes(policyRef));
  }

  /** PolicyAuthorize: the signing key's public area with its size, the policy reference, and a signature. */
  lemma AuthorizeStepBytes(public: Value, publicBytes: seq<byte>, policyRef: Digest, signature: Value,
      signatureBytes: seq<byte>)
    requires Writes(PUBLIC, 0, public, publicBytes) && Writes(SIGNATURE, 0, signature, signatureBytes)
    ensures Writes(POLICY_AUTHORIZE_STEP, 0, Both(public, Both(Octets(policyRef), signature)),
                   SizedBytes(publicBytes) + (SizedBytes(policyRef) + signatureBytes))
  {
    PublicWellFormed();
    LengthBound(PUBLIC, public);
    SizedWrites(PUBLIC, 4096, public, publicBytes);
    BufferWrites(64, 0, policyRef);
    PairWrites(DIGEST, SIGNATURE, 0, Octets(policyRef), signature, SizedBytes(policyRef), signatureBytes);
    PairWrites(SIZED_PUBLIC, Pair(DIGEST, SIGNATURE), 0, public, Both(Octets(policyRef), signature),
               SizedBytes(publicBytes), SizedBytes(policyRef) + signatureBytes);
  }

  lemma SizedWrites(inner: Schema, limit: nat, v: Value, p: seq<byte>)
    requires Writes(inner, 0, v, p) && Length(inner, v) < U16_COUNT
    ensures Writes(Sized(inner, limit), 0, v, SizedBytes(p))
  {
    EncodeLength(inner, 0, v);
    assert Encode(Sized(inner, limit), 0, v) == Concat(Ok(BigEndian(2, |p|)), Ok(p)) == Ok(SizedBytes(p));
  }

  /** PolicyPCR: the digest, then the selection. */
  lemma PcrStepBytes(digest: Digest, selections: Value, selectionBytes: seq<byte>)
    requires Writes(PCR_SELECTIONS, 0, selections, selectionBytes)
    ensures Writes(POLICY_PCR_STEP, 0, Both(Octets(digest), selections), SizedBytes(digest) + selectionBytes)
  {
    BufferWrites(64, 0, digest);
    PairWrites(DIGEST, PCR_SELECTIONS, 0, Octets(digest), selections, SizedBytes(digest), selectionBytes);
  }

  /** PolicyCounterTimer: the operand, the offset, and the operation. */
  lemma CounterTimerStepBytes(operand: seq<byte>, offset: nat, operation: nat)
    requires |operand| <= 1024 && offset < U16_COUNT && operation <= 0x000B
    ensures Writes(POLICY_COUNTER_TIMER_STEP, 0, Both(Octets(operand), Both(Num(offset), Num(operation))),
                   SizedBytes(operand) + (BigEndian(2, offset) + BigEndian(2, operation)))
  {
    Pow256Values();
    BufferWrites(1024, 0, operand);
    NumWrites(2, 0, offset);
    EnumWrites(2, EO_VALUES, 0, operation);
    PairWrites(UInt(2), Enum(2, EO_VALUES), 0, Num(offset), Num(operation), BigEndian(2, offset),
               BigEndian(2, operation));
    PairWrites(MAX_BUFFER, Pair(UInt(2), Enum(2, EO_VALUES)), 0, Octets(operand), Both(Num(offset), Num(operation)),
               SizedBytes(operand), BigEndian(2, offset) + BigEndian(2, operation));
  }

  // ----- whole structures, byte by byte -----

  function RsaExample(): Value {
    var parms := Both(WithTag(0x0010, NO_SYM_DETAILS), Both(WithTag(0x0010, NO_DETAILS), Both(Num(2048), Num(0))));
    AreaOf(0x0001, Head(0x000B, 0x0003_0072, []), Variant(3, parms), Variant(3, Octets([])))
  }

  /** An RSA-2048 key with the default exponent, before its modulus is known. */
  lemma RsaLiteral()
    ensures Writes(PUBLIC, 0, RsaExample(),
                   [0x00, 0x01, 0x00, 0x0B, 0x00, 0x03, 0x00, 0x72, 0x00, 0x00,
                    0x00, 0x10, 0x00, 0x10, 0x08, 0x00, 0x00, 0x00, 0x00, 0x00, 0x00, 0x00])
  {
    var h, none := Head(0x000B, 0x0003_0072, []), BigEndian(2, 0x0010);
    SymDefBytes(0x0001, 0x0006, 128, 0x0043);
    AsymSchemeBytes(0x0001, 0x0010, 0x000B);
    RsaPublicBytes(h, WithTag(0x0010, NO_SYM_DETAILS), none, WithTag(0x0010, NO_DETAILS), none, 2048, 0, []);
    RsaLiteralBytes(h, none);
  }

  lemma RsaLiteralBytes(h: Head, none: seq<byte>)
    requires h == Head(0x000B, 0x0003_0072, []) && none == BigEndian(2, 0x0010)
    ensures BigEndian(2, 0x0001) + HeadBytes(h) + (none + (none + (BigEndian(2, 2048) + BigEndian(4, 0))))
            + SizedBytes([])
            == [0x00, 0x01, 0x00, 0x0B, 0x00, 0x03, 0x00, 0x72, 0x00, 0x00,
                0x00, 0x10, 0x00, 0x10, 0x08, 0x00, 0x00, 0x00, 0x00, 0x00, 0x00, 0x00]
  {
    assert BigEndian(2, 0x0001) + HeadBytes(h) == [0x00, 0x01, 0x00, 0x0B, 0x00, 0x03, 0x00, 0x72, 0x00, 0x00] by {
      BigEndianTwo(0x0001);
      BigEndianTwo(0x000B);
      BigEndianFour(0x0003_0072);
      EmptySized();
    }
    assert none + (none + (BigEndian(2, 2048) + BigEndian(4, 0)))
           == [0x00, 0x10, 0x00, 0x10, 0x08, 0x00, 0x00, 0x00, 0x00, 0x00] by {
      BigEndianTwo(0x0010);
      BigEndianTwo(2048);
      BigEndianFour(0);
    }
    EmptySized();
  }

  lemma EmptySized()
    ensures SizedBytes([]) == [0x00, 0x00]
  {
    BigEndianTwo(0);
  }

  /** A command session with a nonce of two bytes. */
  lemma SessionLiteral(nonce: Digest, hmac: Digest)
    requires nonce == [0xAA, 0xBB] && hmac == [0xCC]
    ensures Writes(AUTH_COMMAND, 0, Both(Num(0x0200_0001), Both(Octets(nonce), Both(Num(0x01), Octets(hmac)))),
                   [0x02, 0x00, 0x00, 0x01, 0x00, 0x02, 0xAA, 0xBB, 0x01, 0x00, 0x01, 0xCC])
  {
    SessionBytes(0x0200_0001, nonce, 0x01, hmac);
    SessionLiteralBytes(nonce, hmac);
  }

  lemma SessionLiteralBytes(nonce: seq<byte>, hmac: seq<byte>)
    requires nonce == [0xAA, 0xBB] && hmac == [0xCC]
    ensures BigEndian(4, 0x0200_0001) + (SizedBytes(nonce) + ([0x01] + SizedBytes(hmac)))
            == [0x02, 0x00, 0x00, 0x01, 0x00, 0x02, 0xAA, 0xBB, 0x01, 0x00, 0x01, 0xCC]
  {
    assert SizedBytes(nonce) == [0x00, 0x02, 0xAA, 0xBB] by {
      BigEndianTwo(2);
    }
    assert SizedBytes(hmac) == [0x00, 0x01, 0xCC] by {
      BigEndianTwo(1);
    }
    BigEndianFour(0x0200_0001);
  }

  /** The context that a persistent key is saved with. */
  lemma ContextLiteral()
    ensures Writes(CONTEXT, 0, Both(Num(0), Both(Num(0), Both(Num(0x4000_0001), Octets([])))),
                   [0, 0, 0, 0, 0, 0, 0, 0, 0, 0, 0, 0, 0x40, 0x00, 0x00, 0x01, 0, 0])
  {
    ContextBytes(0, 0, 0x4000_0001, []);
    assert BigEndian(8, 0) == [0, 0, 0, 0, 0, 0, 0, 0] by {
      BigEndianFour(0);
      LowByte(4, 0);
      LowByte(5, 0);
      LowByte(6, 0);
      LowByte(7, 0);
    }
    BigEndianFour(0);
    BigEndianFour(0x4000_0001);
    EmptySized();
    assert BigEndian(8, 0) + (BigEndian(4, 0) + (BigEndian(4, 0x4000_0001) + SizedBytes([])))
           == [0, 0, 0, 0, 0, 0, 0, 0, 0, 0, 0, 0, 0x40, 0x00, 0x00, 0x01, 0, 0];
  }
}
