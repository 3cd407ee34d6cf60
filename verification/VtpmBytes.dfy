/**
  What the key cache writes and what it calls its keys, byte by byte: the layout of a record, the
  buffers the loader refuses, the parts of a name, and which command carries which parameters.
 */
module VtpmBytes {
  import opened Wrappers
  import opened Bytes
  import opened WireSchema
  import opened WireTypes
  import opened WireCodec
  import opened WireValues
  import opened WireLayouts
  import opened VtpmPolicyList
  import opened VtpmPolicy
  import opened VtpmStore
  import opened VtpmRecord
  import opened VtpmRestart
  import VtpmCache

  /** The handles that records are kept for, and those of session files. */
  lemma HandleRanges(h: u32)
    ensures Cached(h) <==> 0x8000_0000 <= h <= 0x81FF_FFFF
    ensures VtpmCache.IsSession(h) <==> 0x0200_0000 <= h <= 0x03FF_FFFF
    ensures InRange(h) <==> 0x8000_0000 <= h <= 0x80FF_FFFF
  {
  }

  // ----- names -----

  /** A public area starts with its type and the algorithm it is named with. */
  lemma AreaStart(parms: Schema, unique: Schema, v: Value)
    requires var area := WireTypes.PublicArea(ALG, parms, unique); Typed(area, v) && Encode(area, 0, v).Ok?
    ensures var bytes := Encode(WireTypes.PublicArea(ALG, parms, unique), 0, v).value;
            && v.WithTag? && v.body.Both? && v.body.first.Num? && |bytes| >= 4
            && bytes[..2] == BigEndian(2, v.tag) && bytes[2..4] == BigEndian(2, v.body.first.n)
  {
    PublicShape(v, parms, unique);
    var fields := Pair(ALG, Pair(UInt(4), Pair(DIGEST, Pair(parms, unique))));
    var body := Encode(fields, v.tag, v.body);
    assert Encode(ALG, v.tag, v.body.first) == Ok(BigEndian(2, v.body.first.n));
    assert body.Ok? && body.value[..2] == BigEndian(2, v.body.first.n);
    assert Encode(WireTypes.PublicArea(ALG, parms, unique), 0, v) == Ok(BigEndian(2, v.tag) + body.value);
  }

  /**
    Of an area that marshals and is named with a hash, the name is that hash's number, the third
    and fourth byte of the area, and behind it the hash of all the area's bytes. No other has one.
   */
  lemma NameParts(digest: DigestFunction, public: WireValues.PublicArea)
    ensures var name, area := MakeName(digest, public), Encode(PUBLIC, 0, public.value);
            if area.Ok? && NameAlg(public) in {0x0004, 0x000B, 0x000C, 0x000D, 0x0012,
                                               0x0027, 0x0028, 0x0029, 0x002A, 0x002B}
            then && name.Some? && |area.value| >= 4 && |name.value| >= 2
                 && area.value[2..4] == [NameAlg(public) / 256, NameAlg(public) % 256] == name.value[..2]
                 && name.value[2..] == digest(NameAlg(public), area.value)
            else name == None
  {
    var area, alg := Encode(PUBLIC, 0, public.value), NameAlg(public);
    BigEndianTwo(alg);
    if area.Ok? && alg in HASH_ALGS {
      AreaStart(PUBLIC_PARMS, PUBLIC_ID, public.value);
      NameFromParts(digest, alg, area.value);
    }
  }

  lemma NameFromParts(digest: DigestFunction, alg: AlgId, area: seq<byte>)
    requires alg in HASH_ALGS
    ensures var name := NameFrom(digest, alg, Ok(area));
            && name.Some? && |name.value| >= 2
            && name.value[..2] == BigEndian(2, alg) && name.value[2..] == digest(alg, area)
  {
    var first, rest := BigEndian(2, alg), digest(alg, area);
    BigEndianTwo(alg);
    assert (first + rest)[..2] == first && (first + rest)[2..] == rest;
  }

  // ----- records -----

  /** A record: version, handle, public area, parent's area, context, number of steps, and the steps. */
  lemma RecordParts(k: TpmKey, public: seq<byte>, parent: seq<byte>, context: seq<byte>)
    requires Writes(PUBLIC, 0, k.public.value, public) && Writes(PUBLIC, 0, k.parent.value, parent)
    requires Writes(CONTEXT, 0, k.context.value, context) && |k.policy| < U32_COUNT
    ensures RecordBytes(k)
            == Concat(Ok(BigEndian(4, k.version) + BigEndian(4, k.handle) + public + parent + context
                         + BigEndian(4, |k.policy|)),
                      PartsBytes(PolicyParts(k)))
  {
    BodyParts(PUBLIC, CONTEXT, k.public.value, k.parent.value, k.context.value, public, parent, context);
    var head, count := BigEndian(4, k.version) + BigEndian(4, k.handle), BigEndian(4, |k.policy|);
    assert head + (public + (parent + context)) + count == head + public + parent + context + count;
    ConcatAssociative(Ok(head + (public + (parent + context))), Ok(count), PartsBytes(PolicyParts(k)));
  }

  lemma BodyParts(a: Schema, c: Schema, x: Value, y: Value, z: Value, p: seq<byte>, q: seq<byte>, r: seq<byte>)
    requires Writes(a, 0, x, p) && Writes(a, 0, y, q) && Writes(c, 0, z, r)
    ensures Writes(Pair(a, Pair(a, c)), 0, Both(x, Both(y, z)), p + (q + r))
  {
    PairWrites(a, c, 0, y, z, q, r);
    PairWrites(a, Pair(a, c), 0, x, Both(y, z), p, q + r);
  }

  /** A step: its command code, the size of its parameters, the parameters; and one step after another. */
  lemma StepsLayout(a: seq<Part>, part: Part)
    requires |part.body| < U32_COUNT
    ensures PartsBytes(a + [part])
            == Concat(PartsBytes(a), Ok(BigEndian(4, part.cc) + BigEndian(4, |part.body|) + part.body))
  {
    if a == [] {
      assert a + [part] == [part] && [part][1..] == [];
      ConcatEmpty(SizedPart(part));
    } else {
      assert (a + [part])[0] == a[0] && (a + [part])[1..] == a[1..] + [part];
      StepsLayout(a[1..], part);
      ConcatAssociative(SizedPart(a[0]), PartsBytes(a[1..]), SizedPart(part));
    }
  }

  /** What the loader refuses before it looks at the key: size, version, handle, in this order. */
  lemma RecordRefused(buffer: seq<byte>, h: u32)
    ensures |buffer| > 16384 ==> LoadRecord(buffer, h) == Err(RecordTooLarge(|buffer|))
    ensures |buffer| <= 16384 && (|buffer| < 4 || buffer[..4] != [0, 0, 0, 2]) ==>
              LoadRecord(buffer, h) == Err(StaleHandle)
    ensures 8 <= |buffer| <= 16384 && buffer[..4] == [0, 0, 0, 2] && FromBigEndian(buffer[4..8]) != h ==>
              LoadRecord(buffer, h) == Err(StaleHandle)
    ensures 4 <= |buffer| < 8 && buffer[..4] == [0, 0, 0, 2] ==>
              LoadRecord(buffer, h) == Err(Unmarshal(TpmError.UnexpectedEnd))
  {
    BigEndianFour(2);
    if |buffer| >= 4 {
      Pow256Values();
      BigEndianRoundTrip(4, 2);
      if FromBigEndian(buffer[..4]) == 2 {
        FromBigEndianRoundTrip(buffer[..4]);
      }
    }
    if |buffer| >= 8 {
      assert buffer[4..][..4] == buffer[4..8];
    }
  }

  /** What the loader refuses of a policy list: more than sixteen steps. */
  lemma ListRefused<S>(from: Part -> Result<S, VtpmError>, count: u32, rest: seq<byte>)
    ensures |rest| < 4 ==> LoadList(from, rest) == Err(Unmarshal(TpmError.UnexpectedEnd))
    ensures count > 16 ==> LoadList(from, BigEndian(4, count) + rest) == Err(TooManyPolicies(count))
  {
    WordRead(count, rest);
  }

  /** What it refuses of a step: an unknown command, and anything cut short; a body has its own error. */
  lemma StepRefused(cc: u32, size: u32, rest: seq<byte>)
    ensures |rest| < 4 ==> NextPart(rest) == Err(Unmarshal(TpmError.UnexpectedEnd))
    ensures cc !in CC_VALUES ==> NextPart(BigEndian(4, cc) + rest) == Err(Unmarshal(VariantNotAvailable))
    ensures cc in CC_VALUES && |rest| < 4 ==>
              NextPart(BigEndian(4, cc) + rest) == Err(Unmarshal(TpmError.UnexpectedEnd))
    ensures cc in CC_VALUES && |rest| < size ==>
              NextPart(BigEndian(4, cc) + (BigEndian(4, size) + rest)) == Err(VtpmError.UnexpectedEnd)
  {
    WordRead(cc, rest);
    WordRead(cc, BigEndian(4, size) + rest);
    WordRead(size, rest);
    var tail := BigEndian(4, cc) + (BigEndian(4, size) + rest);
    assert tail[4..8] == BigEndian(4, size);
  }

  lemma WordRead(n: u32, rest: seq<byte>)
    ensures FromBigEndian((BigEndian(4, n) + rest)[..4]) == n && (BigEndian(4, n) + rest)[4..] == rest
  {
    Pow256Values();
    BigEndianRoundTrip(4, n);
    assert (BigEndian(4, n) + rest)[..4] == BigEndian(4, n);
  }

  // ----- parameters of policy steps -----

  /** Five commands carry nothing; each other one that a record may hold has its own parameters. */
  lemma StepTable(cc: nat)
    ensures cc in {0x016B, 0x018C, 0x0189, 0x0180, 0x0187} ==> StepSchema(cc) == Some(Empty)
    ensures StepSchema(0x016A) == Some(POLICY_AUTHORIZE_STEP) && StepSchema(0x0151) == Some(POLICY_SECRET_STEP)
    ensures StepSchema(0x017F) == Some(POLICY_PCR_STEP) && StepSchema(0x0171) == Some(DIGESTS)
    ensures StepSchema(0x016C) == Some(CC) && StepSchema(0x016D) == Some(POLICY_COUNTER_TIMER_STEP)
    ensures cc in {0x016E, 0x0170, 0x0190} ==> StepSchema(cc) == Some(DIGEST)
    ensures StepSchema(0x018F) == Some(Bool)
    ensures StepSchema(cc).Some? <==> cc in {0x016B, 0x018C, 0x0189, 0x0180, 0x0187, 0x016A, 0x0151, 0x017F, 0x0171,
                                              0x016C, 0x016D, 0x016E, 0x0170, 0x0190, 0x018F}
  {
  }

  // ----- the context of a persistent key -----

  lemma PersistentContextBytes()
    ensures Encode(CONTEXT, 0, PersistentContext())
            == Ok([0, 0, 0, 0, 0, 0, 0, 0, 0, 0, 0, 0, 0x40, 0x00, 0x00, 0x01, 0, 0])
  {
    ContextLiteral();
  }
}
