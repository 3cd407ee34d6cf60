/** One cache record: a key with its metadata, as it lies on disk. */
module VtpmRecord {
  import opened Wrappers
  import opened Bytes
  import opened WireSchema
  import opened WireTypes
  import opened WireCodec
  import opened WireOutput
  import opened WireTheorems
  import opened WireWriter
  import opened WireValues
  import opened VtpmPolicyList
  import opened VtpmPolicy
  import opened VtpmStore

  const RECORD_SIZE_MAX: nat := 16 * 1024

  /** The cached key that records hold. */
  type TpmKey = Key<PublicArea, SavedContext, PolicyStep>

  /** The structures of a record, in order. */
  const RECORD_BODY: Schema := Pair(PUBLIC, Pair(PUBLIC, CONTEXT))

  function BodyOf(k: TpmKey): (v: Value)
    ensures Typed(RECORD_BODY, v)
  {
    PairTyped(PUBLIC, CONTEXT, k.parent.value, k.context.value);
    PairTyped(PUBLIC, Pair(PUBLIC, CONTEXT), k.public.value, Both(k.parent.value, k.context.value));
    Both(k.public.value, Both(k.parent.value, k.context.value))
  }

  function PolicyParts(k: TpmKey): seq<Part> {
    PartsOf(PartOf, k.policy)
  }

  function HeadBytes(k: TpmKey): seq<byte> {
    BigEndian(4, k.version) + BigEndian(4, k.handle)
  }

  function RecordBytes(k: TpmKey): Result<seq<byte>, VtpmError> {
    RecordFrom(HeadBytes(k), Encode(RECORD_BODY, 0, BodyOf(k)), ListBytes(PolicyParts(k)))
  }

  function RecordFrom(head: seq<byte>, body: Result<seq<byte>, TpmError>, list: Result<seq<byte>, VtpmError>)
    : Result<seq<byte>, VtpmError>
  {
    if body.Err? then Err(Marshal(body.error)) else Concat(Ok(head + body.value), list)
  }

  /** `serialized_len`. */
  function SerializedLen(k: TpmKey): nat {
    8 + Length(RECORD_BODY, BodyOf(k)) + 4 + StepsLen(k.policy)
  }

  function StepsLen(steps: seq<PolicyStep>): nat {
    if steps == [] then 0 else StepLen(steps[0]) + StepsLen(steps[1..])
  }

  // ----- loading -----

  function LoadRecord(buffer: seq<byte>, expected: u32): Result<TpmKey, VtpmError> {
    if |buffer| > RECORD_SIZE_MAX then Err(RecordTooLarge(|buffer|))
    else
      match DecodeInt(4, buffer)
      case Err(_) => Err(StaleHandle)
      case Ok(version) =>
        if version.value.n != VERSION then Err(StaleHandle)
        else
          match DecodeInt(4, version.rest)
          case Err(e) => Err(Unmarshal(e))
          case Ok(handle) =>
            if handle.value.n != expected then Err(StaleHandle)
            else
              match Decode(RECORD_BODY, 0, handle.rest)
              case Err(e) => Err(Unmarshal(e))
              case Ok(body) =>
                BodyDecodes(handle.rest);
                KeyFrom(expected, body.value, LoadList(FromParts, body.rest))
  }

  function KeyFrom(handle: u32, body: Value, list: Result<ReadSteps<PolicyStep>, VtpmError>): Result<TpmKey, VtpmError>
    requires IsBody(body)
  {
    if list.Err? then Err(list.error)
    else if list.value.rest != [] then Err(Unmarshal(TpmError.TrailingData))
    else
      Ok(Key(VERSION, handle, PublicArea(body.first), PublicArea(body.second.first), SavedContext(body.second.second),
             list.value.steps))
  }

  predicate IsBody(v: Value) {
    && v.Both? && v.second.Both?
    && Typed(PUBLIC, v.first) && Typed(PUBLIC, v.second.first) && Typed(CONTEXT, v.second.second)
  }

  lemma RecordBodyWellFormed()
    ensures WellFormed(RECORD_BODY)
  {
    PublicWellFormed();
    StructuresWellFormed();
    PairWellFormed(PUBLIC, CONTEXT);
    PairWellFormed(PUBLIC, Pair(PUBLIC, CONTEXT));
  }

  lemma PairWellFormed(a: Schema, b: Schema)
    requires WellFormed(a) && WellFormed(b)
    ensures WellFormed(Pair(a, b))
  {
  }

  lemma BodyTyped(a: Schema, b: Schema, v: Value)
    requires Typed(Pair(a, Pair(a, b)), v)
    ensures v.Both? && v.second.Both? && Typed(a, v.first) && Typed(a, v.second.first) && Typed(b, v.second.second)
  {
  }

  lemma BodyDecodes(buffer: seq<byte>)
    requires Decode(RECORD_BODY, 0, buffer).Ok?
    ensures IsBody(Decode(RECORD_BODY, 0, buffer).value.value)
  {
    RecordBodyWellFormed();
    EncodeDecode(RECORD_BODY, 0, buffer);
    BodyTyped(PUBLIC, CONTEXT, Decode(RECORD_BODY, 0, buffer).value.value);
  }

  method ReadRecord(buffer: seq<byte>, expected: u32) returns (r: Result<TpmKey, VtpmError>)
    ensures r == LoadRecord(buffer, expected)
  {
    if |buffer| > RECORD_SIZE_MAX {
      return Err(RecordTooLarge(|buffer|));
    }
    var version := DecodeInt(4, buffer);
    if version.Err? || version.value.value.n != VERSION {
      return Err(StaleHandle);
    }
    var handle := DecodeInt(4, version.value.rest);
    if handle.Err? {
      return Err(Unmarshal(handle.error));
    }
    if handle.value.value.n != expected {
      return Err(StaleHandle);
    }
    var body := Decode(RECORD_BODY, 0, handle.value.rest);
    if body.Err? {
      return Err(Unmarshal(body.error));
    }
    BodyDecodes(handle.value.rest);
    var list := UnmarshalPolicyList(FromParts, body.value.rest);
    r := KeyFrom(expected, body.value.value, list);
  }

  // ----- saving -----

  lemma {:induction false} StepsLenBound(steps: seq<PolicyStep>)
    requires PartsBytes(PartsOf(PartOf, steps)).Ok?
    ensures |PartsBytes(PartsOf(PartOf, steps)).value| <= StepsLen(steps)
    ensures (forall s <- steps :: Marshals(s)) ==> |PartsBytes(PartsOf(PartOf, steps)).value| == StepsLen(steps)
  {
    if steps != [] {
      StepLenExact(steps[0]);
      PartsCons(PartOf(steps[0]), PartsOf(PartOf, steps[1..]));
      StepsLenBound(steps[1..]);
    }
  }

  lemma PartsCons(part: Part, parts: seq<Part>)
    ensures PartsBytes([part] + parts) == Concat(SizedPart(part), PartsBytes(parts))
  {
    assert ([part] + parts)[1..] == parts;
  }

  /** A record never outgrows the length computed for it, and has exactly it when every step marshals. */
  lemma RecordLength(k: TpmKey)
    requires RecordBytes(k).Ok?
    ensures |RecordBytes(k).value| <= SerializedLen(k)
    ensures (forall s <- k.policy :: Marshals(s)) ==> |RecordBytes(k).value| == SerializedLen(k)
  {
    EncodeLength(RECORD_BODY, 0, BodyOf(k));
    StepsLenBound(k.policy);
  }

  /**
    Serializes a record into a buffer of exactly the computed length. The buffer never
    overflows, so what stops it is what makes the record impossible.
   */
  method WriteRecord(k: TpmKey) returns (r: Result<seq<byte>, VtpmError>)
    ensures r == RecordBytes(k)
  {
    var storage := new byte[SerializedLen(k)];
    var w := new TpmWriter(storage);
    Pow256Values();
    var wrote := w.WriteBytes(BigEndian(4, k.version));
    assert wrote.Ok?;
    wrote := w.WriteBytes(BigEndian(4, k.handle));
    assert wrote.Ok? && w.Written() == HeadBytes(k);
    wrote := WireWriter.Marshal(RECORD_BODY, 0, BodyOf(k), w);
    OutputEncodes(RECORD_BODY, 0, BodyOf(k));
    OutputLength(RECORD_BODY, 0, BodyOf(k));
    if wrote.Err? {
      return Err(VtpmError.Marshal(wrote.error));
    }
    var listed := MarshalPolicyList(PolicyParts(k), w);
    StepsFit(k);
    if listed.Err? {
      return Err(listed.error);
    }
    return Ok(w.Written());
  }

  /** The policy list never outgrows the room left for it, even when it is stopped. */
  lemma StepsFit(k: TpmKey)
    ensures |ListOutput(PolicyParts(k)).bytes| <= 4 + StepsLen(k.policy)
  {
    PartsOutputFits(k.policy);
  }

  lemma {:induction false} PartsOutputFits(steps: seq<PolicyStep>)
    ensures |PartsOutput(PartsOf(PartOf, steps)).bytes| <= StepsLen(steps)
  {
    if steps != [] {
      StepLenExact(steps[0]);
      PartsOutputFits(steps[1..]);
      assert PartsOf(PartOf, steps)[1..] == PartsOf(PartOf, steps[1..]);
    }
  }

  // ----- round trips -----

  /** What a reload accepts: a record within the size limit, few enough steps, and every step readable. */
  predicate Reloadable(k: TpmKey)
    requires RecordBytes(k).Ok?
  {
    && |RecordBytes(k).value| <= RECORD_SIZE_MAX
    && |k.policy| <= POLICY_COUNT_MAX
    && forall s <- k.policy :: Readable(s)
  }

  /** The same key up to what marshalling drops; steps are compared by their parts. */
  predicate SameKey(a: TpmKey, b: TpmKey) {
    && a.version == b.version && a.handle == b.handle
    && a.public.value == Canon(PUBLIC, b.public.value) && a.parent.value == Canon(PUBLIC, b.parent.value)
    && a.context == b.context
    && PolicyParts(a) == PolicyParts(b)
  }

  lemma FromPartsKeeps()
    ensures KeepsParts(FromParts, PartOf)
  {
    forall part | FromParts(part).Ok?
      ensures PartOf(FromParts(part).value) == part
    {
      FromPartsInverse(part);
    }
  }

  lemma {:induction false} PartsReadable(steps: seq<PolicyStep>)
    ensures (forall p <- PartsOf(PartOf, steps) :: FromParts(p).Ok?) <==> forall s <- steps :: Readable(s)
  {
    if steps != [] {
      PartsReadable(steps[1..]);
      StepReadable(steps[0]);
      var parts := PartsOf(PartOf, steps);
      assert forall p :: p in parts <==> p == PartOf(steps[0]) || p in PartsOf(PartOf, steps[1..]);
      assert forall s :: s in steps <==> s == steps[0] || s in steps[1..];
    }
  }

  lemma CanonBody(a: Schema, b: Schema, x: Value, y: Value, z: Value)
    ensures Canon(Pair(a, Pair(a, b)), Both(x, Both(y, z))) == Both(Canon(a, x), Both(Canon(a, y), Canon(b, z)))
  {
    assert Canon(Pair(a, b), Both(y, z)) == Both(Canon(a, y), Canon(b, z));
  }

  /** Nothing of this type is dropped on the wire. */
  ghost predicate Fixed(s: Schema) {
    forall v | Typed(s, v) :: Canon(s, v) == v
  }

  lemma PairFixed(a: Schema, b: Schema)
    requires Fixed(a) && Fixed(b)
    ensures Fixed(Pair(a, b))
  {
  }

  lemma ContextFixed()
    ensures Fixed(CONTEXT)
  {
    PairFixed(Enum(4, RH_VALUES), Buffer(2, 4096));
    PairFixed(UInt(4), Pair(Enum(4, RH_VALUES), Buffer(2, 4096)));
    PairFixed(UInt(8), CONTEXT.second);
  }

  lemma BodyReads(k: TpmKey, rest: seq<byte>)
    requires Encode(RECORD_BODY, 0, BodyOf(k)).Ok?
    ensures Decode(RECORD_BODY, 0, Encode(RECORD_BODY, 0, BodyOf(k)).value + rest)
            == Ok(Decoded(Both(Canon(PUBLIC, k.public.value), Both(Canon(PUBLIC, k.parent.value), k.context.value)),
                          rest))
  {
    RecordBodyWellFormed();
    DecodeEncode(RECORD_BODY, 0, BodyOf(k), rest);
    CanonBody(PUBLIC, CONTEXT, k.public.value, k.parent.value, k.context.value);
    ContextFixed();
  }

  lemma PolicyReads(k: TpmKey)
    requires ListBytes(PolicyParts(k)).Ok?
    ensures var r := LoadList(FromParts, ListBytes(PolicyParts(k)).value);
            && (r.Ok? <==> |k.policy| <= POLICY_COUNT_MAX && forall s <- k.policy :: Readable(s))
            && (r.Ok? ==> r.value.rest == [] && PartsOf(PartOf, r.value.steps) == PolicyParts(k))
  {
    var list := ListBytes(PolicyParts(k)).value;
    FromPartsKeeps();
    assert list + [] == list;
    ListRoundTrip(FromParts, PartOf, PolicyParts(k), []);
    PartsReadable(k.policy);
  }

  lemma HeadReads(version: u32, handle: u32, rest: seq<byte>)
    ensures var b := BigEndian(4, version) + BigEndian(4, handle) + rest;
            && DecodeInt(4, b) == Ok(Decoded(Num(version), BigEndian(4, handle) + rest))
            && DecodeInt(4, BigEndian(4, handle) + rest) == Ok(Decoded(Num(handle), rest))
  {
    Pow256Values();
    assert BigEndian(4, version) + BigEndian(4, handle) + rest == BigEndian(4, version) + (BigEndian(4, handle) + rest);
    DecodeIntAppend(4, version, BigEndian(4, handle) + rest);
    DecodeIntAppend(4, handle, rest);
  }

  lemma LoadsBody(buffer: seq<byte>, handle: u32, tail: seq<byte>, rest: seq<byte>, body: Value, list: seq<byte>)
    requires |buffer| <= RECORD_SIZE_MAX && DecodeInt(4, buffer) == Ok(Decoded(Num(VERSION), tail))
    requires DecodeInt(4, tail) == Ok(Decoded(Num(handle), rest))
    requires Decode(RECORD_BODY, 0, rest) == Ok(Decoded(body, list))
    ensures IsBody(body) && LoadRecord(buffer, handle) == KeyFrom(handle, body, LoadList(FromParts, list))
  {
    BodyDecodes(rest);
  }

  /** The structures of a key as they are read back. */
  function ReadBack(k: TpmKey): (v: Value)
    requires Encode(RECORD_BODY, 0, BodyOf(k)).Ok?
    ensures IsBody(v)
  {
    var v := Both(Canon(PUBLIC, k.public.value), Both(Canon(PUBLIC, k.parent.value), k.context.value));
    BodyReads(k, []);
    BodyDecodes(Encode(RECORD_BODY, 0, BodyOf(k)).value + []);
    v
  }

  lemma RecordLoads(k: TpmKey, bytes: seq<byte>, list: seq<byte>)
    requires k.version == VERSION && Encode(RECORD_BODY, 0, BodyOf(k)).Ok?
    requires bytes == HeadBytes(k) + Encode(RECORD_BODY, 0, BodyOf(k)).value + list && |bytes| <= RECORD_SIZE_MAX
    ensures LoadRecord(bytes, k.handle) == KeyFrom(k.handle, ReadBack(k), LoadList(FromParts, list))
  {
    var body := Encode(RECORD_BODY, 0, BodyOf(k)).value;
    assert HeadBytes(k) + body + list == HeadBytes(k) + (body + list);
    HeadReads(k.version, k.handle, body + list);
    BodyReads(k, list);
    LoadsBody(bytes, k.handle, BigEndian(4, k.handle) + (body + list), body + list, ReadBack(k), list);
  }

  /** A saved key loads again exactly when it is reloadable, and then as the same key. */
  lemma RecordRoundTrip(k: TpmKey)
    requires k.version == VERSION && RecordBytes(k).Ok?
    ensures LoadRecord(RecordBytes(k).value, k.handle).Ok? <==> Reloadable(k)
    ensures Reloadable(k) ==> SameKey(LoadRecord(RecordBytes(k).value, k.handle).value, k)
  {
    var bytes, list := RecordBytes(k).value, ListBytes(PolicyParts(k)).value;
    if |bytes| <= RECORD_SIZE_MAX {
      RecordLoads(k, bytes, list);
      PolicyReads(k);
    }
  }

  /** Whatever loads is what saving it again would write. */
  lemma RecordReproduces(buffer: seq<byte>, handle: u32)
    requires LoadRecord(buffer, handle).Ok?
    ensures var k := LoadRecord(buffer, handle).value;
            k.version == VERSION && k.handle == handle && RecordBytes(k) == Ok(buffer)
  {
    var version := DecodeInt(4, buffer).value;
    var number := DecodeInt(4, version.rest).value;
    DecodeIntInverse(4, buffer);
    DecodeIntInverse(4, version.rest);
    RecordBodyWellFormed();
    EncodeDecode(RECORD_BODY, 0, number.rest);
    var d := Decode(RECORD_BODY, 0, number.rest).value;
    FromPartsKeeps();
    ListReproduce(FromParts, PartOf, d.rest);
    var k := LoadRecord(buffer, handle).value;
    BodyDecodes(number.rest);
    assert BodyOf(k) == d.value;
    var body, list := Encode(RECORD_BODY, 0, d.value).value, ListBytes(PolicyParts(k)).value;
    assert list + [] == list;
    assert buffer == BigEndian(4, VERSION) + (BigEndian(4, handle) + (body + list));
    assert BigEndian(4, VERSION) + (BigEndian(4, handle) + (body + list)) == HeadBytes(k) + body + list;
  }
}
