/** Policy steps of a cache record, and reading one back from its command code and body. */
module VtpmPolicy {
  import opened Wrappers
  import opened Bytes
  import opened WireSchema
  import opened WireTypes
  import opened WireCodec
  import opened WireTheorems
  import opened WireValues
  import opened VtpmPolicyList

  const BODY_MAX: nat := 4096

  /** A policy step; two of the three kinds keep their parameters in structured form. */
  datatype PolicyStep =
    | DefaultStep(cc: Cc, body: seq<byte>)
    | AuthorizeStep(authorize: AuthorizeParms)
    | SecretStep(secret: SecretParms)

  function StepCc(step: PolicyStep): Cc {
    match step
    case DefaultStep(cc, _) => cc
    case AuthorizeStep(_) => CC_POLICY_AUTHORIZE
    case SecretStep(_) => CC_POLICY_SECRET
  }

  /** The marshalled body; a structure that does not marshal has an empty one. */
  function StepBody(step: PolicyStep): seq<byte>
  {
    match step
    case DefaultStep(_, body) => body
    case AuthorizeStep(v) => BodyBytes(Encode(POLICY_AUTHORIZE_STEP, 0, v))
    case SecretStep(v) => BodyBytes(Encode(POLICY_SECRET_STEP, 0, v))
  }

  function BodyBytes(encoded: Result<seq<byte>, TpmError>): seq<byte> {
    if encoded.Err? || |encoded.value| > BODY_MAX then [] else encoded.value
  }

  /** Command code, size and body, as `len` counts them. */
  function StepLen(step: PolicyStep): nat
  {
    8 + match step
        case DefaultStep(_, body) => |body|
        case AuthorizeStep(v) => Length(POLICY_AUTHORIZE_STEP, v)
        case SecretStep(v) => Length(POLICY_SECRET_STEP, v)
  }

  function PartOf(step: PolicyStep): Part {
    Part(StepCc(step), StepBody(step))
  }

  // ----- from parts -----

  /** The parameters a policy command may carry in a record. */
  function StepSchema(cc: nat): Option<Schema> {
    if cc in {CC_POLICY_AUTH_VALUE, CC_POLICY_PASSWORD, CC_POLICY_GET_DIGEST, CC_POLICY_RESTART,
              CC_POLICY_PHYSICAL_PRESENCE} then Some(Empty)
    else if cc == CC_POLICY_AUTHORIZE then Some(POLICY_AUTHORIZE_STEP)
    else if cc == CC_POLICY_SECRET then Some(POLICY_SECRET_STEP)
    else if cc == CC_POLICY_PCR then Some(POLICY_PCR_STEP)
    else if cc == CC_POLICY_OR then Some(DIGESTS)
    else if cc == CC_POLICY_COMMAND_CODE then Some(CC)
    else if cc in {CC_POLICY_CP_HASH, CC_POLICY_NAME_HASH, CC_POLICY_TEMPLATE} then Some(DIGEST)
    else if cc == CC_POLICY_NV_WRITTEN then Some(Bool)
    else if cc == CC_POLICY_COUNTER_TIMER then Some(POLICY_COUNTER_TIMER_STEP)
    else None
  }

  function FromParts(part: Part): Result<PolicyStep, VtpmError> {
    match StepSchema(part.cc)
    case None => Err(VtpmError.InvalidCc(part.cc))
    case Some(schema) =>
      match Decode(schema, 0, part.body)
      case Err(e) => Err(Unmarshal(e))
      case Ok(d) =>
        if d.rest != [] then Err(InvalidPolicy)
        else if part.cc == CC_POLICY_AUTHORIZE then
          AuthorizeWellFormed();
          EncodeDecode(POLICY_AUTHORIZE_STEP, 0, part.body);
          Ok(AuthorizeStep(d.value))
        else if part.cc == CC_POLICY_SECRET then
          PolicyStepsWellFormed();
          EncodeDecode(POLICY_SECRET_STEP, 0, part.body);
          Ok(SecretStep(d.value))
        else Ok(DefaultStep(part.cc, part.body))
  }

  lemma BodyReproduced(schema: Schema, body: seq<byte>)
    requires WellFormed(schema) && MaxLen(schema) <= BODY_MAX
    requires Decode(schema, 0, body).Ok? && Decode(schema, 0, body).value.rest == []
    ensures var v := Decode(schema, 0, body).value.value;
            Typed(schema, v) && BodyBytes(Encode(schema, 0, v)) == body
  {
    EncodeDecode(schema, 0, body);
    var v := Decode(schema, 0, body).value.value;
    assert body == Encode(schema, 0, v).value + [];
    EncodeLength(schema, 0, v);
    LengthBound(schema, v);
  }

  /** A step read from parts has exactly those parts. */
  lemma FromPartsInverse(part: Part)
    requires FromParts(part).Ok?
    ensures PartOf(FromParts(part).value) == part
  {
    PolicyStepsFit();
    if part.cc == CC_POLICY_AUTHORIZE {
      AuthorizeWellFormed();
      BodyReproduced(POLICY_AUTHORIZE_STEP, part.body);
    } else if part.cc == CC_POLICY_SECRET {
      PolicyStepsWellFormed();
      BodyReproduced(POLICY_SECRET_STEP, part.body);
    }
  }

  /** The structure of the step, if it has one, can be serialized. */
  predicate Marshals(step: PolicyStep) {
    match step
    case DefaultStep(_, _) => true
    case AuthorizeStep(v) => Encode(POLICY_AUTHORIZE_STEP, 0, v).Ok?
    case SecretStep(v) => Encode(POLICY_SECRET_STEP, 0, v).Ok?
  }

  /** A serialized step is never longer than its length says, and as long exactly when its structure marshals. */
  lemma StepLenExact(step: PolicyStep)
    ensures |PartBytes(PartOf(step))| <= StepLen(step)
    ensures Marshals(step) ==> |PartBytes(PartOf(step))| == StepLen(step)
  {
    PolicyStepsFit();
    match step
    case DefaultStep(_, _) =>
    case AuthorizeStep(v) => BodyLength(POLICY_AUTHORIZE_STEP, v);
    case SecretStep(v) => BodyLength(POLICY_SECRET_STEP, v);
  }

  /**
    A step that a record can be loaded with: its structure marshals, or its code is
    supported and its body is whole.
   */
  predicate Readable(step: PolicyStep) {
    match step
    case DefaultStep(cc, body) => StepSchema(cc).Some? && Whole(StepSchema(cc).value, body)
    case AuthorizeStep(_) => Marshals(step)
    case SecretStep(_) => Marshals(step)
  }

  predicate Whole(schema: Schema, body: seq<byte>) {
    var d := Decode(schema, 0, body);
    d.Ok? && d.value.rest == []
  }

  /** The loader accepts the parts of exactly these steps. */
  lemma StepReadable(step: PolicyStep)
    ensures FromParts(PartOf(step)).Ok? <==> Readable(step)
  {
    match step
    case DefaultStep(_, _) =>
    case AuthorizeStep(v) => AuthorizeWhole(v);
    case SecretStep(v) => SecretWhole(v);
  }

  lemma AuthorizeWhole(v: AuthorizeParms)
    ensures Whole(POLICY_AUTHORIZE_STEP, BodyBytes(Encode(POLICY_AUTHORIZE_STEP, 0, v)))
            <==> Encode(POLICY_AUTHORIZE_STEP, 0, v).Ok?
  {
    PolicyStepsFit();
    AuthorizeWellFormed();
    BodyWhole(POLICY_AUTHORIZE_STEP, v);
  }

  lemma SecretWhole(v: SecretParms)
    ensures Whole(POLICY_SECRET_STEP, BodyBytes(Encode(POLICY_SECRET_STEP, 0, v)))
            <==> Encode(POLICY_SECRET_STEP, 0, v).Ok?
  {
    PolicyStepsFit();
    PolicyStepsWellFormed();
    BodyWhole(POLICY_SECRET_STEP, v);
  }

  /** A structure that takes room decodes from its body exactly when it marshals. */
  lemma BodyWhole(schema: Schema, v: Value)
    requires WellFormed(schema) && Typed(schema, v) && MaxLen(schema) <= BODY_MAX && Decode(schema, 0, []).Err?
    ensures Whole(schema, BodyBytes(Encode(schema, 0, v))) <==> Encode(schema, 0, v).Ok?
  {
    if Encode(schema, 0, v).Ok? {
      MarshalledWhole(schema, v);
    }
  }

  lemma MarshalledWhole(schema: Schema, v: Value)
    requires WellFormed(schema) && Typed(schema, v) && Encode(schema, 0, v).Ok?
    ensures Whole(schema, Encode(schema, 0, v).value) && |Encode(schema, 0, v).value| <= MaxLen(schema)
  {
    var bytes := Encode(schema, 0, v).value;
    DecodeEncode(schema, 0, v, []);
    assert bytes + [] == bytes;
    EncodeLength(schema, 0, v);
    LengthBound(schema, v);
  }

  lemma BodyLength(schema: Schema, v: Value)
    requires Typed(schema, v) && MaxLen(schema) <= BODY_MAX
    ensures var encoded := Encode(schema, 0, v);
            && |BodyBytes(encoded)| <= Length(schema, v)
            && (encoded.Ok? ==> |BodyBytes(encoded)| == Length(schema, v))
  {
    EncodeLength(schema, 0, v);
    LengthBound(schema, v);
  }
}
