/**
  Command and response frames: marshalling, the zero-copy envelope checks, the
  areas a frame splits into, and unmarshalling (Part 1, section 18 of the TPM
  2.0 Library Specification).
 */
module Frame {
  import opened Wrappers
  import opened Bytes
  import opened WireSchema
  import opened WireCodec
  import opened WireTypes
  import opened WireWriter

  const HEADER_SIZE: nat := 10
  const MAX_SESSIONS: nat := 8
  const NO_SESSIONS: nat := 0x8001
  const SESSIONS: nat := 0x8002
  const SUCCESS: nat := 0

  const HANDLE: Schema := UInt(4)

  /** The handle counts of one dispatch-table entry. */
  datatype Dispatch = Dispatch(handles: nat, responseHandles: nat)

  /** The dispatch table, and the response codes that TPM_RC accepts. */
  datatype Protocol = Protocol(table: map<nat, Dispatch>, isRc: nat -> bool)

  /** A command or response body: its code, handles and typed parameters. */
  datatype Body = Body(cc: nat, handles: seq<Value>, schema: Schema, parameters: Value) {
    ghost predicate Typed() {
      && cc < U32_COUNT
      && (forall h <- handles :: WireSchema.Typed(HANDLE, h))
      && WellFormed(schema)
      && WireSchema.Typed(schema, parameters)
    }
  }

  ghost predicate SessionsTyped(session: Schema, sessions: seq<Value>) {
    forall s <- sessions :: WireSchema.Typed(session, s)
  }

  // ----- marshal -----

  function Header(tag: nat, size: nat, code: nat): (h: seq<byte>)
    ensures |h| == HEADER_SIZE
  {
    BigEndian(2, tag) + BigEndian(4, size) + BigEndian(4, code)
  }

  /** The authorization area of a command: a size, then the sessions. */
  function AuthArea(tag: nat, sessions: seq<Value>): Result<seq<byte>, TpmError>
    requires SessionsTyped(AUTH_COMMAND, sessions)
  {
    if tag == SESSIONS
    then Concat(Ok(BigEndian(4, LengthItems(AUTH_COMMAND, sessions))), EncodeItems(AUTH_COMMAND, 0, sessions))
    else Ok([])
  }

  function CommandSize(c: Body, tag: nat, sessions: seq<Value>): nat
    requires c.Typed() && SessionsTyped(AUTH_COMMAND, sessions)
  {
    HEADER_SIZE + LengthItems(HANDLE, c.handles) + Length(c.schema, c.parameters)
    + if tag == SESSIONS then 4 + LengthItems(AUTH_COMMAND, sessions) else 0
  }

  /** What `tpm_marshal_command` writes. */
  function CommandBytes(c: Body, tag: nat, sessions: seq<Value>): Result<seq<byte>, TpmError>
    requires c.Typed() && SessionsTyped(AUTH_COMMAND, sessions)
  {
    if tag != NO_SESSIONS && tag != SESSIONS then Err(InvalidTag)
    else if (tag == SESSIONS) == (sessions == []) then Err(InvalidTag)
    else if |sessions| > MAX_SESSIONS then Err(TooManyItems)
    else if CommandSize(c, tag, sessions) >= U32_COUNT then Err(IntegerTooLarge)
    else
      Concat(Ok(Header(tag, CommandSize(c, tag, sessions), c.cc)),
             Concat(EncodeItems(HANDLE, 0, c.handles),
                    Concat(AuthArea(tag, sessions), Encode(c.schema, 0, c.parameters))))
  }

  function ResponseSize(r: Body, sessions: seq<Value>): nat
    requires r.Typed() && SessionsTyped(AUTH_RESPONSE, sessions)
  {
    HEADER_SIZE + LengthItems(HANDLE, r.handles) + (if sessions == [] then 0 else 4)
    + Length(r.schema, r.parameters) + LengthItems(AUTH_RESPONSE, sessions)
  }

  /** What `tpm_marshal_response` writes: a bare header unless the code is success. */
  function ResponseBytes(r: Body, rc: nat, sessions: seq<Value>): Result<seq<byte>, TpmError>
    requires r.Typed() && rc < U32_COUNT && SessionsTyped(AUTH_RESPONSE, sessions)
  {
    if |sessions| > MAX_SESSIONS then Err(TooManyItems)
    else if rc != SUCCESS then
      if sessions != [] then Err(InvalidTag) else Ok(Header(NO_SESSIONS, HEADER_SIZE, rc))
    else if ResponseSize(r, sessions) >= U32_COUNT then Err(IntegerTooLarge)
    else
      var tag := if sessions == [] then NO_SESSIONS else SESSIONS;
      var size := if sessions == [] then [] else BigEndian(4, Length(r.schema, r.parameters));
      Concat(Ok(Header(tag, ResponseSize(r, sessions), rc)),
             Concat(EncodeItems(HANDLE, 0, r.handles),
                    Concat(Ok(size), Concat(Encode(r.schema, 0, r.parameters),
                                            EncodeItems(AUTH_RESPONSE, 0, sessions)))))
  }

  // ----- validate -----

  function Read(width: nat, buf: seq<byte>, offset: nat): nat
    requires offset + width <= |buf|
  {
    FromBigEndian(buf[offset..offset + width])
  }

  function Tag(buf: seq<byte>): nat
    requires |buf| >= HEADER_SIZE
  {
    Read(2, buf, 0)
  }

  function Code(buf: seq<byte>): nat
    requires |buf| >= HEADER_SIZE
  {
    Read(4, buf, 6)
  }

  /** The frame occupies the whole buffer, and its tag is one a frame can have. */
  function CheckHeader(buf: seq<byte>): (r: Result<Void, TpmError>)
    ensures r.Ok? ==> |buf| >= HEADER_SIZE
  {
    if |buf| < HEADER_SIZE then Err(UnexpectedEnd)
    else
      var size := Read(4, buf, 2);
      if size < HEADER_SIZE || |buf| < size then Err(UnexpectedEnd)
      else if |buf| > size then Err(TrailingData)
      else if Tag(buf) != NO_SESSIONS && Tag(buf) != SESSIONS then Err(InvalidTag)
      else Ok(Void)
  }

  /** Offsets that cut a frame: handles, then a counted area, then the rest. */
  datatype Areas = Areas(handlesEnd: nat, countedStart: nat, countedEnd: nat)

  /** Cuts a frame after `handles` handles; a sessions tag announces a counted area. */
  function Cut(buf: seq<byte>, handles: nat): (r: Result<Areas, TpmError>)
    requires |buf| >= HEADER_SIZE
    ensures r.Ok? ==> r.value.handlesEnd <= r.value.countedStart <= r.value.countedEnd <= |buf|
  {
    var start := HEADER_SIZE + 4 * handles;
    if |buf| < start then Err(UnexpectedEnd)
    else if Tag(buf) != SESSIONS then Ok(Areas(start, start, start))
    else if |buf| < start + 4 then Err(UnexpectedEnd)
    else
      var n := Read(4, buf, start);
      if |buf| < start + 4 + n then Err(UnexpectedEnd) else Ok(Areas(start, start + 4, start + 4 + n))
  }

  /** `TpmCommand::cast`, giving the areas of the frame. */
  function CastCommand(p: Protocol, buf: seq<byte>): (r: Result<Areas, TpmError>)
    ensures r.Ok? ==> |buf| >= HEADER_SIZE && r.value.handlesEnd <= r.value.countedStart <= r.value.countedEnd <= |buf|
  {
    match CheckHeader(buf)
    case Err(e) => Err(e)
    case Ok(_) => if Code(buf) !in p.table then Err(InvalidCc) else Cut(buf, p.table[Code(buf)].handles)
  }

  function SkipBuffer(b: seq<byte>): (r: Result<seq<byte>, TpmError>)
    ensures r.Ok? ==> |r.value| < |b|
  {
    if |b| < 2 || |b| < 2 + Read(2, b, 0) then Err(UnexpectedEnd) else Ok(b[2 + Read(2, b, 0)..])
  }

  /** Skips one session: a handle in a command, then nonce, attributes and HMAC. */
  function SkipSession(handleWidth: nat, b: seq<byte>): (r: Result<seq<byte>, TpmError>)
    ensures r.Ok? ==> |r.value| < |b|
  {
    if |b| < handleWidth then Err(UnexpectedEnd)
    else
      match SkipBuffer(b[handleWidth..])
      case Err(e) => Err(e)
      case Ok(c) => if c == [] then Err(UnexpectedEnd) else SkipBuffer(c[1..])
  }

  /** At most eight sessions, and nothing after them. */
  function CheckSessions(handleWidth: nat, count: nat, b: seq<byte>): Result<Void, TpmError>
    decreases |b|
  {
    if b == [] then Ok(Void)
    else if count >= MAX_SESSIONS then Err(TooManyItems)
    else
      match SkipSession(handleWidth, b)
      case Err(e) => Err(e)
      case Ok(c) => CheckSessions(handleWidth, count + 1, c)
  }

  /** `TpmCommand::validate`, on a frame that was cast. */
  function ValidateCommand(p: Protocol, buf: seq<byte>): (r: Result<Areas, TpmError>)
    ensures r.Ok? ==> CastCommand(p, buf) == r
  {
    match CastCommand(p, buf)
    case Err(e) => Err(e)
    case Ok(a) =>
      match CheckSessions(4, 0, buf[a.countedStart..a.countedEnd])
      case Err(e) => Err(e)
      case Ok(_) => Ok(a)
  }

  function CastResponse(p: Protocol, buf: seq<byte>): (r: Result<Void, TpmError>)
    ensures r.Ok? ==> |buf| >= HEADER_SIZE
  {
    match CheckHeader(buf)
    case Err(e) => Err(e)
    case Ok(_) => if p.isRc(Code(buf)) then Ok(Void) else Err(InvalidRc)
  }

  /** `TpmResponse::validate` for the command code `cc`. */
  function ValidateResponse(p: Protocol, cc: nat, buf: seq<byte>): (r: Result<Void, TpmError>)
    ensures r.Ok? ==> |buf| >= HEADER_SIZE
  {
    match CastResponse(p, buf)
    case Err(e) => Err(e)
    case Ok(_) =>
      if cc !in p.table then Err(InvalidCc)
      else if Code(buf) != SUCCESS then
        if Tag(buf) != NO_SESSIONS then Err(InvalidTag)
        else if |buf| != HEADER_SIZE then Err(TrailingData)
        else Ok(Void)
      else
        match Cut(buf, p.table[cc].responseHandles)
        case Err(e) => Err(e)
        case Ok(a) => if Tag(buf) != SESSIONS then Ok(Void) else CheckSessions(0, 0, buf[a.countedEnd..])
  }

  // ----- unmarshal -----

  datatype Unmarshalled = Unmarshalled(handles: seq<Value>, parameters: Value)

  /** Both areas decode, and neither has anything left over. */
  function UnmarshalBody(count: nat, schema: Schema, handles: seq<byte>, parameters: seq<byte>)
    : Result<Unmarshalled, TpmError>
  {
    match DecodeItems(HANDLE, 0, count, handles)
    case Err(e) => Err(e)
    case Ok(h) =>
      if h.rest != [] then Err(TrailingData)
      else
        match Decode(schema, 0, parameters)
        case Err(e) => Err(e)
        case Ok(d) => if d.rest != [] then Err(TrailingData) else Ok(Unmarshalled(h.values, d.value))
  }

  /** Reads a command of code `cc` with `count` handles. */
  function UnmarshalCommand(p: Protocol, cc: nat, count: nat, schema: Schema, buf: seq<byte>)
    : Result<Unmarshalled, TpmError>
  {
    match ValidateCommand(p, buf)
    case Err(e) => Err(e)
    case Ok(a) =>
      if Code(buf) != cc then Err(InvalidCc)
      else UnmarshalBody(count, schema, buf[HEADER_SIZE..a.handlesEnd], buf[a.countedEnd..])
  }

  /** Reads a response to `cc` with `count` handles; with sessions the parameters are the counted area. */
  function UnmarshalResponse(p: Protocol, cc: nat, count: nat, schema: Schema, buf: seq<byte>)
    : Result<Unmarshalled, TpmError>
  {
    match ValidateResponse(p, cc, buf)
    case Err(e) => Err(e)
    case Ok(_) =>
      match Cut(buf, count)
      case Err(e) => Err(e)
      case Ok(a) =>
        UnmarshalBody(count, schema, buf[HEADER_SIZE..a.handlesEnd],
                      if Tag(buf) == SESSIONS then buf[a.countedStart..a.countedEnd] else buf[a.countedEnd..])
  }
}
