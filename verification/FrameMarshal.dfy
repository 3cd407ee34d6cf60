/** The step-by-step frame marshallers and the authorization-area loop. */
module FrameMarshal {
  import opened Wrappers
  import opened Bytes
  import opened WireSchema
  import opened WireCodec
  import opened WireOutput
  import opened WireTypes
  import opened WireWriter
  import opened Frame

  // ----- what the marshallers put out -----

  function AuthOutput(tag: nat, sessions: seq<Value>): Output<TpmError>
    requires SessionsTyped(AUTH_COMMAND, sessions)
  {
    if tag == SESSIONS
    then Follow(All(BigEndian(4, LengthItems(AUTH_COMMAND, sessions))), OutputItems(AUTH_COMMAND, 0, sessions))
    else All([])
  }

  function CommandOutput(c: Body, tag: nat, sessions: seq<Value>): Output<TpmError>
    requires c.Typed() && SessionsTyped(AUTH_COMMAND, sessions)
  {
    if tag != NO_SESSIONS && tag != SESSIONS then Stop(InvalidTag)
    else if (tag == SESSIONS) == (sessions == []) then Stop(InvalidTag)
    else if |sessions| > MAX_SESSIONS then Stop(TooManyItems)
    else if CommandSize(c, tag, sessions) >= U32_COUNT then Stop(IntegerTooLarge)
    else Follow(All(Header(tag, CommandSize(c, tag, sessions), c.cc)), CommandBodyOutput(c, tag, sessions))
  }

  function CommandBodyOutput(c: Body, tag: nat, sessions: seq<Value>): Output<TpmError>
    requires c.Typed() && SessionsTyped(AUTH_COMMAND, sessions)
  {
    Follow(OutputItems(HANDLE, 0, c.handles), Follow(AuthOutput(tag, sessions), OutputOf(c.schema, 0, c.parameters)))
  }

  function ResponseOutput(b: Body, rc: nat, sessions: seq<Value>): Output<TpmError>
    requires b.Typed() && rc < U32_COUNT && SessionsTyped(AUTH_RESPONSE, sessions)
  {
    if |sessions| > MAX_SESSIONS then Stop(TooManyItems)
    else if rc != SUCCESS then
      if sessions != [] then Stop(InvalidTag) else All(Header(NO_SESSIONS, HEADER_SIZE, rc))
    else if ResponseSize(b, sessions) >= U32_COUNT then Stop(IntegerTooLarge)
    else
      var tag := if sessions == [] then NO_SESSIONS else SESSIONS;
      Follow(All(Header(tag, ResponseSize(b, sessions), rc)), ResponseBodyOutput(b, sessions))
  }

  function ResponseBodyOutput(b: Body, sessions: seq<Value>): Output<TpmError>
    requires b.Typed() && SessionsTyped(AUTH_RESPONSE, sessions)
  {
    Follow(OutputItems(HANDLE, 0, b.handles), ResponseTailOutput(b, sessions))
  }

  function ResponseTailOutput(b: Body, sessions: seq<Value>): Output<TpmError>
    requires b.Typed() && SessionsTyped(AUTH_RESPONSE, sessions)
  {
    Follow(All(ParameterSize(b, sessions)),
           Follow(OutputOf(b.schema, 0, b.parameters), OutputItems(AUTH_RESPONSE, 0, sessions)))
  }

  /** The parameter size, present when sessions follow the parameters. */
  function ParameterSize(b: Body, sessions: seq<Value>): seq<byte>
    requires b.Typed()
  {
    if sessions == [] then [] else BigEndian(4, Length(b.schema, b.parameters))
  }

  lemma AuthEncodes(tag: nat, sessions: seq<Value>)
    requires SessionsTyped(AUTH_COMMAND, sessions)
    ensures Encoding(AuthOutput(tag, sessions)) == AuthArea(tag, sessions)
  {
    OutputItemsEncode(AUTH_COMMAND, 0, sessions);
  }

  /** The output is the command frame, or is stopped by the error that building the frame reports. */
  lemma CommandEncodes(c: Body, tag: nat, sessions: seq<Value>)
    requires c.Typed() && SessionsTyped(AUTH_COMMAND, sessions)
    ensures Encoding(CommandOutput(c, tag, sessions)) == CommandBytes(c, tag, sessions)
  {
    var handles, auth, parameters :=
      OutputItems(HANDLE, 0, c.handles), AuthOutput(tag, sessions), OutputOf(c.schema, 0, c.parameters);
    OutputItemsEncode(HANDLE, 0, c.handles);
    AuthEncodes(tag, sessions);
    OutputEncodes(c.schema, 0, c.parameters);
    FollowEncodes(auth, parameters);
    FollowEncodes(handles, Follow(auth, parameters));
  }

  /** The same for responses. */
  lemma ResponseEncodes(b: Body, rc: nat, sessions: seq<Value>)
    requires b.Typed() && rc < U32_COUNT && SessionsTyped(AUTH_RESPONSE, sessions)
    ensures Encoding(ResponseOutput(b, rc, sessions)) == ResponseBytes(b, rc, sessions)
  {
    var handles, size := OutputItems(HANDLE, 0, b.handles), All<TpmError>(ParameterSize(b, sessions));
    var parameters, auth := OutputOf(b.schema, 0, b.parameters), OutputItems(AUTH_RESPONSE, 0, sessions);
    OutputItemsEncode(HANDLE, 0, b.handles);
    OutputEncodes(b.schema, 0, b.parameters);
    OutputItemsEncode(AUTH_RESPONSE, 0, sessions);
    FollowEncodes(parameters, auth);
    FollowEncodes(size, Follow(parameters, auth));
    FollowEncodes(handles, Follow(size, Follow(parameters, auth)));
  }

  // ----- the marshallers -----

  /** Writes a command frame, field by field. */
  method MarshalCommand(c: Body, tag: nat, sessions: seq<Value>, w: TpmWriter) returns (r: Result<Void, TpmError>)
    requires c.Typed() && SessionsTyped(AUTH_COMMAND, sessions) && w.Valid()
    modifies w`cursor, w.buffer
    ensures w.Valid()
    ensures Wrote(old(TapeOf(w)), TapeOf(w), CommandOutput(c, tag, sessions), BufferOverflow, r)
    ensures Encoding(CommandOutput(c, tag, sessions)) == CommandBytes(c, tag, sessions)
  {
    CommandEncodes(c, tag, sessions);
    if tag != NO_SESSIONS && tag != SESSIONS {
      return Err(InvalidTag);
    }
    if (tag == SESSIONS) == (sessions == []) {
      return Err(InvalidTag);
    }
    if |sessions| > MAX_SESSIONS {
      return Err(TooManyItems);
    }
    var size := CommandSize(c, tag, sessions);
    if size >= U32_COUNT {
      return Err(IntegerTooLarge);
    }
    ghost var start := TapeOf(w);
    r := w.WriteBytes(Header(tag, size, c.cc));
    ghost var mid, first := TapeOf(w), r;
    if r.Ok? {
      r := MarshalCommandBody(c, tag, sessions, w);
    }
    WroteBoth(start, mid, TapeOf(w), All(Header(tag, size, c.cc)), CommandBodyOutput(c, tag, sessions),
              BufferOverflow, first, r);
  }

  method MarshalCommandBody(c: Body, tag: nat, sessions: seq<Value>, w: TpmWriter) returns (r: Result<Void, TpmError>)
    requires c.Typed() && SessionsTyped(AUTH_COMMAND, sessions) && w.Valid()
    modifies w`cursor, w.buffer
    ensures w.Valid()
    ensures Wrote(old(TapeOf(w)), TapeOf(w), CommandBodyOutput(c, tag, sessions), BufferOverflow, r)
  {
    ghost var handles, auth := OutputItems(HANDLE, 0, c.handles), AuthOutput(tag, sessions);
    ghost var parameters := OutputOf(c.schema, 0, c.parameters);
    ghost var start := TapeOf(w);
    r := MarshalEach(HANDLE, 0, c.handles, w);
    ghost var mid, first := TapeOf(w), r;
    if r.Ok? {
      r := MarshalAuthArea(tag, sessions, w);
    }
    WroteBoth(start, mid, TapeOf(w), handles, auth, BufferOverflow, first, r);
    mid, first := TapeOf(w), r;
    if r.Ok? {
      r := Marshal(c.schema, 0, c.parameters, w);
    }
    WroteBoth(start, mid, TapeOf(w), Follow(handles, auth), parameters, BufferOverflow, first, r);
    FollowAssociative(handles, auth, parameters);
  }

  method MarshalAuthArea(tag: nat, sessions: seq<Value>, w: TpmWriter) returns (r: Result<Void, TpmError>)
    requires SessionsTyped(AUTH_COMMAND, sessions) && w.Valid()
    modifies w`cursor, w.buffer
    ensures w.Valid()
    ensures Wrote(old(TapeOf(w)), TapeOf(w), AuthOutput(tag, sessions), BufferOverflow, r)
  {
    if tag != SESSIONS {
      return Ok(Void);
    }
    var size := BigEndian(4, LengthItems(AUTH_COMMAND, sessions));
    ghost var start := TapeOf(w);
    r := w.WriteBytes(size);
    ghost var mid, first := TapeOf(w), r;
    if r.Ok? {
      r := MarshalEach(AUTH_COMMAND, 0, sessions, w);
    }
    WroteBoth(start, mid, TapeOf(w), All(size), OutputItems(AUTH_COMMAND, 0, sessions), BufferOverflow, first, r);
  }

  /** Writes a response frame, field by field. */
  method MarshalResponse(b: Body, rc: nat, sessions: seq<Value>, w: TpmWriter) returns (r: Result<Void, TpmError>)
    requires b.Typed() && rc < U32_COUNT && SessionsTyped(AUTH_RESPONSE, sessions) && w.Valid()
    modifies w`cursor, w.buffer
    ensures w.Valid()
    ensures Wrote(old(TapeOf(w)), TapeOf(w), ResponseOutput(b, rc, sessions), BufferOverflow, r)
    ensures Encoding(ResponseOutput(b, rc, sessions)) == ResponseBytes(b, rc, sessions)
  {
    ResponseEncodes(b, rc, sessions);
    if |sessions| > MAX_SESSIONS {
      return Err(TooManyItems);
    }
    if rc != SUCCESS {
      if sessions != [] {
        return Err(InvalidTag);
      }
      r := w.WriteBytes(Header(NO_SESSIONS, HEADER_SIZE, rc));
      return;
    }
    var tag := if sessions == [] then NO_SESSIONS else SESSIONS;
    if ResponseSize(b, sessions) >= U32_COUNT {
      return Err(IntegerTooLarge);
    }
    var header := Header(tag, ResponseSize(b, sessions), rc);
    ghost var start := TapeOf(w);
    r := w.WriteBytes(header);
    ghost var mid, first := TapeOf(w), r;
    if r.Ok? {
      r := MarshalResponseBody(b, sessions, w);
    }
    WroteBoth(start, mid, TapeOf(w), All(header), ResponseBodyOutput(b, sessions), BufferOverflow, first, r);
  }

  method MarshalResponseBody(b: Body, sessions: seq<Value>, w: TpmWriter) returns (r: Result<Void, TpmError>)
    requires b.Typed() && SessionsTyped(AUTH_RESPONSE, sessions) && w.Valid()
    modifies w`cursor, w.buffer
    ensures w.Valid()
    ensures Wrote(old(TapeOf(w)), TapeOf(w), ResponseBodyOutput(b, sessions), BufferOverflow, r)
  {
    ghost var start := TapeOf(w);
    r := MarshalEach(HANDLE, 0, b.handles, w);
    ghost var mid, first := TapeOf(w), r;
    if r.Ok? {
      r := MarshalResponseTail(b, sessions, w);
    }
    WroteBoth(start, mid, TapeOf(w), OutputItems(HANDLE, 0, b.handles), ResponseTailOutput(b, sessions),
              BufferOverflow, first, r);
  }

  method MarshalResponseTail(b: Body, sessions: seq<Value>, w: TpmWriter) returns (r: Result<Void, TpmError>)
    requires b.Typed() && SessionsTyped(AUTH_RESPONSE, sessions) && w.Valid()
    modifies w`cursor, w.buffer
    ensures w.Valid()
    ensures Wrote(old(TapeOf(w)), TapeOf(w), ResponseTailOutput(b, sessions), BufferOverflow, r)
  {
    var size := ParameterSize(b, sessions);
    ghost var start := TapeOf(w);
    r := w.WriteBytes(size);
    ghost var mid, first := TapeOf(w), r;
    if r.Ok? {
      r := MarshalParametersAndSessions(b, sessions, w);
    }
    WroteBoth(start, mid, TapeOf(w), All(size),
              Follow(OutputOf(b.schema, 0, b.parameters),
                     OutputItems(AUTH_RESPONSE, 0, sessions)), BufferOverflow, first, r);
  }

  method MarshalParametersAndSessions(b: Body, sessions: seq<Value>, w: TpmWriter) returns (r: Result<Void, TpmError>)
    requires b.Typed() && SessionsTyped(AUTH_RESPONSE, sessions) && w.Valid()
    modifies w`cursor, w.buffer
    ensures w.Valid()
    ensures Wrote(old(TapeOf(w)), TapeOf(w),
                  Follow(OutputOf(b.schema, 0, b.parameters),
                         OutputItems(AUTH_RESPONSE, 0, sessions)), BufferOverflow, r)
  {
    ghost var start := TapeOf(w);
    r := Marshal(b.schema, 0, b.parameters, w);
    ghost var mid, first := TapeOf(w), r;
    if r.Ok? {
      r := MarshalEach(AUTH_RESPONSE, 0, sessions, w);
    }
    WroteBoth(start, mid, TapeOf(w), OutputOf(b.schema, 0, b.parameters), OutputItems(AUTH_RESPONSE, 0, sessions),
              BufferOverflow, first, r);
  }

  /** Walks an authorization area session by session. */
  method ValidateAuthArea(handleWidth: nat, area: seq<byte>) returns (r: Result<Void, TpmError>)
    ensures r == CheckSessions(handleWidth, 0, area)
  {
    var buf, count := area, 0;
    while buf != []
      invariant 0 <= count <= MAX_SESSIONS
      invariant CheckSessions(handleWidth, 0, area) == CheckSessions(handleWidth, count, buf)
      decreases |buf|
    {
      if count >= MAX_SESSIONS {
        return Err(TooManyItems);
      }
      var rest := SkipSession(handleWidth, buf);
      if rest.Err? {
        return Err(rest.error);
      }
      buf, count := rest.value, count + 1;
    }
    return Ok(Void);
  }
}
