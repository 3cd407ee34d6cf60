/**
  Marshalling what was unmarshalled. A frame that unmarshals is one that marshalling can
  produce exactly when its sessions tag goes with sessions, and these are no longer than
  the marshaller's: validation asks for neither.
 */
module FrameReproduction {
  import opened Wrappers
  import opened Bytes
  import opened WireSchema
  import opened WireCodec
  import opened WireTypes
  import opened WireTheorems
  import opened Frame
  import opened FrameTheorems

  // ----- session areas -----

  /** The area decodes, to its end, as sessions one after the other. */
  predicate ReadsAs(session: Schema, b: seq<byte>)
    decreases |b|
  {
    || b == []
    || match Decode(session, 0, b)
       case Err(_) => false
       case Ok(d) => |d.rest| < |b| && ReadsAs(session, d.rest)
  }

  predicate IsSession(session: Schema, handleWidth: nat) {
    (session == AUTH_COMMAND && handleWidth == 4) || (session == AUTH_RESPONSE && handleWidth == 0)
  }

  lemma {:induction false} ReadsAsSound(session: Schema, b: seq<byte>) returns (vs: seq<Value>)
    requires WellFormed(session) && ReadsAs(session, b)
    ensures SessionsTyped(session, vs) && EncodeItems(session, 0, vs) == Ok(b)
    decreases |b|
  {
    if b == [] {
      vs := [];
    } else {
      var d := Decode(session, 0, b).value;
      EncodeDecode(session, 0, b);
      var tail := ReadsAsSound(session, d.rest);
      vs := [d.value] + tail;
      EncodeItemsCons(session, d.value, tail);
    }
  }

  lemma SessionNotEmpty(session: Schema, handleWidth: nat, v: Value)
    requires IsSession(session, handleWidth) && Typed(session, v)
    ensures Encode(session, 0, v).Ok? && |Encode(session, 0, v).value| > 0
  {
    if handleWidth == 4 {
      CommandSessionIsRaw(v);
    } else {
      TailIsRaw(v);
    }
  }

  lemma {:induction false} ReadsAsComplete(session: Schema, handleWidth: nat, vs: seq<Value>)
    requires IsSession(session, handleWidth) && WellFormed(session) && SessionsTyped(session, vs)
    requires EncodeItems(session, 0, vs).Ok?
    ensures ReadsAs(session, EncodeItems(session, 0, vs).value)
    ensures vs != [] ==> EncodeItems(session, 0, vs).value != []
    decreases |vs|
  {
    if vs != [] {
      var x, y := Encode(session, 0, vs[0]).value, EncodeItems(session, 0, vs[1..]).value;
      SessionNotEmpty(session, handleWidth, vs[0]);
      DecodeEncode(session, 0, vs[0], y);
      ReadsAsComplete(session, handleWidth, vs[1..]);
    }
  }

  /** An area reads as sessions exactly when it is an encoding of some. */
  lemma ReadsAsExactly(session: Schema, handleWidth: nat, b: seq<byte>)
    requires IsSession(session, handleWidth)
    ensures ReadsAs(session, b) <==> exists vs :: SessionsTyped(session, vs) && EncodeItems(session, 0, vs) == Ok(b)
  {
    StructuresWellFormed();
    if ReadsAs(session, b) {
      var vs := ReadsAsSound(session, b);
    }
    if vs :| SessionsTyped(session, vs) && EncodeItems(session, 0, vs) == Ok(b) {
      ReadsAsComplete(session, handleWidth, vs);
    }
  }

  lemma SessionSkipped(handleWidth: nat, v: Value, rest: seq<byte>)
    requires Typed(RawSession(handleWidth), v) && Encode(RawSession(handleWidth), 0, v).Ok?
    ensures SkipSession(handleWidth, Encode(RawSession(handleWidth), 0, v).value + rest) == Ok(rest)
  {
    RawSessionWellFormed(handleWidth);
    DecodeEncode(RawSession(handleWidth), 0, v, rest);
    SkipSessionDecodes(handleWidth, Encode(RawSession(handleWidth), 0, v).value + rest);
  }

  lemma SessionCounted(handleWidth: nat, count: nat, b: seq<byte>, rest: seq<byte>)
    requires b != [] && SkipSession(handleWidth, b) == Ok(rest) && CheckSessions(handleWidth, count, b).Ok?
    ensures count < MAX_SESSIONS && CheckSessions(handleWidth, count + 1, rest).Ok?
  {
  }

  /** The validator counts the sessions. */
  lemma {:induction false} SessionsCounted(handleWidth: nat, count: nat, vs: seq<Value>, b: seq<byte>)
    requires count <= MAX_SESSIONS && CheckSessions(handleWidth, count, b).Ok?
    requires SessionsTyped(RawSession(handleWidth), vs) && EncodeItems(RawSession(handleWidth), 0, vs) == Ok(b)
    ensures count + |vs| <= MAX_SESSIONS
    decreases |vs|
  {
    if vs != [] {
      var s := RawSession(handleWidth);
      var x, y := Encode(s, 0, vs[0]).value, EncodeItems(s, 0, vs[1..]).value;
      SessionSkipped(handleWidth, vs[0], y);
      assert b == x + y;
      SessionCounted(handleWidth, count, b, y);
      SessionsCounted(handleWidth, count + 1, vs[1..], y);
    }
  }

  /** An area that validates and reads as sessions is the encoding of at most eight. */
  lemma SessionsOf(session: Schema, handleWidth: nat, b: seq<byte>) returns (vs: seq<Value>)
    requires IsSession(session, handleWidth) && ReadsAs(session, b) && CheckSessions(handleWidth, 0, b).Ok?
    ensures SessionsTyped(session, vs) && EncodeItems(session, 0, vs) == Ok(b) && |vs| <= MAX_SESSIONS
    ensures LengthItems(session, vs) == |b| && (b == [] <==> vs == [])
  {
    StructuresWellFormed();
    vs := ReadsAsSound(session, b);
    SessionsAreRaw(session, handleWidth, vs);
    SessionsCounted(handleWidth, 0, vs, b);
    SessionsPass(session, handleWidth, vs);
    ReadsAsComplete(session, handleWidth, vs);
  }

  // ----- frames -----

  /** The header of a frame whose size field states its length. */
  lemma HeaderReproduces(buf: seq<byte>)
    requires CheckHeader(buf).Ok?
    ensures |buf| < U32_COUNT && Code(buf) < U32_COUNT && Header(Tag(buf), |buf|, Code(buf)) == buf[..HEADER_SIZE]
  {
    Pow256Values();
    FromBigEndianBound(buf[2..6]);
    FromBigEndianBound(buf[6..10]);
    FromBigEndianRoundTrip(buf[0..2]);
    FromBigEndianRoundTrip(buf[2..6]);
    FromBigEndianRoundTrip(buf[6..10]);
    assert buf[..HEADER_SIZE] == buf[0..2] + buf[2..6] + buf[6..10];
  }

  /** The size of a frame with areas of these sizes. */
  function SizeOf(tag: nat, handles: nat, counted: nat, rest: nat): nat {
    HEADER_SIZE + handles + (if tag == SESSIONS then 4 + counted else 0) + rest
  }

  /** A frame with these areas, whose size field states its length. */
  function FrameOf(tag: nat, code: nat, handles: seq<byte>, counted: seq<byte>, rest: seq<byte>): seq<byte> {
    Layout(tag, SizeOf(tag, |handles|, |counted|, |rest|), code, handles, counted, rest)
  }

  /** A frame that can be cut is laid out from its areas. */
  lemma FrameIsLayout(buf: seq<byte>, handles: nat)
    requires CheckHeader(buf).Ok? && Cut(buf, handles).Ok?
    ensures var a := Cut(buf, handles).value;
            && HEADER_SIZE <= a.handlesEnd
            && SizeOf(Tag(buf), a.handlesEnd - HEADER_SIZE, a.countedEnd - a.countedStart, |buf| - a.countedEnd)
               < U32_COUNT
            && buf == FrameOf(Tag(buf), Code(buf), buf[HEADER_SIZE..a.handlesEnd],
                              buf[a.countedStart..a.countedEnd], buf[a.countedEnd..])
  {
    var a := Cut(buf, handles).value;
    var h, area, q := buf[HEADER_SIZE..a.handlesEnd], buf[a.countedStart..a.countedEnd], buf[a.countedEnd..];
    var size := if Tag(buf) == SESSIONS then BigEndian(4, |area|) else [];
    HeaderReproduces(buf);
    AreasTile(buf, handles);
    Regrouped(buf[..HEADER_SIZE], h, size, area, q);
    assert Tag(buf) != SESSIONS ==> size + area == [];
  }

  lemma Regrouped(head: seq<byte>, handles: seq<byte>, size: seq<byte>, area: seq<byte>, rest: seq<byte>)
    ensures head + handles + size + area + rest == head + (handles + ((size + area) + rest))
  {
  }

  /** The body that was read, as one that can be marshalled. */
  function BodyRead(cc: nat, schema: Schema, u: Unmarshalled): Body {
    Body(cc, u.handles, schema, u.parameters)
  }

  /** Encoding the two areas of an unmarshalled body gives their bytes. */
  lemma BodyReproduces(cc: nat, count: nat, schema: Schema, handles: seq<byte>, parameters: seq<byte>)
    requires cc < U32_COUNT && WellFormed(schema) && UnmarshalBody(count, schema, handles, parameters).Ok?
    ensures var c := BodyRead(cc, schema, UnmarshalBody(count, schema, handles, parameters).value);
            && c.Typed() && |c.handles| == count && |handles| == 4 * count
            && EncodeItems(HANDLE, 0, c.handles) == Ok(handles) && LengthItems(HANDLE, c.handles) == |handles|
            && Encode(schema, 0, c.parameters) == Ok(parameters) && Length(schema, c.parameters) == |parameters|
  {
    EncodeDecodeItems(HANDLE, 0, count, handles);
    EncodeDecode(schema, 0, parameters);
    var c := BodyRead(cc, schema, UnmarshalBody(count, schema, handles, parameters).value);
    var h, q := EncodeItems(HANDLE, 0, c.handles).value, Encode(schema, 0, c.parameters).value;
    assert h + [] == h && q + [] == q;
    HandlesEncode(c.handles);
    EncodeLength(schema, 0, c.parameters);
  }

  // ----- commands -----

  /** Some tag and sessions make marshalling the body produce the frame. */
  ghost predicate MarshalsCommand(c: Body, buf: seq<byte>)
    requires c.Typed()
  {
    exists tag: nat, sessions :: SessionsTyped(AUTH_COMMAND, sessions) && CommandBytes(c, tag, sessions) == Ok(buf)
  }

  /** A command frame with a sessions tag has sessions, and they are ones that can be marshalled. */
  predicate SessionsWritable(buf: seq<byte>, a: Areas)
    requires |buf| >= HEADER_SIZE && a.countedStart <= a.countedEnd <= |buf|
  {
    Tag(buf) == SESSIONS ==> a.countedStart < a.countedEnd && ReadsAs(AUTH_COMMAND, buf[a.countedStart..a.countedEnd])
  }

  lemma CommandRewritten(p: Protocol, cc: nat, count: nat, schema: Schema, buf: seq<byte>)
    requires WellFormed(schema) && cc < U32_COUNT && UnmarshalCommand(p, cc, count, schema, buf).Ok?
    requires SessionsWritable(buf, ValidateCommand(p, buf).value)
    ensures var c := BodyRead(cc, schema, UnmarshalCommand(p, cc, count, schema, buf).value);
            c.Typed() && MarshalsCommand(c, buf)
  {
    var a := ValidateCommand(p, buf).value;
    var c := BodyRead(cc, schema, UnmarshalCommand(p, cc, count, schema, buf).value);
    var h, area, q := buf[HEADER_SIZE..a.handlesEnd], buf[a.countedStart..a.countedEnd], buf[a.countedEnd..];
    BodyReproduces(cc, count, schema, h, q);
    var sessions := [];
    if Tag(buf) == SESSIONS {
      sessions := SessionsOf(AUTH_COMMAND, 4, area);
    }
    CommandFromAreas(p, c, buf, a, sessions);
  }

  /** Marshalling writes the areas of a frame back in their places. */
  lemma CommandFromAreas(p: Protocol, c: Body, buf: seq<byte>, a: Areas, sessions: seq<Value>)
    requires c.Typed() && CastCommand(p, buf) == Ok(a) && c.cc == Code(buf)
    requires SessionsTyped(AUTH_COMMAND, sessions) && |sessions| <= MAX_SESSIONS
    requires Tag(buf) == SESSIONS <==> sessions != []
    requires EncodeItems(HANDLE, 0, c.handles) == Ok(buf[HEADER_SIZE..a.handlesEnd])
    requires EncodeItems(AUTH_COMMAND, 0, sessions) == Ok(buf[a.countedStart..a.countedEnd])
    requires Encode(c.schema, 0, c.parameters) == Ok(buf[a.countedEnd..])
    ensures CommandBytes(c, Tag(buf), sessions) == Ok(buf)
  {
    FrameIsLayout(buf, p.table[c.cc].handles);
    CommandWritten(c, Tag(buf), sessions, buf, buf[HEADER_SIZE..a.handlesEnd], buf[a.countedStart..a.countedEnd],
                   buf[a.countedEnd..]);
  }

  /** A command whose parts encode to the areas of a frame is marshalled as that frame. */
  lemma CommandWritten(
      c: Body, tag: nat, sessions: seq<Value>, buf: seq<byte>, handles: seq<byte>, area: seq<byte>,
      parameters: seq<byte>)
    requires c.Typed() && SessionsTyped(AUTH_COMMAND, sessions) && |sessions| <= MAX_SESSIONS
    requires (tag == SESSIONS && sessions != []) || (tag == NO_SESSIONS && sessions == [])
    requires EncodeItems(HANDLE, 0, c.handles) == Ok(handles)
    requires EncodeItems(AUTH_COMMAND, 0, sessions) == Ok(area) && Encode(c.schema, 0, c.parameters) == Ok(parameters)
    requires SizeOf(tag, |handles|, |area|, |parameters|) < U32_COUNT
    requires buf == FrameOf(tag, c.cc, handles, area, parameters)
    ensures CommandBytes(c, tag, sessions) == Ok(buf)
  {
    CommandSized(c, tag, sessions, |handles|, |area|, |parameters|);
    CommandIsLayout(c, tag, sessions);
    assert CommandBytes(c, tag, sessions).value == FrameOf(tag, c.cc, handles, area, parameters);
  }

  lemma CommandSized(c: Body, tag: nat, sessions: seq<Value>, handles: nat, area: nat, parameters: nat)
    requires c.Typed() && SessionsTyped(AUTH_COMMAND, sessions) && |sessions| <= MAX_SESSIONS
    requires (tag == SESSIONS && sessions != []) || (tag == NO_SESSIONS && sessions == [])
    requires EncodeItems(HANDLE, 0, c.handles).Ok? && |EncodeItems(HANDLE, 0, c.handles).value| == handles
    requires EncodeItems(AUTH_COMMAND, 0, sessions).Ok? && |EncodeItems(AUTH_COMMAND, 0, sessions).value| == area
    requires Encode(c.schema, 0, c.parameters).Ok? && |Encode(c.schema, 0, c.parameters).value| == parameters
    requires SizeOf(tag, handles, area, parameters) < U32_COUNT
    ensures CommandSize(c, tag, sessions) == SizeOf(tag, handles, area, parameters)
    ensures CommandBytes(c, tag, sessions).Ok?
  {
    EncodeItemsLength(HANDLE, 0, c.handles);
    EncodeItemsLength(AUTH_COMMAND, 0, sessions);
    EncodeLength(c.schema, 0, c.parameters);
  }

  lemma CommandWritable(p: Protocol, c: Body, tag: nat, sessions: seq<Value>)
    requires c.Typed() && SessionsTyped(AUTH_COMMAND, sessions) && CommandBytes(c, tag, sessions).Ok?
    requires c.cc in p.table && p.table[c.cc].handles == |c.handles|
    ensures ValidateCommand(p, CommandBytes(c, tag, sessions).value).Ok?
    ensures SessionsWritable(CommandBytes(c, tag, sessions).value,
                             ValidateCommand(p, CommandBytes(c, tag, sessions).value).value)
  {
    StructuresWellFormed();
    CommandValidates(p, c, tag, sessions);
    ReadsAsComplete(AUTH_COMMAND, 4, sessions);
  }

  /**
    Marshalling an unmarshalled command gives its very frame, for some tag and sessions,
    exactly when its sessions tag goes with sessions that can be marshalled.
   */
  lemma CommandReproduces(p: Protocol, cc: nat, count: nat, schema: Schema, buf: seq<byte>)
    requires WellFormed(schema) && cc < U32_COUNT && UnmarshalCommand(p, cc, count, schema, buf).Ok?
    ensures var c := BodyRead(cc, schema, UnmarshalCommand(p, cc, count, schema, buf).value);
            c.Typed() && (MarshalsCommand(c, buf) <==> SessionsWritable(buf, ValidateCommand(p, buf).value))
  {
    var a := ValidateCommand(p, buf).value;
    var c := BodyRead(cc, schema, UnmarshalCommand(p, cc, count, schema, buf).value);
    BodyReproduces(cc, count, schema, buf[HEADER_SIZE..a.handlesEnd], buf[a.countedEnd..]);
    if SessionsWritable(buf, a) {
      CommandRewritten(p, cc, count, schema, buf);
    }
    if tag: nat, sessions :| SessionsTyped(AUTH_COMMAND, sessions) && CommandBytes(c, tag, sessions) == Ok(buf) {
      CommandWritable(p, c, tag, sessions);
    }
  }

  /** A frame of code `cc` with a sessions tag, an authorization area without sessions, and nothing else. */
  function SessionlessFrame(cc: nat): seq<byte> {
    FrameOf(SESSIONS, cc, [], [], [])
  }

  /** Such a frame unmarshals, and is one that marshalling never produces. */
  lemma SessionlessNotMarshalled(p: Protocol, cc: nat)
    requires cc < U32_COUNT && cc in p.table && p.table[cc].handles == 0
    ensures var r := UnmarshalCommand(p, cc, 0, Empty, SessionlessFrame(cc));
            r.Ok? && BodyRead(cc, Empty, r.value).Typed()
            && !MarshalsCommand(BodyRead(cc, Empty, r.value), SessionlessFrame(cc))
  {
    var buf := SessionlessFrame(cc);
    HeaderFields(SESSIONS, 14, cc, buf[HEADER_SIZE..]);
    CutLayout(SESSIONS, 14, cc, 0, [], [], []);
    assert buf[HEADER_SIZE..HEADER_SIZE] == [];
    assert !SessionsWritable(buf, Cut(buf, 0).value) by {
      var a := Cut(buf, 0).value;
      assert buf[a.countedStart..a.countedEnd] == [];
    }
    CommandReproduces(p, cc, 0, Empty, buf);
  }

  // ----- responses -----

  /** Some response code and sessions make marshalling the body produce the frame. */
  ghost predicate MarshalsResponse(r: Body, buf: seq<byte>)
    requires r.Typed()
  {
    exists rc: nat, sessions ::
      rc < U32_COUNT && SessionsTyped(AUTH_RESPONSE, sessions) && ResponseBytes(r, rc, sessions) == Ok(buf)
  }

  /** A success frame with a sessions tag ends in sessions, and they are ones that can be marshalled. */
  predicate EndsWritable(buf: seq<byte>, a: Areas)
    requires |buf| >= HEADER_SIZE && a.countedEnd <= |buf|
  {
    Code(buf) == SUCCESS && Tag(buf) == SESSIONS ==> a.countedEnd < |buf| && ReadsAs(AUTH_RESPONSE, buf[a.countedEnd..])
  }

  lemma ResponseSized(r: Body, sessions: seq<Value>, handles: nat, parameters: nat, area: nat)
    requires r.Typed() && SessionsTyped(AUTH_RESPONSE, sessions) && |sessions| <= MAX_SESSIONS
    requires EncodeItems(HANDLE, 0, r.handles).Ok? && |EncodeItems(HANDLE, 0, r.handles).value| == handles
    requires EncodeItems(AUTH_RESPONSE, 0, sessions).Ok? && |EncodeItems(AUTH_RESPONSE, 0, sessions).value| == area
    requires Encode(r.schema, 0, r.parameters).Ok? && |Encode(r.schema, 0, r.parameters).value| == parameters
    requires HEADER_SIZE + handles + (if sessions == [] then 0 else 4) + parameters + area < U32_COUNT
    ensures ResponseSize(r, sessions) == HEADER_SIZE + handles + (if sessions == [] then 0 else 4) + parameters + area
    ensures ResponseBytes(r, SUCCESS, sessions).Ok?
  {
    EncodeItemsLength(HANDLE, 0, r.handles);
    EncodeItemsLength(AUTH_RESPONSE, 0, sessions);
    EncodeLength(r.schema, 0, r.parameters);
  }

  /** A body that encodes to the areas of a frame without sessions is marshalled as that frame. */
  lemma PlainResponseWritten(r: Body, buf: seq<byte>, handles: seq<byte>, parameters: seq<byte>)
    requires r.Typed() && SizeOf(NO_SESSIONS, |handles|, 0, |parameters|) < U32_COUNT
    requires EncodeItems(HANDLE, 0, r.handles) == Ok(handles) && Encode(r.schema, 0, r.parameters) == Ok(parameters)
    requires buf == FrameOf(NO_SESSIONS, SUCCESS, handles, [], parameters)
    ensures ResponseBytes(r, SUCCESS, []) == Ok(buf)
  {
    ResponseSized(r, [], |handles|, |parameters|, 0);
    ResponseIsLayout(r, []);
    assert ResponseBytes(r, SUCCESS, []).value == FrameOf(NO_SESSIONS, SUCCESS, handles, [], parameters);
  }

  /** The same for a frame that ends in sessions. */
  lemma SessionResponseWritten(
      r: Body, sessions: seq<Value>, buf: seq<byte>, handles: seq<byte>, parameters: seq<byte>, area: seq<byte>)
    requires r.Typed() && SessionsTyped(AUTH_RESPONSE, sessions) && 0 < |sessions| <= MAX_SESSIONS
    requires SizeOf(SESSIONS, |handles|, |parameters|, |area|) < U32_COUNT
    requires EncodeItems(HANDLE, 0, r.handles) == Ok(handles) && Encode(r.schema, 0, r.parameters) == Ok(parameters)
    requires EncodeItems(AUTH_RESPONSE, 0, sessions) == Ok(area)
    requires buf == FrameOf(SESSIONS, SUCCESS, handles, parameters, area)
    ensures ResponseBytes(r, SUCCESS, sessions) == Ok(buf)
  {
    ResponseSized(r, sessions, |handles|, |parameters|, |area|);
    assert ResponseSize(r, sessions) == SizeOf(SESSIONS, |handles|, |parameters|, |area|);
    ResponseIsLayout(r, sessions);
    assert ResponseBytes(r, SUCCESS, sessions).value == FrameOf(SESSIONS, SUCCESS, handles, parameters, area);
  }

  lemma ErrorRewritten(r: Body, buf: seq<byte>)
    requires r.Typed() && CheckHeader(buf).Ok? && |buf| == HEADER_SIZE
    requires Code(buf) != SUCCESS && Tag(buf) == NO_SESSIONS
    ensures Code(buf) < U32_COUNT && ResponseBytes(r, Code(buf), []) == Ok(buf)
  {
    HeaderReproduces(buf);
    assert buf[..HEADER_SIZE] == buf;
  }

  lemma SuccessRewritten(p: Protocol, r: Body, buf: seq<byte>, a: Areas)
    requires r.Typed() && ValidateResponse(p, r.cc, buf).Ok? && Code(buf) == SUCCESS
    requires p.table[r.cc].responseHandles == |r.handles| && Cut(buf, |r.handles|) == Ok(a) && EndsWritable(buf, a)
    requires HEADER_SIZE <= a.handlesEnd && EncodeItems(HANDLE, 0, r.handles) == Ok(buf[HEADER_SIZE..a.handlesEnd])
    requires Encode(r.schema, 0, r.parameters)
             == Ok(if Tag(buf) == SESSIONS then buf[a.countedStart..a.countedEnd] else buf[a.countedEnd..])
    ensures MarshalsResponse(r, buf)
  {
    var h, q, rest := buf[HEADER_SIZE..a.handlesEnd], buf[a.countedStart..a.countedEnd], buf[a.countedEnd..];
    FrameIsLayout(buf, |r.handles|);
    if Tag(buf) == SESSIONS {
      var sessions := SessionsOf(AUTH_RESPONSE, 0, rest);
      SessionResponseWritten(r, sessions, buf, h, q, rest);
    } else {
      assert q == [];
      PlainResponseWritten(r, buf, h, rest);
    }
  }

  lemma ResponseWritable(r: Body, rc: nat, sessions: seq<Value>, buf: seq<byte>)
    requires r.Typed() && rc < U32_COUNT && SessionsTyped(AUTH_RESPONSE, sessions)
    requires ResponseBytes(r, rc, sessions) == Ok(buf)
    requires |buf| >= HEADER_SIZE && Cut(buf, |r.handles|).Ok?
    ensures EndsWritable(buf, Cut(buf, |r.handles|).value)
  {
    if rc != SUCCESS {
      HeaderFields(NO_SESSIONS, HEADER_SIZE, rc, []);
      assert buf + [] == buf;
    } else {
      StructuresWellFormed();
      HandlesEncode(r.handles);
      ResponseIsLayout(r, sessions);
      var size, h := ResponseSize(r, sessions), EncodeItems(HANDLE, 0, r.handles).value;
      var q, s := Encode(r.schema, 0, r.parameters).value, EncodeItems(AUTH_RESPONSE, 0, sessions).value;
      EncodeLength(r.schema, 0, r.parameters);
      if sessions == [] {
        HeaderFields(NO_SESSIONS, size, SUCCESS, buf[HEADER_SIZE..]);
      } else {
        CutLayout(SESSIONS, size, SUCCESS, |r.handles|, h, q, s);
        ReadsAsComplete(AUTH_RESPONSE, 0, sessions);
      }
    }
  }

  /**
    Marshalling an unmarshalled response gives its very frame, for some response code and
    sessions, exactly when a sessions tag on a success goes with sessions that can be
    marshalled.
   */
  lemma ResponseReproduces(p: Protocol, cc: nat, count: nat, schema: Schema, buf: seq<byte>)
    requires WellFormed(schema) && cc < U32_COUNT && UnmarshalResponse(p, cc, count, schema, buf).Ok?
    requires cc in p.table && p.table[cc].responseHandles == count
    ensures var r := BodyRead(cc, schema, UnmarshalResponse(p, cc, count, schema, buf).value);
            r.Typed() && (MarshalsResponse(r, buf) <==> EndsWritable(buf, Cut(buf, count).value))
  {
    var a := Cut(buf, count).value;
    var r := BodyRead(cc, schema, UnmarshalResponse(p, cc, count, schema, buf).value);
    BodyReproduces(cc, count, schema, buf[HEADER_SIZE..a.handlesEnd],
                   if Tag(buf) == SESSIONS then buf[a.countedStart..a.countedEnd] else buf[a.countedEnd..]);
    if EndsWritable(buf, a) {
      if Code(buf) == SUCCESS {
        SuccessRewritten(p, r, buf, a);
      } else {
        ErrorRewritten(r, buf);
      }
    }
    if rc: nat, sessions :| rc < U32_COUNT && SessionsTyped(AUTH_RESPONSE, sessions)
                            && ResponseBytes(r, rc, sessions) == Ok(buf) {
      ResponseWritable(r, rc, sessions, buf);
    }
  }
}
