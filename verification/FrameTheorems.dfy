/**
  What the frame layer promises: a marshalled frame states its own length, passes
  validation, splits into areas that tile it and unmarshals to its body; and the
  authorization area is accepted exactly when it is at most eight sessions.
 */
module FrameTheorems {
  import opened Wrappers
  import opened Bytes
  import opened WireSchema
  import opened WireCodec
  import opened WireTypes
  import opened WireTheorems
  import opened Frame

  // ----- headers and cuts -----

  lemma HeaderFields(tag: nat, size: nat, code: nat, body: seq<byte>)
    requires tag < U16_COUNT && size < U32_COUNT && code < U32_COUNT
    ensures var buf := Header(tag, size, code) + body;
            && |buf| == HEADER_SIZE + |body|
            && Tag(buf) == tag
            && Read(4, buf, 2) == size
            && Code(buf) == code
            && buf[HEADER_SIZE..] == body
  {
    Pow256Values();
    var buf := Header(tag, size, code) + body;
    assert buf[0..2] == BigEndian(2, tag);
    assert buf[2..6] == BigEndian(4, size);
    assert buf[6..10] == BigEndian(4, code);
    BigEndianRoundTrip(2, tag);
    BigEndianRoundTrip(4, size);
    BigEndianRoundTrip(4, code);
  }

  /** A frame of header, handles, a counted area under a sessions tag, and a rest. */
  function Layout(tag: nat, size: nat, code: nat, handles: seq<byte>, counted: seq<byte>, rest: seq<byte>): seq<byte> {
    Header(tag, size, code) + (handles + ((if tag == SESSIONS then BigEndian(4, |counted|) + counted else []) + rest))
  }

  /** Cutting a laid-out frame finds its areas. */
  lemma CutLayout(tag: nat, size: nat, code: nat, n: nat, handles: seq<byte>, counted: seq<byte>, rest: seq<byte>)
    requires tag < U16_COUNT && size < U32_COUNT && code < U32_COUNT
    requires |handles| == 4 * n && |counted| < U32_COUNT && (tag != SESSIONS ==> counted == [])
    ensures var buf := Layout(tag, size, code, handles, counted, rest);
            var r := Cut(buf, n);
            && r.Ok?
            && buf[HEADER_SIZE..r.value.handlesEnd] == handles
            && buf[r.value.countedStart..r.value.countedEnd] == counted
            && buf[r.value.countedEnd..] == rest
  {
    Pow256Values();
    var buf := Layout(tag, size, code, handles, counted, rest);
    HeaderFields(tag, size, code, buf[HEADER_SIZE..]);
    var start := HEADER_SIZE + 4 * n;
    assert buf[HEADER_SIZE..start] == handles;
    if tag == SESSIONS {
      assert buf[start..start + 4] == BigEndian(4, |counted|);
      BigEndianRoundTrip(4, |counted|);
      assert buf[start + 4..start + 4 + |counted|] == counted;
      assert buf[start + 4 + |counted|..] == rest;
    } else {
      assert buf[start..] == rest;
    }
  }

  /** Every frame that can be cut is its header and its areas, in order and without gaps. */
  lemma AreasTile(buf: seq<byte>, handles: nat)
    requires |buf| >= HEADER_SIZE && Cut(buf, handles).Ok?
    ensures var a := Cut(buf, handles).value;
            && a.handlesEnd == HEADER_SIZE + 4 * handles
            && buf == buf[..HEADER_SIZE] + buf[HEADER_SIZE..a.handlesEnd]
                      + (if Tag(buf) == SESSIONS then BigEndian(4, a.countedEnd - a.countedStart) else [])
                      + buf[a.countedStart..a.countedEnd] + buf[a.countedEnd..]
  {
    var a := Cut(buf, handles).value;
    if Tag(buf) == SESSIONS {
      FromBigEndianRoundTrip(buf[a.handlesEnd..a.countedStart]);
      assert buf[a.handlesEnd..a.countedStart] == BigEndian(4, a.countedEnd - a.countedStart);
    }
    assert buf == buf[..HEADER_SIZE] + buf[HEADER_SIZE..a.handlesEnd] + buf[a.handlesEnd..a.countedStart]
                  + buf[a.countedStart..a.countedEnd] + buf[a.countedEnd..];
  }

  // ----- sessions -----

  /** A session as the validator sees it: sizes are not limited to digest length. */
  function RawSession(handleWidth: nat): Schema {
    var tail := Pair(Buffer(2, 65535), Pair(UInt(1), Buffer(2, 65535)));
    if handleWidth == 0 then tail else Pair(UInt(handleWidth), tail)
  }

  lemma RawSessionWellFormed(handleWidth: nat)
    ensures WellFormed(RawSession(handleWidth))
  {
    Pow256Values();
  }

  lemma SkipBufferDecodes(b: seq<byte>)
    ensures match Decode(Buffer(2, 65535), 0, b)
            case Ok(d) => SkipBuffer(b) == Ok(d.rest)
            case Err(_) => SkipBuffer(b).Err?
  {
    if |b| >= 2 {
      Pow256Values();
      FromBigEndianBound(b[..2]);
    }
  }

  lemma SkipTailDecodes(b: seq<byte>)
    ensures match Decode(RawSession(0), 0, b)
            case Ok(d) => SkipSession(0, b) == Ok(d.rest)
            case Err(_) => SkipSession(0, b).Err?
  {
    assert b[0..] == b;
    SkipBufferDecodes(b);
    if SkipBuffer(b).Ok? {
      var c := SkipBuffer(b).value;
      if c != [] {
        SkipBufferDecodes(c[1..]);
      }
    }
  }

  /** Skipping a session is decoding it. */
  lemma SkipSessionDecodes(handleWidth: nat, b: seq<byte>)
    ensures match Decode(RawSession(handleWidth), 0, b)
            case Ok(d) => SkipSession(handleWidth, b) == Ok(d.rest)
            case Err(_) => SkipSession(handleWidth, b).Err?
  {
    if handleWidth == 0 {
      SkipTailDecodes(b);
    } else if |b| >= handleWidth {
      var c := b[handleWidth..];
      SkipTailDecodes(c);
      assert c[0..] == c;
      assert SkipSession(handleWidth, b) == SkipSession(0, c);
      assert Decode(UInt(handleWidth), 0, b) == DecodeInt(handleWidth, b);
      assert Decode(Pair(UInt(handleWidth), RawSession(0)), 0, b)
             == BothValues(DecodeInt(handleWidth, b), Decode(RawSession(0), 0, c));
    } else {
      assert Decode(UInt(handleWidth), 0, b).Err?;
    }
  }

  lemma {:induction false} CheckSessionsSound(handleWidth: nat, count: nat, b: seq<byte>) returns (vs: seq<Value>)
    requires count <= MAX_SESSIONS && CheckSessions(handleWidth, count, b).Ok?
    ensures count + |vs| <= MAX_SESSIONS
    ensures SessionsTyped(RawSession(handleWidth), vs) && EncodeItems(RawSession(handleWidth), 0, vs) == Ok(b)
    decreases |b|
  {
    if b == [] {
      vs := [];
    } else {
      var v, rest := SkippedSession(handleWidth, b);
      var tail := CheckSessionsSound(handleWidth, count + 1, rest);
      vs := [v] + tail;
      EncodeItemsCons(RawSession(handleWidth), v, tail);
    }
  }

  lemma SkippedSession(handleWidth: nat, b: seq<byte>) returns (v: Value, rest: seq<byte>)
    requires SkipSession(handleWidth, b).Ok?
    ensures SkipSession(handleWidth, b) == Ok(rest)
    ensures Typed(RawSession(handleWidth), v) && Encode(RawSession(handleWidth), 0, v).Ok?
    ensures b == Encode(RawSession(handleWidth), 0, v).value + rest
  {
    SkipSessionDecodes(handleWidth, b);
    RawSessionWellFormed(handleWidth);
    EncodeDecode(RawSession(handleWidth), 0, b);
    var d := Decode(RawSession(handleWidth), 0, b).value;
    v, rest := d.value, d.rest;
  }

  lemma EncodeItemsCons(item: Schema, v: Value, tail: seq<Value>)
    requires Typed(item, v) && SessionsTyped(item, tail)
    ensures SessionsTyped(item, [v] + tail)
    ensures EncodeItems(item, 0, [v] + tail) == Concat(Encode(item, 0, v), EncodeItems(item, 0, tail))
  {
    assert ([v] + tail)[1..] == tail;
  }

  lemma {:induction false} CheckSessionsComplete(handleWidth: nat, count: nat, vs: seq<Value>)
    requires count + |vs| <= MAX_SESSIONS
    requires SessionsTyped(RawSession(handleWidth), vs) && EncodeItems(RawSession(handleWidth), 0, vs).Ok?
    ensures CheckSessions(handleWidth, count, EncodeItems(RawSession(handleWidth), 0, vs).value).Ok?
    decreases |vs|
  {
    if vs != [] {
      var s := RawSession(handleWidth);
      var x, y := Encode(s, 0, vs[0]).value, EncodeItems(s, 0, vs[1..]).value;
      RawSessionWellFormed(handleWidth);
      DecodeEncode(s, 0, vs[0], y);
      SkipSessionDecodes(handleWidth, x + y);
      CheckSessionsComplete(handleWidth, count + 1, vs[1..]);
    }
  }

  /** The validator accepts an authorization area exactly when it is at most eight encoded sessions. */
  lemma SessionsExactly(handleWidth: nat, b: seq<byte>)
    ensures CheckSessions(handleWidth, 0, b).Ok? <==>
            exists vs :: |vs| <= MAX_SESSIONS && SessionsTyped(RawSession(handleWidth), vs)
                         && EncodeItems(RawSession(handleWidth), 0, vs) == Ok(b)
  {
    if CheckSessions(handleWidth, 0, b).Ok? {
      var vs := CheckSessionsSound(handleWidth, 0, b);
    }
    if vs :| |vs| <= MAX_SESSIONS && SessionsTyped(RawSession(handleWidth), vs)
             && EncodeItems(RawSession(handleWidth), 0, vs) == Ok(b) {
      CheckSessionsComplete(handleWidth, 0, vs);
    }
  }

  /** Typed sessions always encode, and are raw sessions with the same bytes. */
  lemma TailIsRaw(v: Value)
    requires Typed(AUTH_RESPONSE, v)
    ensures Typed(RawSession(0), v) && Encode(AUTH_RESPONSE, 0, v).Ok?
    ensures Encode(RawSession(0), 0, v) == Encode(AUTH_RESPONSE, 0, v)
  {
    var wide, inner := Buffer(2, 65535), v.second;
    assert Typed(DIGEST, v.first) && Typed(wide, v.first);
    assert Typed(Pair(UInt(1), DIGEST), inner);
    assert Typed(UInt(1), inner.first) && Typed(DIGEST, inner.second) && Typed(wide, inner.second);
    assert Typed(Pair(UInt(1), wide), inner);
    assert Encode(DIGEST, 0, inner.second) == Encode(wide, 0, inner.second);
    assert Encode(Pair(UInt(1), DIGEST), 0, inner) == Encode(Pair(UInt(1), wide), 0, inner);
  }

  lemma CommandSessionIsRaw(v: Value)
    requires Typed(AUTH_COMMAND, v)
    ensures Typed(RawSession(4), v) && Encode(AUTH_COMMAND, 0, v).Ok?
    ensures Encode(RawSession(4), 0, v) == Encode(AUTH_COMMAND, 0, v)
  {
    TailIsRaw(v.second);
    assert AUTH_COMMAND == Pair(UInt(4), AUTH_RESPONSE) && RawSession(4) == Pair(UInt(4), RawSession(0));
  }

  lemma {:induction false} SessionsAreRaw(session: Schema, handleWidth: nat, vs: seq<Value>)
    requires (session == AUTH_COMMAND && handleWidth == 4) || (session == AUTH_RESPONSE && handleWidth == 0)
    requires SessionsTyped(session, vs)
    ensures SessionsTyped(RawSession(handleWidth), vs) && EncodeItems(session, 0, vs).Ok?
    ensures EncodeItems(RawSession(handleWidth), 0, vs) == EncodeItems(session, 0, vs)
    decreases |vs|
  {
    if vs != [] {
      if handleWidth == 4 {
        CommandSessionIsRaw(vs[0]);
      } else {
        TailIsRaw(vs[0]);
      }
      SessionsAreRaw(session, handleWidth, vs[1..]);
      assert vs == [vs[0]] + vs[1..];
    }
  }

  lemma SessionsPass(session: Schema, handleWidth: nat, vs: seq<Value>)
    requires (session == AUTH_COMMAND && handleWidth == 4) || (session == AUTH_RESPONSE && handleWidth == 0)
    requires SessionsTyped(session, vs) && |vs| <= MAX_SESSIONS
    ensures EncodeItems(session, 0, vs).Ok? && |EncodeItems(session, 0, vs).value| == LengthItems(session, vs)
    ensures CheckSessions(handleWidth, 0, EncodeItems(session, 0, vs).value).Ok?
  {
    SessionsAreRaw(session, handleWidth, vs);
    CheckSessionsComplete(handleWidth, 0, vs);
    EncodeItemsLength(session, 0, vs);
  }

  // ----- bodies -----

  lemma {:induction false} HandlesEncode(vs: seq<Value>)
    requires forall h <- vs :: Typed(HANDLE, h)
    ensures EncodeItems(HANDLE, 0, vs).Ok? && |EncodeItems(HANDLE, 0, vs).value| == 4 * |vs| == LengthItems(HANDLE, vs)
    ensures CanonItems(HANDLE, vs) == vs
    decreases |vs|
  {
    if vs != [] {
      HandlesEncode(vs[1..]);
      assert vs == [vs[0]] + vs[1..];
    }
  }

  /** Decoding the two areas of an encoded body gives the body, with its parameters in canonical form. */
  lemma UnmarshalEncoded(c: Body)
    requires c.Typed() && Encode(c.schema, 0, c.parameters).Ok?
    ensures EncodeItems(HANDLE, 0, c.handles).Ok?
    ensures UnmarshalBody(|c.handles|, c.schema, EncodeItems(HANDLE, 0, c.handles).value,
                          Encode(c.schema, 0, c.parameters).value)
            == Ok(Unmarshalled(c.handles, Canon(c.schema, c.parameters)))
  {
    HandlesEncode(c.handles);
    var h, p := EncodeItems(HANDLE, 0, c.handles).value, Encode(c.schema, 0, c.parameters).value;
    DecodeEncodeItems(HANDLE, 0, c.handles, []);
    DecodeEncode(c.schema, 0, c.parameters, []);
    assert h + [] == h && p + [] == p;
  }

  // ----- commands -----

  lemma CommandIsLayout(c: Body, tag: nat, sessions: seq<Value>)
    requires c.Typed() && SessionsTyped(AUTH_COMMAND, sessions) && CommandBytes(c, tag, sessions).Ok?
    ensures EncodeItems(HANDLE, 0, c.handles).Ok? && Encode(c.schema, 0, c.parameters).Ok?
    ensures EncodeItems(AUTH_COMMAND, 0, sessions).Ok?
    ensures tag != SESSIONS ==> EncodeItems(AUTH_COMMAND, 0, sessions).value == []
    ensures |EncodeItems(AUTH_COMMAND, 0, sessions).value| < U32_COUNT
    ensures CommandSize(c, tag, sessions) == |CommandBytes(c, tag, sessions).value| < U32_COUNT
    ensures CommandBytes(c, tag, sessions).value
            == Layout(tag, CommandSize(c, tag, sessions), c.cc, EncodeItems(HANDLE, 0, c.handles).value,
                      EncodeItems(AUTH_COMMAND, 0, sessions).value, Encode(c.schema, 0, c.parameters).value)
  {
    HandlesEncode(c.handles);
    SessionsPass(AUTH_COMMAND, 4, sessions);
    EncodeLength(c.schema, 0, c.parameters);
  }

  /** The size field of a marshalled command is its length, and the frame passes cast and validate. */
  lemma CommandValidates(p: Protocol, c: Body, tag: nat, sessions: seq<Value>)
    requires c.Typed() && SessionsTyped(AUTH_COMMAND, sessions) && CommandBytes(c, tag, sessions).Ok?
    requires c.cc in p.table && p.table[c.cc].handles == |c.handles|
    ensures var buf := CommandBytes(c, tag, sessions).value;
            && |buf| >= HEADER_SIZE
            && Read(4, buf, 2) == |buf|
            && Tag(buf) == tag
            && Code(buf) == c.cc
            && ValidateCommand(p, buf).Ok?
            && var a := ValidateCommand(p, buf).value;
               && Ok(buf[HEADER_SIZE..a.handlesEnd]) == EncodeItems(HANDLE, 0, c.handles)
               && Ok(buf[a.countedStart..a.countedEnd]) == EncodeItems(AUTH_COMMAND, 0, sessions)
               && Ok(buf[a.countedEnd..]) == Encode(c.schema, 0, c.parameters)
  {
    CommandIsLayout(c, tag, sessions);
    var size, h := CommandSize(c, tag, sessions), EncodeItems(HANDLE, 0, c.handles).value;
    var s, q := EncodeItems(AUTH_COMMAND, 0, sessions).value, Encode(c.schema, 0, c.parameters).value;
    HandlesEncode(c.handles);
    SessionsPass(AUTH_COMMAND, 4, sessions);
    HeaderFields(tag, size, c.cc, Layout(tag, size, c.cc, h, s, q)[HEADER_SIZE..]);
    CutLayout(tag, size, c.cc, |c.handles|, h, s, q);
  }

  /**
    Unmarshalling a marshalled command gives the body that was marshalled, up to details
    that were not written, and so the very body exactly when it hides none.
   */
  lemma CommandRoundTrip(p: Protocol, c: Body, tag: nat, sessions: seq<Value>)
    requires c.Typed() && SessionsTyped(AUTH_COMMAND, sessions) && CommandBytes(c, tag, sessions).Ok?
    requires c.cc in p.table && p.table[c.cc].handles == |c.handles|
    ensures UnmarshalCommand(p, c.cc, |c.handles|, c.schema, CommandBytes(c, tag, sessions).value)
            == Ok(Unmarshalled(c.handles, Canon(c.schema, c.parameters)))
    ensures UnmarshalCommand(p, c.cc, |c.handles|, c.schema, CommandBytes(c, tag, sessions).value)
            == Ok(Unmarshalled(c.handles, c.parameters))
            <==> NoHiddenDetails(c.schema, c.parameters)
  {
    CanonFixed(c.schema, c.parameters);
    CommandIsLayout(c, tag, sessions);
    CommandValidates(p, c, tag, sessions);
    UnmarshalEncoded(c);
  }

  // ----- responses -----

  lemma ResponseIsLayout(r: Body, sessions: seq<Value>)
    requires r.Typed() && SessionsTyped(AUTH_RESPONSE, sessions) && ResponseBytes(r, SUCCESS, sessions).Ok?
    ensures EncodeItems(HANDLE, 0, r.handles).Ok? && Encode(r.schema, 0, r.parameters).Ok?
    ensures EncodeItems(AUTH_RESPONSE, 0, sessions).Ok?
    ensures ResponseSize(r, sessions) == |ResponseBytes(r, SUCCESS, sessions).value| < U32_COUNT
    ensures var h, q := EncodeItems(HANDLE, 0, r.handles).value, Encode(r.schema, 0, r.parameters).value;
            ResponseBytes(r, SUCCESS, sessions).value
            == if sessions == [] then Layout(NO_SESSIONS, ResponseSize(r, sessions), SUCCESS, h, [], q)
               else Layout(SESSIONS, ResponseSize(r, sessions), SUCCESS, h, q,
                           EncodeItems(AUTH_RESPONSE, 0, sessions).value)
  {
    HandlesEncode(r.handles);
    SessionsPass(AUTH_RESPONSE, 0, sessions);
    EncodeLength(r.schema, 0, r.parameters);
    var h, q := EncodeItems(HANDLE, 0, r.handles).value, Encode(r.schema, 0, r.parameters).value;
    var s := EncodeItems(AUTH_RESPONSE, 0, sessions).value;
    if sessions == [] {
      assert h + ([] + (q + s)) == h + ([] + q);
    } else {
      assert BigEndian(4, |q|) + (q + s) == BigEndian(4, |q|) + q + s;
    }
  }

  /** A marshalled success response states its length, validates, and unmarshals to its body in the same sense. */
  lemma ResponseRoundTrip(p: Protocol, r: Body, sessions: seq<Value>)
    requires r.Typed() && SessionsTyped(AUTH_RESPONSE, sessions) && ResponseBytes(r, SUCCESS, sessions).Ok?
    requires r.cc in p.table && p.table[r.cc].responseHandles == |r.handles| && p.isRc(SUCCESS)
    ensures var buf := ResponseBytes(r, SUCCESS, sessions).value;
            && |buf| >= HEADER_SIZE
            && Read(4, buf, 2) == |buf|
            && ValidateResponse(p, r.cc, buf).Ok?
            && UnmarshalResponse(p, r.cc, |r.handles|, r.schema, buf)
               == Ok(Unmarshalled(r.handles, Canon(r.schema, r.parameters)))
            && (UnmarshalResponse(p, r.cc, |r.handles|, r.schema, buf) == Ok(Unmarshalled(r.handles, r.parameters))
                <==> NoHiddenDetails(r.schema, r.parameters))
  {
    CanonFixed(r.schema, r.parameters);
    ResponseIsLayout(r, sessions);
    var size, h := ResponseSize(r, sessions), EncodeItems(HANDLE, 0, r.handles).value;
    var q, s := Encode(r.schema, 0, r.parameters).value, EncodeItems(AUTH_RESPONSE, 0, sessions).value;
    HandlesEncode(r.handles);
    SessionsPass(AUTH_RESPONSE, 0, sessions);
    EncodeLength(r.schema, 0, r.parameters);
    if sessions == [] {
      HeaderFields(NO_SESSIONS, size, SUCCESS, Layout(NO_SESSIONS, size, SUCCESS, h, [], q)[HEADER_SIZE..]);
      CutLayout(NO_SESSIONS, size, SUCCESS, |r.handles|, h, [], q);
    } else {
      HeaderFields(SESSIONS, size, SUCCESS, Layout(SESSIONS, size, SUCCESS, h, q, s)[HEADER_SIZE..]);
      CutLayout(SESSIONS, size, SUCCESS, |r.handles|, h, q, s);
    }
    UnmarshalEncoded(r);
  }

  /**
    An error response is a bare header that validates; unmarshalling it as a body
    succeeds exactly for the bodies that take no bytes.
   */
  lemma ErrorResponse(p: Protocol, r: Body, rc: nat)
    requires r.Typed() && SUCCESS < rc < U32_COUNT && p.isRc(rc) && r.cc in p.table
    ensures ResponseBytes(r, rc, []).Ok?
    ensures var buf := ResponseBytes(r, rc, []).value;
            && |buf| == HEADER_SIZE
            && ValidateResponse(p, r.cc, buf).Ok?
            && Code(buf) == rc
            && (UnmarshalResponse(p, r.cc, |r.handles|, r.schema, buf).Ok? <==>
                r.handles == [] && Decode(r.schema, 0, []).Ok? && Decode(r.schema, 0, []).value.rest == [])
  {
    HeaderFields(NO_SESSIONS, HEADER_SIZE, rc, []);
    var buf := ResponseBytes(r, rc, []).value;
    assert buf + [] == buf;
    if r.handles == [] {
      assert buf[HEADER_SIZE..HEADER_SIZE] == [] && buf[HEADER_SIZE..] == [];
    }
  }
}
