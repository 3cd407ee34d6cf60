/** Frames byte by byte: what the layout theorems say of frames, on frames with every number written out. */
module FrameLayouts {
  import opened Wrappers
  import opened Bytes
  import opened WireSchema
  import opened WireTypes
  import opened WireCodec
  import opened WireWriter
  import opened WireLayouts
  import opened Frame
  import opened FrameTheorems
  import opened FrameReproduction

  /** A body with one handle and one parameter of two bytes. */
  const BODY: Body := Body(0x0000_0157, [Num(0x8000_0001)], UInt(2), Num(0x1234))

  lemma BodyParts()
    ensures BODY.Typed()
    ensures EncodeItems(HANDLE, 0, BODY.handles) == Ok([0x80, 0x00, 0x00, 0x01])
    ensures Encode(BODY.schema, 0, BODY.parameters) == Ok([0x12, 0x34])
  {
    Pow256Values();
    BigEndianFour(0x8000_0001);
    BigEndianTwo(0x1234);
    OneItem(HANDLE, Num(0x8000_0001), [0x80, 0x00, 0x00, 0x01]);
  }

  lemma OneItem(item: Schema, v: Value, p: seq<byte>)
    requires Writes(item, 0, v, p)
    ensures SessionsTyped(item, [v]) && EncodeItems(item, 0, [v]) == Ok(p)
  {
    assert [v][1..] == [] && p + [] == p;
  }

  lemma SmallFour(n: nat)
    requires n < 0x1_0000
    ensures BigEndian(4, n) == [0, 0, n / 256, n % 256]
  {
    BigEndianFour(n);
  }

  /** A header: tag, size and code, in this order and with these widths. */
  lemma HeaderBytes(tag: nat, size: nat, code: nat)
    requires tag < U16_COUNT && size < 0x1_0000 && code < 0x1_0000
    ensures Header(tag, size, code)
            == [tag / 256, tag % 256, 0, 0, size / 256, size % 256, 0, 0, code / 256, code % 256]
  {
    BigEndianTwo(tag);
    SmallFour(size);
    SmallFour(code);
  }

  lemma PlainFrame(code: nat, handles: seq<byte>, rest: seq<byte>)
    requires code < 0x1_0000 && SizeOf(0x8001, |handles|, 0, |rest|) < 256
    ensures FrameOf(0x8001, code, handles, [], rest)
            == [0x80, 0x01, 0, 0, 0, 10 + |handles| + |rest|, 0, 0, code / 256, code % 256] + handles + rest
  {
    HeaderBytes(0x8001, 10 + |handles| + |rest|, code);
  }

  /** A command without sessions. */
  lemma PlainCommand()
    ensures BODY.Typed()
    ensures CommandBytes(BODY, 0x8001, [])
            == Ok([0x80, 0x01, 0, 0, 0, 16, 0, 0, 0x01, 0x57] + [0x80, 0x00, 0x00, 0x01] + [0x12, 0x34])
  {
    var handles, parameters := [0x80, 0x00, 0x00, 0x01], [0x12, 0x34];
    BodyParts();
    PlainFrame(0x0157, handles, parameters);
    CommandWritten(BODY, 0x8001, [], FrameOf(0x8001, 0x0157, handles, [], parameters), handles, [], parameters);
  }

  lemma SessionFrame(code: nat, handles: seq<byte>, counted: seq<byte>, rest: seq<byte>)
    requires code < 0x1_0000 && SizeOf(0x8002, |handles|, |counted|, |rest|) < 256 && |counted| < 256
    ensures FrameOf(0x8002, code, handles, counted, rest)
            == [0x80, 0x02, 0, 0, 0, 14 + |handles| + |counted| + |rest|, 0, 0, code / 256, code % 256]
               + handles + [0, 0, 0, |counted|] + counted + rest
  {
    HeaderBytes(0x8002, 14 + |handles| + |counted| + |rest|, code);
    SmallFour(|counted|);
  }

  /** A command with a session: the size of the authorization area, and the area, between handles and parameters. */
  lemma SessionCommand(session: Value, area: seq<byte>)
    requires Writes(AUTH_COMMAND, 0, session, area) && |area| < 200
    ensures BODY.Typed() && SessionsTyped(AUTH_COMMAND, [session])
    ensures CommandBytes(BODY, 0x8002, [session])
            == Ok([0x80, 0x02, 0, 0, 0, 20 + |area|, 0, 0, 0x01, 0x57] + [0x80, 0x00, 0x00, 0x01]
                  + [0, 0, 0, |area|] + area + [0x12, 0x34])
  {
    var handles, parameters := [0x80, 0x00, 0x00, 0x01], [0x12, 0x34];
    BodyParts();
    OneItem(AUTH_COMMAND, session, area);
    SessionFrame(0x0157, handles, area, parameters);
    CommandWritten(BODY, 0x8002, [session], FrameOf(0x8002, 0x0157, handles, area, parameters), handles, area,
                   parameters);
  }

  /** A response with a session: the size of the parameters before them, and the session behind them. */
  lemma SessionResponse(session: Value, area: seq<byte>)
    requires Writes(AUTH_RESPONSE, 0, session, area) && |area| < 200
    ensures BODY.Typed() && SessionsTyped(AUTH_RESPONSE, [session])
    ensures ResponseBytes(BODY, 0, [session])
            == Ok([0x80, 0x02, 0, 0, 0, 20 + |area|, 0, 0, 0, 0] + [0x80, 0x00, 0x00, 0x01]
                  + [0, 0, 0, 2] + [0x12, 0x34] + area)
  {
    var handles, parameters := [0x80, 0x00, 0x00, 0x01], [0x12, 0x34];
    BodyParts();
    OneItem(AUTH_RESPONSE, session, area);
    SessionFrame(0, handles, parameters, area);
    SessionResponseWritten(BODY, [session], FrameOf(0x8002, 0, handles, parameters, area), handles, parameters, area);
  }

  /** An error response is a header. */
  lemma ErrorFrame()
    ensures BODY.Typed()
    ensures ResponseBytes(BODY, 0x0101, []) == Ok([0x80, 0x01, 0, 0, 0, 10, 0, 0, 0x01, 0x01])
  {
    BodyParts();
    HeaderBytes(0x8001, 10, 0x0101);
  }

  /** A command may have eight sessions and no ninth one, and so may a response. */
  lemma NinthSession(c: Body, commands: seq<Value>, responses: seq<Value>)
    requires c.Typed() && SessionsTyped(AUTH_COMMAND, commands) && SessionsTyped(AUTH_RESPONSE, responses)
    requires Encode(c.schema, 0, c.parameters).Ok? && commands != []
    ensures CommandSize(c, 0x8002, commands) < U32_COUNT ==>
              (CommandBytes(c, 0x8002, commands).Ok? <==> |commands| <= 8)
    ensures ResponseSize(c, responses) < U32_COUNT ==> (ResponseBytes(c, 0, responses).Ok? <==> |responses| <= 8)
    ensures |commands| > 8 ==> CommandBytes(c, 0x8002, commands) == Err(TooManyItems)
    ensures |responses| > 8 ==> ResponseBytes(c, 0, responses) == Err(TooManyItems)
  {
    HandlesEncode(c.handles);
    if |commands| <= 8 {
      SessionsPass(AUTH_COMMAND, 4, commands);
    }
    if |responses| <= 8 {
      SessionsPass(AUTH_RESPONSE, 0, responses);
    }
  }

  // ----- refused frames -----

  /** A frame must be as long as it says, have one of the two tags, and a known code; in this order. */
  lemma HeaderRefused(p: Protocol, tag: nat, size: u32, code: u32, body: seq<byte>)
    requires tag < U16_COUNT
    ensures var buf, cast := Header(tag, size, code) + body, CastCommand(p, Header(tag, size, code) + body);
            && (size < 10 || 10 + |body| < size ==> cast == Err(UnexpectedEnd))
            && (10 <= size < 10 + |body| ==> cast == Err(TrailingData))
            && (size == 10 + |body| && tag !in {0x8001, 0x8002} ==> cast == Err(InvalidTag))
            && (size == 10 + |body| && tag in {0x8001, 0x8002} && code !in p.table ==> cast == Err(InvalidCc))
    ensures var cast := CastResponse(p, Header(tag, size, code) + body);
            && (size < 10 || 10 + |body| < size ==> cast == Err(UnexpectedEnd))
            && (10 <= size < 10 + |body| ==> cast == Err(TrailingData))
            && (size == 10 + |body| && tag !in {0x8001, 0x8002} ==> cast == Err(InvalidTag))
            && (size == 10 + |body| && tag in {0x8001, 0x8002} ==>
                  cast == if p.isRc(code) then Ok(Void) else Err(InvalidRc))
  {
    HeaderFields(tag, size, code, body);
  }

  /** Less than a header is refused. */
  lemma NoHeader(p: Protocol, buf: seq<byte>)
    requires |buf| < 10
    ensures CastCommand(p, buf) == Err(UnexpectedEnd) && CastResponse(p, buf) == Err(UnexpectedEnd)
  {
  }

  /** The handles must be there, and under a sessions tag a count and as many bytes. */
  lemma CutShort(tag: nat, size: u32, code: u32, n: nat, body: seq<byte>)
    requires tag in {0x8001, 0x8002}
    ensures Cut(Header(tag, size, code) + body, n)
            == if |body| < 4 * n then Err(UnexpectedEnd)
               else if tag == 0x8001 then Ok(Areas(10 + 4 * n, 10 + 4 * n, 10 + 4 * n))
               else if |body| < 4 * n + 4 then Err(UnexpectedEnd)
               else
                 var counted := FromBigEndian(body[4 * n..4 * n + 4]);
                 if |body| < 4 * n + 4 + counted then Err(UnexpectedEnd)
                 else Ok(Areas(10 + 4 * n, 14 + 4 * n, 14 + 4 * n + counted))
  {
    HeaderFields(tag, size, code, body);
    var buf := Header(tag, size, code) + body;
    if |body| >= 4 * n + 4 {
      assert buf[10 + 4 * n..10 + 4 * n + 4] == body[4 * n..4 * n + 4];
    }
  }

  /** A response to an unknown command, and an error response that is more than a header. */
  lemma ResponseRefused(p: Protocol, cc: nat, tag: nat, code: u32, body: seq<byte>)
    requires tag in {0x8001, 0x8002} && 10 + |body| < U32_COUNT && p.isRc(code)
    ensures var r := ValidateResponse(p, cc, Header(tag, 10 + |body|, code) + body);
            && (cc !in p.table ==> r == Err(InvalidCc))
            && (cc in p.table && code != 0 && tag == 0x8002 ==> r == Err(InvalidTag))
            && (cc in p.table && code != 0 && tag == 0x8001 && body != [] ==> r == Err(TrailingData))
            && (cc in p.table && code != 0 && tag == 0x8001 && body == [] ==> r == Ok(Void))
  {
    HeaderRefused(p, tag, 10 + |body|, code, body);
    HeaderFields(tag, 10 + |body|, code, body);
  }

  /** What is not marshalled: sessions without their tag, the tag without sessions, any other tag. */
  lemma TagsRefused(c: Body, tag: nat, commands: seq<Value>, rc: u32, responses: seq<Value>)
    requires c.Typed() && SessionsTyped(AUTH_COMMAND, commands) && SessionsTyped(AUTH_RESPONSE, responses)
    ensures tag !in {0x8001, 0x8002} || (tag == 0x8001 && commands != []) || (tag == 0x8002 && commands == []) ==>
              CommandBytes(c, tag, commands) == Err(InvalidTag)
    ensures rc != 0 && 0 < |responses| <= 8 ==> ResponseBytes(c, rc, responses) == Err(InvalidTag)
  {
  }
}
