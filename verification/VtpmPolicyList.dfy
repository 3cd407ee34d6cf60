/**
  The policy list of a cache record: a count, then command code, body size and
  body of each step. The list is generic in the steps, which are read from their
  parts by a function.
 */
module VtpmPolicyList {
  import opened Wrappers
  import opened Bytes
  import opened Sequences
  import opened WireSchema
  import opened WireTypes
  import opened WireCodec
  import opened WireOutput
  import opened WireWriter

  datatype VtpmError =
    | HandleNotFound(handle: nat)
    | InvalidHandleType(handleType: nat)
    | NoHandles
    | InvalidCc(cc: nat)
    | InvalidPolicy
    | Io
    | Marshal(cause: TpmError)
    | OperationFailed
    | ParentNotFound
    | StaleHandle
    | Unmarshal(cause: TpmError)
    | UnexpectedEnd
    | RecordTooLarge(size: nat)
    | TooManyPolicies(count: nat)

  const POLICY_COUNT_MAX: nat := 16

  type Cc = cc: nat | IsCc(cc) witness 0x11F

  /** What a record keeps of a step, and what steps are compared by. */
  datatype Part = Part(cc: Cc, body: seq<byte>)

  function PartBytes(part: Part): seq<byte> {
    BigEndian(4, part.cc) + BigEndian(4, |part.body|) + part.body
  }

  function SizedPart(part: Part): Result<seq<byte>, VtpmError> {
    if |part.body| >= U32_COUNT then Err(OperationFailed) else Ok(PartBytes(part))
  }

  /** The parts end to end; a body whose size does not fit its field stops it. */
  function PartsBytes(parts: seq<Part>): Result<seq<byte>, VtpmError> {
    if parts == [] then Ok([]) else Concat(SizedPart(parts[0]), PartsBytes(parts[1..]))
  }

  function ListBytes(parts: seq<Part>): Result<seq<byte>, VtpmError> {
    if |parts| >= U32_COUNT then Err(OperationFailed) else Concat(Ok(BigEndian(4, |parts|)), PartsBytes(parts))
  }

  datatype ReadPart = ReadPart(part: Part, rest: seq<byte>)

  function NextPart(tail: seq<byte>): Result<ReadPart, VtpmError> {
    if |tail| < 4 then Err(Unmarshal(TpmError.UnexpectedEnd))
    else
      var cc := FromBigEndian(tail[..4]);
      if !IsCc(cc) then Err(Unmarshal(VariantNotAvailable))
      else if |tail| < 8 then Err(Unmarshal(TpmError.UnexpectedEnd))
      else
        var n := FromBigEndian(tail[4..8]);
        if |tail| - 8 < n then Err(VtpmError.UnexpectedEnd) else Ok(ReadPart(Part(cc, tail[8..8 + n]), tail[8 + n..]))
  }

  datatype ReadSteps<S> = ReadSteps(steps: seq<S>, rest: seq<byte>)

  function LoadSteps<S>(from: Part -> Result<S, VtpmError>, count: nat, tail: seq<byte>)
    : (r: Result<ReadSteps<S>, VtpmError>)
    ensures r.Ok? ==> |r.value.steps| == count
    decreases count
  {
    if count == 0 then Ok(ReadSteps([], tail))
    else
      match NextPart(tail)
      case Err(e) => Err(e)
      case Ok(p) => ConsStep(from(p.part), LoadSteps(from, count - 1, p.rest))
  }

  /** A step that does not read is reported before anything after it is looked at. */
  function ConsStep<S>(step: Result<S, VtpmError>, rest: Result<ReadSteps<S>, VtpmError>)
    : Result<ReadSteps<S>, VtpmError>
  {
    if step.Err? then Err(step.error)
    else if rest.Err? then rest
    else Ok(ReadSteps([step.value] + rest.value.steps, rest.value.rest))
  }

  function LoadList<S>(from: Part -> Result<S, VtpmError>, buffer: seq<byte>): Result<ReadSteps<S>, VtpmError> {
    if |buffer| < 4 then Err(Unmarshal(TpmError.UnexpectedEnd))
    else
      var count := FromBigEndian(buffer[..4]);
      if count > POLICY_COUNT_MAX then Err(TooManyPolicies(count)) else LoadSteps(from, count, buffer[4..])
  }

  // ----- the loops -----

  /** What writing a part puts out: its code is written before its size is found too large. */
  function PartOutput(part: Part): Output<VtpmError> {
    Follow(All(BigEndian(4, part.cc)),
           if |part.body| >= U32_COUNT then Stop(OperationFailed) else All(BigEndian(4, |part.body|) + part.body))
  }

  function PartsOutput(parts: seq<Part>): Output<VtpmError> {
    if parts == [] then All([]) else Follow(PartOutput(parts[0]), PartsOutput(parts[1..]))
  }

  function ListOutput(parts: seq<Part>): Output<VtpmError> {
    if |parts| >= U32_COUNT then Stop(OperationFailed) else Follow(All(BigEndian(4, |parts|)), PartsOutput(parts))
  }

  lemma PartEncodes(part: Part)
    ensures Encoding(PartOutput(part)) == SizedPart(part)
  {
    Associate(BigEndian(4, part.cc), BigEndian(4, |part.body|), part.body);
  }

  lemma {:induction false} PartsEncode(parts: seq<Part>)
    ensures Encoding(PartsOutput(parts)) == PartsBytes(parts)
  {
    if parts != [] {
      PartEncodes(parts[0]);
      PartsEncode(parts[1..]);
      FollowEncodes(PartOutput(parts[0]), PartsOutput(parts[1..]));
    }
  }

  /** The output is the policy list, or is stopped by the error that building the list reports. */
  lemma ListEncodes(parts: seq<Part>)
    ensures Encoding(ListOutput(parts)) == ListBytes(parts)
  {
    PartsEncode(parts);
  }

  const OVERFLOW: VtpmError := Marshal(BufferOverflow)

  /** Writes the policy list. */
  method MarshalPolicyList(parts: seq<Part>, w: TpmWriter) returns (r: Result<Void, VtpmError>)
    requires w.Valid()
    modifies w`cursor, w.buffer
    ensures w.Valid()
    ensures Wrote(old(TapeOf(w)), TapeOf(w), ListOutput(parts), OVERFLOW, r)
    ensures Encoding(ListOutput(parts)) == ListBytes(parts)
  {
    ListEncodes(parts);
    if |parts| >= U32_COUNT {
      return Err(OperationFailed);
    }
    ghost var start := TapeOf(w);
    r := Put(BigEndian(4, |parts|), w);
    ghost var mid, first := TapeOf(w), r;
    if r.Ok? {
      r := MarshalParts(parts, w);
    }
    WroteBoth(start, mid, TapeOf(w), All(BigEndian(4, |parts|)), PartsOutput(parts), OVERFLOW, first, r);
  }

  /** One write, with its error as the cache reports it. */
  method Put(bytes: seq<byte>, w: TpmWriter) returns (r: Result<Void, VtpmError>)
    requires w.Valid()
    modifies w`cursor, w.buffer
    ensures w.Valid()
    ensures Wrote(old(TapeOf(w)), TapeOf(w), All(bytes), OVERFLOW, r)
  {
    var wrote := w.WriteBytes(bytes);
    r := if wrote.Err? then Err(Marshal(wrote.error)) else Ok(Void);
  }

  method MarshalParts(parts: seq<Part>, w: TpmWriter) returns (r: Result<Void, VtpmError>)
    requires w.Valid()
    modifies w`cursor, w.buffer
    ensures w.Valid()
    ensures Wrote(old(TapeOf(w)), TapeOf(w), PartsOutput(parts), OVERFLOW, r)
  {
    ghost var start := TapeOf(w);
    ghost var done: Output<VtpmError>, all := All([]), PartsOutput(parts);
    r := Ok(Void);
    assert parts[0..] == parts;
    FollowNothing(all);
    var i := 0;
    while i < |parts|
      invariant i <= |parts| && w.Valid() && r == Ok(Void)
      invariant Wrote(start, TapeOf(w), done, OVERFLOW, r)
      invariant all == Follow(done, PartsOutput(parts[i..]))
    {
      ghost var mid, x, left := TapeOf(w), PartOutput(parts[i]), PartsOutput(parts[i + 1..]);
      assert parts[i..][0] == parts[i] && parts[i..][1..] == parts[i + 1..];
      r := MarshalPart(parts[i], w);
      WroteRound(start, mid, TapeOf(w), done, x, left, all, OVERFLOW, r);
      if r.Err? {
        return;
      }
      done := Follow(done, x);
      i := i + 1;
    }
    assert parts[i..] == [];
    FollowNothing(done);
  }

  method MarshalPart(part: Part, w: TpmWriter) returns (r: Result<Void, VtpmError>)
    requires w.Valid()
    modifies w`cursor, w.buffer
    ensures w.Valid()
    ensures Wrote(old(TapeOf(w)), TapeOf(w), PartOutput(part), OVERFLOW, r)
  {
    ghost var start := TapeOf(w);
    r := Put(BigEndian(4, part.cc), w);
    ghost var mid, first := TapeOf(w), r;
    ghost var rest :=
      if |part.body| >= U32_COUNT then Stop(OperationFailed) else All(BigEndian(4, |part.body|) + part.body);
    if r.Ok? {
      r := MarshalBody(part.body, w);
    }
    WroteBoth(start, mid, TapeOf(w), All(BigEndian(4, part.cc)), rest, OVERFLOW, first, r);
  }

  method MarshalBody(body: seq<byte>, w: TpmWriter) returns (r: Result<Void, VtpmError>)
    requires w.Valid()
    modifies w`cursor, w.buffer
    ensures w.Valid()
    ensures Wrote(old(TapeOf(w)), TapeOf(w),
                  if |body| >= U32_COUNT then Stop(OperationFailed) else All(BigEndian(4, |body|) + body), OVERFLOW, r)
  {
    if |body| >= U32_COUNT {
      return Err(OperationFailed);
    }
    ghost var start := TapeOf(w);
    r := Put(BigEndian(4, |body|), w);
    ghost var mid, first := TapeOf(w), r;
    if r.Ok? {
      r := Put(body, w);
    }
    WroteBoth(start, mid, TapeOf(w), All(BigEndian(4, |body|)), All(body), OVERFLOW, first, r);
  }

  /** Reads the policy list off a shrinking tail. */
  method UnmarshalPolicyList<S>(from: Part -> Result<S, VtpmError>, buffer: seq<byte>)
    returns (r: Result<ReadSteps<S>, VtpmError>)
    ensures r == LoadList(from, buffer)
  {
    if |buffer| < 4 {
      return Err(Unmarshal(TpmError.UnexpectedEnd));
    }
    var count := FromBigEndian(buffer[..4]);
    if count > POLICY_COUNT_MAX {
      return Err(TooManyPolicies(count));
    }
    var steps, tail := [], buffer[4..];
    ghost var whole := LoadSteps(from, count, tail);
    PrependNoSteps(whole);
    while |steps| < count
      invariant |steps| <= count
      invariant whole == PrependSteps(steps, LoadSteps(from, count - |steps|, tail))
    {
      var next := NextPart(tail);
      if next.Err? {
        return Err(next.error);
      }
      var step := from(next.value.part);
      if step.Err? {
        return Err(step.error);
      }
      PrependStep(steps, step.value, LoadSteps(from, count - |steps| - 1, next.value.rest));
      steps, tail := steps + [step.value], next.value.rest;
    }
    assert steps + [] == steps;
    return Ok(ReadSteps(steps, tail));
  }

  ghost function PrependSteps<S>(done: seq<S>, rest: Result<ReadSteps<S>, VtpmError>): Result<ReadSteps<S>, VtpmError> {
    if rest.Err? then rest else Ok(ReadSteps(done + rest.value.steps, rest.value.rest))
  }

  lemma PrependNoSteps<S>(rest: Result<ReadSteps<S>, VtpmError>)
    ensures PrependSteps([], rest) == rest
  {
    if rest.Ok? {
      assert [] + rest.value.steps == rest.value.steps;
    }
  }

  lemma PrependStep<S>(done: seq<S>, step: S, rest: Result<ReadSteps<S>, VtpmError>)
    ensures PrependSteps(done, ConsStep(Ok(step), rest)) == PrependSteps(done + [step], rest)
  {
    if rest.Ok? {
      assert done + ([step] + rest.value.steps) == done + [step] + rest.value.steps;
    }
  }

  // ----- round trips -----

  /** Reading a step from parts keeps the parts. */
  ghost predicate KeepsParts<S(!new)>(from: Part -> Result<S, VtpmError>, partOf: S -> Part) {
    forall part :: from(part).Ok? ==> partOf(from(part).value) == part
  }

  function PartsOf<S>(partOf: S -> Part, steps: seq<S>): (r: seq<Part>)
    ensures |r| == |steps|
  {
    if steps == [] then [] else [partOf(steps[0])] + PartsOf(partOf, steps[1..])
  }

  lemma NextPartAppend(part: Part, rest: seq<byte>)
    requires |part.body| < U32_COUNT
    ensures NextPart(PartBytes(part) + rest) == Ok(ReadPart(part, rest))
  {
    Pow256Values();
    var tail, n := PartBytes(part) + rest, |part.body|;
    assert tail[..4] == BigEndian(4, part.cc) && tail[4..8] == BigEndian(4, n);
    BigEndianRoundTrip(4, part.cc);
    BigEndianRoundTrip(4, n);
    assert tail[8..8 + n] == part.body && tail[8 + n..] == rest;
  }

  lemma NextPartInverse(tail: seq<byte>)
    requires NextPart(tail).Ok?
    ensures var p := NextPart(tail).value; |p.part.body| < U32_COUNT && tail == PartBytes(p.part) + p.rest
  {
    Pow256Values();
    var p := NextPart(tail).value;
    FromBigEndianRoundTrip(tail[..4]);
    FromBigEndianRoundTrip(tail[4..8]);
    FromBigEndianBound(tail[4..8]);
    assert tail == tail[..4] + tail[4..8] + p.part.body + p.rest;
  }

  /** Written parts are read back, as steps with the same parts, exactly when each of them is readable. */
  lemma {:induction false} StepsRoundTrip<S(!new)>(
      from: Part -> Result<S, VtpmError>, partOf: S -> Part, parts: seq<Part>, rest: seq<byte>)
    requires KeepsParts(from, partOf) && PartsBytes(parts).Ok?
    ensures var r := LoadSteps(from, |parts|, PartsBytes(parts).value + rest);
            && (r.Ok? <==> forall p <- parts :: from(p).Ok?)
            && (r.Ok? ==> r.value.rest == rest && PartsOf(partOf, r.value.steps) == parts)
    decreases parts
  {
    var bytes := PartsBytes(parts).value;
    if parts == [] {
      assert bytes + rest == rest;
    } else {
      var after := PartsBytes(parts[1..]).value + rest;
      assert bytes + rest == PartBytes(parts[0]) + after;
      NextPartAppend(parts[0], after);
      StepsRoundTrip(from, partOf, parts[1..], rest);
      assert parts == [parts[0]] + parts[1..];
      assert forall p :: p in parts <==> p == parts[0] || p in parts[1..];
      var r := LoadSteps(from, |parts|, bytes + rest);
      if r.Ok? {
        assert r.value.steps[1..] == LoadSteps(from, |parts| - 1, after).value.steps;
      }
    }
  }

  /** Writing the parts of loaded steps reproduces the bytes they were read from. */
  lemma {:induction false} StepsReproduce<S(!new)>(
      from: Part -> Result<S, VtpmError>, partOf: S -> Part, count: nat, tail: seq<byte>)
    requires KeepsParts(from, partOf) && LoadSteps(from, count, tail).Ok?
    ensures var r := LoadSteps(from, count, tail).value;
            var written := PartsBytes(PartsOf(partOf, r.steps));
            written.Ok? && tail == written.value + r.rest
    decreases count
  {
    if count == 0 {
      assert tail == [] + tail;
    } else {
      var p, r := NextPart(tail).value, LoadSteps(from, count, tail).value;
      NextPartInverse(tail);
      StepsReproduce(from, partOf, count - 1, p.rest);
      var more := LoadSteps(from, count - 1, p.rest).value;
      assert r.steps[1..] == more.steps;
      assert PartsOf(partOf, r.steps) == [p.part] + PartsOf(partOf, more.steps);
    }
  }

  /** A written list is read back exactly when it has at most sixteen steps and each is readable. */
  lemma ListRoundTrip<S(!new)>(
      from: Part -> Result<S, VtpmError>, partOf: S -> Part, parts: seq<Part>, rest: seq<byte>)
    requires KeepsParts(from, partOf) && ListBytes(parts).Ok?
    ensures var r := LoadList(from, ListBytes(parts).value + rest);
            && (r.Ok? <==> |parts| <= POLICY_COUNT_MAX && forall p <- parts :: from(p).Ok?)
            && (r.Ok? ==> r.value.rest == rest && PartsOf(partOf, r.value.steps) == parts)
  {
    Pow256Values();
    var buffer := ListBytes(parts).value + rest;
    assert buffer[..4] == BigEndian(4, |parts|) && buffer[4..] == PartsBytes(parts).value + rest;
    BigEndianRoundTrip(4, |parts|);
    StepsRoundTrip(from, partOf, parts, rest);
  }

  lemma ListReproduce<S(!new)>(from: Part -> Result<S, VtpmError>, partOf: S -> Part, buffer: seq<byte>)
    requires KeepsParts(from, partOf) && LoadList(from, buffer).Ok?
    ensures var r := LoadList(from, buffer).value;
            var written := ListBytes(PartsOf(partOf, r.steps));
            written.Ok? && buffer == written.value + r.rest
  {
    var count := FromBigEndian(buffer[..4]);
    FromBigEndianRoundTrip(buffer[..4]);
    StepsReproduce(from, partOf, count, buffer[4..]);
    assert buffer == buffer[..4] + buffer[4..];
  }
}
