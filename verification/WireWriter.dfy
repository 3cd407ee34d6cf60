/**
  The bounded cursor all marshalling runs on, marshalling a value into it, and
  the cursor loop that validates a counted list.
 */
module WireWriter {
  import opened Wrappers
  import opened Bytes
  import opened WireSchema
  import opened WireCodec
  import opened WireOutput

  datatype Void = Void

  class TpmWriter {
    const buffer: array<byte>
    var cursor: nat

    ghost predicate Valid()
      reads this
    {
      cursor <= buffer.Length
    }

    /** The bytes written so far. */
    function Written(): (s: seq<byte>)
      requires Valid()
      reads this, buffer
    {
      buffer[..cursor]
    }

    /** The bytes not yet reached by the cursor. */
    function Unwritten(): (s: seq<byte>)
      requires Valid()
      reads this, buffer
    {
      buffer[cursor..]
    }

    constructor (storage: array<byte>)
      ensures Valid() && buffer == storage && Written() == []
    {
      buffer := storage;
      cursor := 0;
    }

    /** Appends `bytes` if they fit; otherwise nothing changes. */
    method WriteBytes(bytes: seq<byte>) returns (r: Result<Void, TpmError>)
      requires Valid()
      modifies this`cursor, buffer
      ensures Valid()
      ensures r == if |bytes| <= |old(Unwritten())| then Ok(Void) else Err(BufferOverflow)
      ensures r.Ok? ==> Written() == old(Written()) + bytes && Unwritten() == old(Unwritten())[|bytes|..]
      ensures r.Err? ==> Written() == old(Written()) && Unwritten() == old(Unwritten())
    {
      var end := cursor + |bytes|;
      if end > buffer.Length {
        return Err(BufferOverflow);
      }
      ghost var before := buffer[..];
      var at := cursor;
      forall i | 0 <= i < |bytes| {
        buffer[at + i] := bytes[i];
      }
      cursor := end;
      assert buffer[..] == before[..at] + bytes + before[end..];
      return Ok(Void);
    }
  }

  /** What a writer has written and the room it has left. */
  datatype Tape = Tape(written: seq<byte>, unwritten: seq<byte>)

  ghost function TapeOf(w: TpmWriter): Tape
    requires w.Valid()
    reads w, w.buffer
  {
    Tape(w.Written(), w.Unwritten())
  }

  /**
    What writing `out` leaves. If all of it fits, it follows what was written, what lies
    beyond is untouched, and the error that stops `out`, if any, is reported; otherwise
    some part of it was written and `overflow` is reported.
   */
  ghost predicate Wrote<E>(a: Tape, b: Tape, out: Output<E>, overflow: E, r: Result<Void, E>) {
    && r == (if |out.bytes| > |a.unwritten| then Err(overflow)
             else if out.stop.Some? then Err(out.stop.value) else Ok(Void))
    && a.written <= b.written <= a.written + out.bytes
    && (|out.bytes| <= |a.unwritten| ==> b == Tape(a.written + out.bytes, a.unwritten[|out.bytes|..]))
  }

  /** One output after another; a failure of the first is a failure of both. */
  lemma WroteBoth<E>(
      a: Tape, b: Tape, c: Tape, x: Output<E>, y: Output<E>, overflow: E, first: Result<Void, E>, r: Result<Void, E>)
    requires Wrote(a, b, x, overflow, first)
    requires if first.Ok? then Wrote(b, c, y, overflow, r) else c == b && r == first
    ensures Wrote(a, c, Follow(x, y), overflow, r)
  {
    if first.Ok? {
      assert a.written + x.bytes + y.bytes == a.written + (x.bytes + y.bytes);
      if |x.bytes + y.bytes| <= |a.unwritten| {
        assert a.unwritten[|x.bytes|..][|y.bytes|..] == a.unwritten[|x.bytes + y.bytes|..];
      }
    } else {
      assert a.written + x.bytes <= a.written + Follow(x, y).bytes;
    }
  }

  /** One round of a loop that writes `x` between what it has done and what is left. */
  lemma WroteRound<E>(
      start: Tape, mid: Tape, end: Tape, done: Output<E>, x: Output<E>, left: Output<E>, all: Output<E>,
      overflow: E, r: Result<Void, E>)
    requires Wrote(start, mid, done, overflow, Ok(Void)) && Wrote(mid, end, x, overflow, r)
    requires all == Follow(done, Follow(x, left))
    ensures all == Follow(Follow(done, x), left) && Wrote(start, end, Follow(done, x), overflow, r)
    ensures r.Err? ==> Wrote(start, end, all, overflow, r)
  {
    FollowAssociative(done, x, left);
    WroteBoth(start, mid, end, done, x, overflow, Ok(Void), r);
    if r.Err? {
      WroteBoth(start, end, end, Follow(done, x), left, overflow, r, r);
    }
  }

  method Marshal(s: Schema, sel: nat, v: Value, w: TpmWriter) returns (r: Result<Void, TpmError>)
    requires Typed(s, v) && w.Valid()
    modifies w`cursor, w.buffer
    ensures w.Valid()
    ensures Wrote(old(TapeOf(w)), TapeOf(w), OutputOf(s, sel, v), BufferOverflow, r)
    decreases s, 1
  {
    match s {
      case List(item, capacity) => r := MarshalList(item, capacity, sel, v.items, w);
      case Pair(a, b) => r := MarshalPair(a, b, sel, v.first, v.second, w);
      case Sized(inner, limit) => r := MarshalSized(inner, limit, sel, v, w);
      case Tagged(width, values, nulls, body) => r := MarshalTagged(width, values, nulls, body, sel, v, w);
      case Union(select, variants) =>
        if !Selects(select, sel, v.id) {
          return Err(VariantNotAvailable);
        }
        r := Marshal(variants[v.id], sel, v.payload, w);
      case _ => r := MarshalLeaf(s, sel, v, w);
    }
  }

  method MarshalLeaf(s: Schema, sel: nat, v: Value, w: TpmWriter) returns (r: Result<Void, TpmError>)
    requires s.Empty? || s.UInt? || s.Bool? || s.Enum? || s.Raw? || s.Buffer?
    requires Typed(s, v) && w.Valid()
    modifies w`cursor, w.buffer
    ensures w.Valid()
    ensures Wrote(old(TapeOf(w)), TapeOf(w), OutputOf(s, sel, v), BufferOverflow, r)
  {
    match s {
      case Empty => r := Ok(Void);
      case UInt(width) => r := w.WriteBytes(BigEndian(width, v.n));
      case Bool => r := w.WriteBytes(BigEndian(1, v.n));
      case Enum(width, _) => r := w.WriteBytes(BigEndian(width, v.n));
      case Raw(_) => r := w.WriteBytes(v.bytes);
      case Buffer(width, _) => r := MarshalBuffer(width, v.bytes, w);
    }
  }

  method MarshalBuffer(width: nat, bytes: seq<byte>, w: TpmWriter) returns (r: Result<Void, TpmError>)
    requires w.Valid()
    modifies w`cursor, w.buffer
    ensures w.Valid()
    ensures Wrote(old(TapeOf(w)), TapeOf(w), All(BigEndian(width, |bytes|) + bytes), BufferOverflow, r)
  {
    ghost var a := TapeOf(w);
    r := w.WriteBytes(BigEndian(width, |bytes|));
    ghost var b, first := TapeOf(w), r;
    if r.Ok? {
      r := w.WriteBytes(bytes);
    }
    WroteBoth(a, b, TapeOf(w), All(BigEndian(width, |bytes|)), All(bytes), BufferOverflow, first, r);
  }

  method MarshalPair(a: Schema, b: Schema, sel: nat, x: Value, y: Value, w: TpmWriter)
    returns (r: Result<Void, TpmError>)
    requires Typed(a, x) && Typed(b, y) && w.Valid()
    modifies w`cursor, w.buffer
    ensures w.Valid()
    ensures Wrote(old(TapeOf(w)), TapeOf(w), Follow(OutputOf(a, sel, x), OutputOf(b, sel, y)), BufferOverflow, r)
    decreases Pair(a, b), 0
  {
    ghost var start := TapeOf(w);
    r := Marshal(a, sel, x, w);
    ghost var mid, first := TapeOf(w), r;
    if r.Ok? {
      r := Marshal(b, sel, y, w);
    }
    WroteBoth(start, mid, TapeOf(w), OutputOf(a, sel, x), OutputOf(b, sel, y), BufferOverflow, first, r);
  }

  method MarshalSized(inner: Schema, limit: nat, sel: nat, v: Value, w: TpmWriter) returns (r: Result<Void, TpmError>)
    requires Typed(inner, v) && w.Valid()
    modifies w`cursor, w.buffer
    ensures w.Valid()
    ensures Wrote(old(TapeOf(w)), TapeOf(w), OutputOf(Sized(inner, limit), sel, v), BufferOverflow, r)
    decreases Sized(inner, limit), 0
  {
    var n := Length(inner, v);
    if n >= U16_COUNT {
      return Err(IntegerTooLarge);
    }
    ghost var start := TapeOf(w);
    r := w.WriteBytes(BigEndian(2, n));
    ghost var mid, first := TapeOf(w), r;
    if r.Ok? {
      r := Marshal(inner, sel, v, w);
    }
    WroteBoth(start, mid, TapeOf(w), All(BigEndian(2, n)), OutputOf(inner, sel, v), BufferOverflow, first, r);
  }

  method MarshalTagged(width: nat, values: set<nat>, nulls: NullRule, body: Schema, sel: nat, v: Value, w: TpmWriter)
    returns (r: Result<Void, TpmError>)
    requires Typed(Tagged(width, values, nulls, body), v) && w.Valid()
    modifies w`cursor, w.buffer
    ensures w.Valid()
    ensures Wrote(old(TapeOf(w)), TapeOf(w), OutputOf(Tagged(width, values, nulls, body), sel, v), BufferOverflow, r)
    decreases Tagged(width, values, nulls, body), 0
  {
    var isNull := nulls.NullTag? && v.tag == nulls.tag;
    if !isNull && !MatchesTag(body, v.tag, v.body) {
      return Err(VariantNotAvailable);
    }
    ghost var start := TapeOf(w);
    r := w.WriteBytes(BigEndian(width, v.tag));
    if !isNull {
      ghost var mid, first := TapeOf(w), r;
      if r.Ok? {
        r := Marshal(body, v.tag, v.body, w);
      }
      WroteBoth(start, mid, TapeOf(w), All(BigEndian(width, v.tag)), OutputOf(body, v.tag, v.body), BufferOverflow,
                first, r);
    }
  }

  method MarshalList(item: Schema, capacity: nat, sel: nat, vs: seq<Value>, w: TpmWriter)
    returns (r: Result<Void, TpmError>)
    requires Typed(List(item, capacity), Items(vs)) && w.Valid()
    modifies w`cursor, w.buffer
    ensures w.Valid()
    ensures Wrote(old(TapeOf(w)), TapeOf(w), OutputOf(List(item, capacity), sel, Items(vs)), BufferOverflow, r)
    decreases List(item, capacity), 0
  {
    ghost var start := TapeOf(w);
    r := w.WriteBytes(BigEndian(4, |vs|));
    ghost var mid, first := TapeOf(w), r;
    if r.Ok? {
      r := MarshalEach(item, sel, vs, w);
    }
    WroteBoth(start, mid, TapeOf(w), All(BigEndian(4, |vs|)), OutputItems(item, sel, vs), BufferOverflow, first, r);
  }

  /** Marshals values one after the other. */
  method MarshalEach(item: Schema, sel: nat, vs: seq<Value>, w: TpmWriter) returns (r: Result<Void, TpmError>)
    requires (forall x <- vs :: Typed(item, x)) && w.Valid()
    modifies w`cursor, w.buffer
    ensures w.Valid()
    ensures Wrote(old(TapeOf(w)), TapeOf(w), OutputItems(item, sel, vs), BufferOverflow, r)
    decreases item, 2
  {
    ghost var start := TapeOf(w);
    ghost var done: Output<TpmError>, all := All([]), OutputItems(item, sel, vs);
    r := Ok(Void);
    assert vs[0..] == vs;
    FollowNothing(all);
    var i := 0;
    while i < |vs|
      invariant i <= |vs| && w.Valid() && r == Ok(Void)
      invariant Wrote(start, TapeOf(w), done, BufferOverflow, r)
      invariant Follow(done, OutputItems(item, sel, vs[i..])) == all
    {
      ghost var mid := TapeOf(w);
      r := Marshal(item, sel, vs[i], w);
      WroteItem(item, sel, vs, i, start, mid, TapeOf(w), done, all, r);
      if r.Err? {
        return;
      }
      done := Follow(done, OutputOf(item, sel, vs[i]));
      i := i + 1;
    }
    assert vs[i..] == [];
    FollowNothing(done);
  }

  lemma WroteItem(
      item: Schema, sel: nat, vs: seq<Value>, i: nat, start: Tape, mid: Tape, end: Tape,
      done: Output<TpmError>, all: Output<TpmError>, r: Result<Void, TpmError>)
    requires i < |vs| && forall v <- vs :: Typed(item, v)
    requires Wrote(start, mid, done, BufferOverflow, Ok(Void)) && all == Follow(done, OutputItems(item, sel, vs[i..]))
    requires Wrote(mid, end, OutputOf(item, sel, vs[i]), BufferOverflow, r)
    ensures var next := Follow(done, OutputOf(item, sel, vs[i]));
            Wrote(start, end, next, BufferOverflow, r) && all == Follow(next, OutputItems(item, sel, vs[i + 1..]))
    ensures r.Err? ==> Wrote(start, end, all, BufferOverflow, r)
  {
    var x, left := OutputOf(item, sel, vs[i]), OutputItems(item, sel, vs[i + 1..]);
    assert vs[i..][0] == vs[i] && vs[i..][1..] == vs[i + 1..];
    WroteRound(start, mid, end, done, x, left, all, BufferOverflow, r);
  }

  /** A typed list's prefix length. */
  method ValidatePrefixItems(item: Schema, capacity: nat, sel: nat, b: seq<byte>)
    returns (r: Result<nat, TpmError>)
    ensures r == Validate(List(item, capacity), sel, b)
  {
    if |b| < 4 {
      return Err(UnexpectedEnd);
    }
    var count := FromBigEndian(b[..4]);
    if count > capacity {
      return Err(TooManyItems);
    }
    r := SkipItems(item, sel, count, b[4..]);
    if r.Ok? {
      r := Ok(4 + r.value);
    }
  }

  method SkipItems(item: Schema, sel: nat, count: nat, items: seq<byte>) returns (r: Result<nat, TpmError>)
    ensures r == ValidateItems(item, sel, count, items)
  {
    var step := (b: seq<byte>) => Validate(item, sel, b);
    r := SkipEach(step, count, items);
    SkippedItems(item, sel, count, items, step);
  }

  /** Moves a cursor over `count` items, each as long as `step` says, adding up what they take. */
  method SkipEach(step: seq<byte> -> Result<nat, TpmError>, count: nat, items: seq<byte>)
    returns (r: Result<nat, TpmError>)
    requires forall b :: step(b).Ok? ==> step(b).value <= |b|
    ensures r == Skipped(step, count, items)
  {
    var cursor, consumed: nat, left := items, 0, count;
    while left > 0
      invariant Skipped(step, count, items) == BothLengths(Ok(consumed), Skipped(step, left, cursor))
    {
      var m := step(cursor);
      if m.Err? {
        return m;
      }
      consumed, cursor, left := consumed + m.value, cursor[m.value..], left - 1;
    }
    return Ok(consumed);
  }

  /** The total length of the first `count` items, or the first failure. */
  function Skipped(step: seq<byte> -> Result<nat, TpmError>, count: nat, items: seq<byte>): Result<nat, TpmError>
    requires forall b :: step(b).Ok? ==> step(b).value <= |b|
  {
    if count == 0 then Ok(0)
    else
      var m := step(items);
      BothLengths(m, if m.Ok? then Skipped(step, count - 1, items[m.value..]) else m)
  }

  lemma {:induction false} SkippedItems(
      item: Schema, sel: nat, n: nat, items: seq<byte>, step: seq<byte> -> Result<nat, TpmError>)
    requires forall b :: step(b).Ok? ==> step(b).value <= |b|
    requires forall b :: step(b) == Validate(item, sel, b)
    ensures Skipped(step, n, items) == ValidateItems(item, sel, n, items)
  {
    if n > 0 {
      var m := step(items);
      assert m == Validate(item, sel, items);
      if m.Ok? {
        SkippedItems(item, sel, n - 1, items[m.value..], step);
      }
      assert ValidateItems(item, sel, n, items)
          == BothLengths(m, if m.Ok? then ValidateItems(item, sel, n - 1, items[m.value..]) else m);
    }
  }
}
