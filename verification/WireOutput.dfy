/**
  What marshalling puts out, byte for byte, before it ends or an error stops it.
  An encoding is the output of marshalling that nothing stops.
 */
module WireOutput {
  import opened Wrappers
  import opened Bytes
  import opened WireSchema
  import opened WireCodec

  datatype Output<E> = Output(bytes: seq<byte>, stop: Option<E>)

  function All<E>(bytes: seq<byte>): Output<E> {
    Output(bytes, None)
  }

  function Stop<E>(error: E): Output<E> {
    Output([], Some(error))
  }

  /** One output after another, unless the first is stopped. */
  function Follow<E>(x: Output<E>, y: Output<E>): Output<E> {
    if x.stop.Some? then x else Output(x.bytes + y.bytes, y.stop)
  }

  function Encoding<E>(x: Output<E>): Result<seq<byte>, E> {
    match x.stop
    case None => Ok(x.bytes)
    case Some(e) => Err(e)
  }

  lemma FollowNothing<E>(x: Output<E>)
    ensures Follow(All([]), x) == x && Follow(x, All([])) == x
  {
    assert [] + x.bytes == x.bytes && x.bytes + [] == x.bytes;
  }

  lemma FollowAssociative<E>(a: Output<E>, b: Output<E>, c: Output<E>)
    ensures Follow(a, Follow(b, c)) == Follow(Follow(a, b), c)
  {
    assert a.bytes + (b.bytes + c.bytes) == a.bytes + b.bytes + c.bytes;
  }

  lemma FollowEncodes<E>(x: Output<E>, y: Output<E>)
    ensures Encoding(Follow(x, y)) == Concat(Encoding(x), Encoding(y))
  {
  }

  /** A tagged structure checks its variants before it writes its tag, a sized one its length. */
  function OutputOf(s: Schema, sel: nat, v: Value): Output<TpmError>
    requires Typed(s, v)
    decreases s, 0
  {
    match s
    case Empty => All([])
    case UInt(w) => All(BigEndian(w, v.n))
    case Bool => All(BigEndian(1, v.n))
    case Enum(w, _) => All(BigEndian(w, v.n))
    case Raw(_) => All(v.bytes)
    case Buffer(w, _) => All(BigEndian(w, |v.bytes|) + v.bytes)
    case List(item, _) => Follow(All(BigEndian(4, |v.items|)), OutputItems(item, sel, v.items))
    case Pair(a, b) => Follow(OutputOf(a, sel, v.first), OutputOf(b, sel, v.second))
    case Sized(inner, _) =>
      if Length(inner, v) >= U16_COUNT then Stop(IntegerTooLarge)
      else Follow(All(BigEndian(2, Length(inner, v))), OutputOf(inner, sel, v))
    case Tagged(w, _, nulls, body) =>
      if nulls.NullTag? && v.tag == nulls.tag then All(BigEndian(w, v.tag))
      else if !MatchesTag(body, v.tag, v.body) then Stop(VariantNotAvailable)
      else Follow(All(BigEndian(w, v.tag)), OutputOf(body, v.tag, v.body))
    case Union(select, variants) =>
      if Selects(select, sel, v.id) then OutputOf(variants[v.id], sel, v.payload)
      else Stop(VariantNotAvailable)
  }

  function OutputItems(item: Schema, sel: nat, vs: seq<Value>): Output<TpmError>
    requires forall x <- vs :: Typed(item, x)
    decreases item, |vs| + 1
  {
    if vs == [] then All([]) else Follow(OutputOf(item, sel, vs[0]), OutputItems(item, sel, vs[1..]))
  }

  /** The output is the encoding, or is stopped by the error that encoding reports. */
  lemma {:induction false} OutputEncodes(s: Schema, sel: nat, v: Value)
    requires Typed(s, v)
    ensures Encoding(OutputOf(s, sel, v)) == Encode(s, sel, v)
    decreases s, 0
  {
    match s
    case List(item, _) => OutputItemsEncode(item, sel, v.items);
    case Pair(a, b) => OutputEncodes(a, sel, v.first); OutputEncodes(b, sel, v.second);
    case Sized(inner, _) => OutputEncodes(inner, sel, v);
    case Tagged(_, _, _, body) => OutputEncodes(body, v.tag, v.body);
    case Union(_, variants) => OutputEncodes(variants[v.id], sel, v.payload);
    case _ =>
  }

  lemma {:induction false} OutputItemsEncode(item: Schema, sel: nat, vs: seq<Value>)
    requires forall x <- vs :: Typed(item, x)
    ensures Encoding(OutputItems(item, sel, vs)) == EncodeItems(item, sel, vs)
    decreases item, |vs| + 1
  {
    if vs != [] {
      OutputEncodes(item, sel, vs[0]);
      OutputItemsEncode(item, sel, vs[1..]);
    }
  }

  /** No output is longer than the value says it is, stopped or not. */
  lemma {:induction false} OutputLength(s: Schema, sel: nat, v: Value)
    requires Typed(s, v)
    ensures |OutputOf(s, sel, v).bytes| <= Length(s, v)
    decreases s, 0
  {
    match s
    case List(item, _) => OutputItemsLength(item, sel, v.items);
    case Pair(a, b) => OutputLength(a, sel, v.first); OutputLength(b, sel, v.second);
    case Sized(inner, _) => OutputLength(inner, sel, v);
    case Tagged(_, _, _, body) => OutputLength(body, v.tag, v.body);
    case Union(_, variants) => OutputLength(variants[v.id], sel, v.payload);
    case _ =>
  }

  lemma {:induction false} OutputItemsLength(item: Schema, sel: nat, vs: seq<Value>)
    requires forall x <- vs :: Typed(item, x)
    ensures |OutputItems(item, sel, vs).bytes| <= LengthItems(item, vs)
    decreases item, |vs| + 1
  {
    if vs != [] {
      OutputLength(item, sel, vs[0]);
      OutputItemsLength(item, sel, vs[1..]);
    }
  }
}
