/**
  The owned encoder and decoder, and the borrowed validator, that the protocol
  crate's macros generate for a wire type. `sel` is the tag of the enclosing
  tagged structure, which selects the variant of a union.
 */
module WireCodec {
  import opened Wrappers
  import opened Bytes
  import opened WireSchema

  datatype Decoded = Decoded(value: Value, rest: seq<byte>)
  datatype DecodedItems = DecodedItems(values: seq<Value>, rest: seq<byte>)

  // ----- marshal -----

  /** The bytes `marshal` writes; a union that its tag does not select is refused. */
  function Encode(s: Schema, sel: nat, v: Value): Result<seq<byte>, TpmError>
    requires Typed(s, v)
    decreases s, 0
  {
    match s
    case Empty => Ok([])
    case UInt(w) => Ok(BigEndian(w, v.n))
    case Bool => Ok(BigEndian(1, v.n))
    case Enum(w, _) => Ok(BigEndian(w, v.n))
    case Raw(_) => Ok(v.bytes)
    case Buffer(w, _) => Ok(BigEndian(w, |v.bytes|) + v.bytes)
    case List(item, _) => Concat(Ok(BigEndian(4, |v.items|)), EncodeItems(item, sel, v.items))
    case Pair(a, b) => Concat(Encode(a, sel, v.first), Encode(b, sel, v.second))
    case Sized(inner, _) =>
      if Length(inner, v) >= U16_COUNT then Err(IntegerTooLarge)
      else Concat(Ok(BigEndian(2, Length(inner, v))), Encode(inner, sel, v))
    case Tagged(w, _, nulls, body) =>
      if nulls.NullTag? && v.tag == nulls.tag then Ok(BigEndian(w, v.tag))
      else if !MatchesTag(body, v.tag, v.body) then Err(VariantNotAvailable)
      else Concat(Ok(BigEndian(w, v.tag)), Encode(body, v.tag, v.body))
    case Union(select, variants) =>
      if Selects(select, sel, v.id) then Encode(variants[v.id], sel, v.payload)
      else Err(VariantNotAvailable)
  }

  /** The tag selects the variants of all the unions that stand beside it (`matches_tag`). */
  predicate MatchesTag(s: Schema, tag: nat, v: Value)
    requires Typed(s, v)
  {
    match s
    case Pair(a, b) => MatchesTag(a, tag, v.first) && MatchesTag(b, tag, v.second)
    case Union(select, _) => Selects(select, tag, v.id)
    case _ => true
  }

  function EncodeItems(item: Schema, sel: nat, vs: seq<Value>): Result<seq<byte>, TpmError>
    requires forall x <- vs :: Typed(item, x)
    decreases item, |vs| + 1
  {
    if vs == [] then Ok([]) else Concat(Encode(item, sel, vs[0]), EncodeItems(item, sel, vs[1..]))
  }

  /** One encoding after another; the first failure wins. */
  function Concat<E>(x: Result<seq<byte>, E>, y: Result<seq<byte>, E>): Result<seq<byte>, E> {
    if x.Err? then x else if y.Err? then y else Ok(x.value + y.value)
  }

  lemma ConcatEmpty<E>(x: Result<seq<byte>, E>)
    ensures Concat(Ok([]), x) == x && Concat(x, Ok([])) == x
  {
    if x.Ok? {
      assert [] + x.value == x.value && x.value + [] == x.value;
    }
  }

  lemma ConcatAssociative<E>(a: Result<seq<byte>, E>, b: Result<seq<byte>, E>, c: Result<seq<byte>, E>)
    ensures Concat(a, Concat(b, c)) == Concat(Concat(a, b), c)
  {
    if a.Ok? && b.Ok? && c.Ok? {
      assert a.value + (b.value + c.value) == a.value + b.value + c.value;
    }
  }

  /** `TpmSized::len`: the serialized length, computed without serializing. */
  function Length(s: Schema, v: Value): nat
    requires Typed(s, v)
    decreases s, 0
  {
    match s
    case Empty => 0
    case UInt(w) => w
    case Bool => 1
    case Enum(w, _) => w
    case Raw(n) => n
    case Buffer(w, _) => w + |v.bytes|
    case List(item, _) => 4 + LengthItems(item, v.items)
    case Pair(a, b) => Length(a, v.first) + Length(b, v.second)
    case Sized(inner, _) => 2 + Length(inner, v)
    case Tagged(w, _, nulls, body) =>
      if nulls.NullTag? && v.tag == nulls.tag then w else w + Length(body, v.body)
    case Union(_, variants) => Length(variants[v.id], v.payload)
  }

  function LengthItems(item: Schema, vs: seq<Value>): nat
    requires forall x <- vs :: Typed(item, x)
    decreases item, |vs| + 1
  {
    if vs == [] then 0 else Length(item, vs[0]) + LengthItems(item, vs[1..])
  }

  // ----- unmarshal -----

  function BufferLimitError(sizeWidth: nat): TpmError {
    if sizeWidth == 1 then TooManyItems else TooManyBytes
  }

  /** Reads one owned value from the start of `b`. */
  function Decode(s: Schema, sel: nat, b: seq<byte>): Result<Decoded, TpmError>
    decreases s, 0, 0
  {
    match s
    case Empty => Ok(Decoded(Unit, b))
    case UInt(w) => DecodeInt(w, b)
    case Bool =>
      (match DecodeInt(1, b)
       case Err(e) => Err(e)
       case Ok(d) => if d.value.n < 2 then Ok(d) else Err(InvalidBoolean))
    case Enum(w, values) =>
      (match DecodeInt(w, b)
       case Err(e) => Err(e)
       case Ok(d) => if d.value.n in values then Ok(d) else Err(VariantNotAvailable))
    case Raw(n) =>
      if |b| < n then Err(UnexpectedEnd) else Ok(Decoded(Octets(b[..n]), b[n..]))
    case Buffer(w, cap) => DecodeBuffer(w, cap, b)
    case List(item, cap) =>
      (match DecodeInt(4, b)
       case Err(e) => Err(e)
       case Ok(d) =>
         if d.value.n > cap then Err(TooManyItems)
         else
           match DecodeItems(item, sel, d.value.n, d.rest)
           case Err(e) => Err(e)
           case Ok(l) => Ok(Decoded(Items(l.values), l.rest)))
    case Pair(x, y) =>
      var d := Decode(x, sel, b);
      BothValues(d, if d.Ok? then Decode(y, sel, d.value.rest) else d)
    case Sized(inner, limit) =>
      (match DecodeBuffer(2, limit, b)
       case Err(e) => Err(e)
       case Ok(d) =>
         match Decode(inner, sel, d.value.bytes)
         case Err(e) => Err(e)
         case Ok(f) => if f.rest != [] then Err(TrailingData) else Ok(Decoded(f.value, d.rest)))
    case Tagged(w, values, nulls, body) =>
      (match DecodeInt(w, b)
       case Err(e) => Err(e)
       case Ok(d) =>
         var t := d.value.n;
         if t !in values then Err(VariantNotAvailable)
         else if nulls.NullTag? && t == nulls.tag then Ok(Decoded(WithTag(t, nulls.details), d.rest))
         else
           match Decode(body, t, d.rest)
           case Err(e) => Err(e)
           case Ok(f) => Ok(Decoded(WithTag(t, f.value), f.rest)))
    case Union(select, variants) =>
      if sel !in select || select[sel] >= |variants| then Err(VariantNotAvailable)
      else
        match Decode(variants[select[sel]], sel, b)
        case Err(e) => Err(e)
        case Ok(d) => Ok(Decoded(Variant(select[sel], d.value), d.rest))
  }

  function BothValues(x: Result<Decoded, TpmError>, y: Result<Decoded, TpmError>): Result<Decoded, TpmError> {
    if x.Err? then x
    else if y.Err? then y
    else Ok(Decoded(Both(x.value.value, y.value.value), y.value.rest))
  }

  function DecodeItems(item: Schema, sel: nat, n: nat, b: seq<byte>): Result<DecodedItems, TpmError>
    decreases item, 1, n
  {
    if n == 0 then Ok(DecodedItems([], b))
    else
      match Decode(item, sel, b)
      case Err(e) => Err(e)
      case Ok(d) => ConsItem(d.value, DecodeItems(item, sel, n - 1, d.rest))
  }

  function ConsItem(v: Value, l: Result<DecodedItems, TpmError>): Result<DecodedItems, TpmError> {
    if l.Err? then l else Ok(DecodedItems([v] + l.value.values, l.value.rest))
  }

  function DecodeInt(width: nat, b: seq<byte>): (r: Result<Decoded, TpmError>)
    ensures r.Ok? ==> r.value.value.Num? && |b| >= width && r.value.rest == b[width..]
  {
    if |b| < width then Err(UnexpectedEnd) else Ok(Decoded(Num(FromBigEndian(b[..width])), b[width..]))
  }

  /** A size field, and that many bytes. */
  function DecodeBuffer(w: nat, cap: nat, b: seq<byte>): (r: Result<Decoded, TpmError>)
    ensures r.Ok? ==> r.value.value.Octets? && |b| == w + |r.value.value.bytes| + |r.value.rest|
  {
    if |b| < w then Err(UnexpectedEnd)
    else
      var n := FromBigEndian(b[..w]);
      if n > cap then Err(BufferLimitError(w))
      else if |b| - w < n then Err(UnexpectedEnd)
      else Ok(Decoded(Octets(b[w..w + n]), b[w + n..]))
  }

  // ----- validate_prefix / cast_prefix_field -----

  /** The number of bytes the borrowed view of the first value in `b` covers. */
  function Validate(s: Schema, sel: nat, b: seq<byte>): (r: Result<nat, TpmError>)
    ensures r.Ok? ==> r.value <= |b|
    decreases s, 0, 0
  {
    match s
    case Empty => Ok(0)
    case UInt(w) => ValidateInt(w, b)
    case Bool =>
      if |b| < 1 then Err(UnexpectedEnd) else if b[0] > 1 then Err(InvalidBoolean) else Ok(1)
    case Enum(w, values) =>
      if |b| < w then Err(UnexpectedEnd)
      else if FromBigEndian(b[..w]) !in values then Err(VariantNotAvailable)
      else Ok(w)
    case Raw(n) => ValidateInt(n, b)
    case Buffer(w, cap) => ValidateBuffer(w, cap, b)
    case List(item, cap) =>
      (if |b| < 4 then Err(UnexpectedEnd)
       else
         var n := FromBigEndian(b[..4]);
         if n > cap then Err(TooManyItems)
         else
           match ValidateItems(item, sel, n, b[4..])
           case Err(e) => Err(e)
           case Ok(m) => Ok(4 + m))
    case Pair(x, y) =>
      var m := Validate(x, sel, b);
      BothLengths(m, if m.Ok? then Validate(y, sel, b[m.value..]) else m)
    case Sized(inner, limit) =>
      (match ValidateBuffer(2, limit, b)
       case Err(e) => Err(e)
       case Ok(n) =>
         match Validate(inner, sel, b[2..n])
         case Err(e) => Err(e)
         case Ok(m) => if 2 + m < n then Err(TrailingData) else Ok(n))
    case Tagged(w, values, nulls, body) =>
      (if |b| < w then Err(UnexpectedEnd)
       else
         var t := FromBigEndian(b[..w]);
         if t !in values then Err(VariantNotAvailable)
         else if nulls.NullTag? && t == nulls.tag then Ok(w)
         else
           match Validate(body, t, b[w..])
           case Err(e) => Err(e)
           case Ok(m) => Ok(w + m))
    case Union(select, variants) =>
      if sel !in select || select[sel] >= |variants| then Err(VariantNotAvailable)
      else Validate(variants[select[sel]], sel, b)
  }

  function BothLengths(m: Result<nat, TpmError>, n: Result<nat, TpmError>): Result<nat, TpmError> {
    if m.Err? then m else if n.Err? then n else Ok(m.value + n.value)
  }

  /** The number of bytes the first `n` items of `cursor` cover. */
  function ValidateItems(item: Schema, sel: nat, n: nat, cursor: seq<byte>): (r: Result<nat, TpmError>)
    ensures r.Ok? ==> r.value <= |cursor|
    decreases item, 1, n
  {
    if n == 0 then Ok(0)
    else
      var m := Validate(item, sel, cursor);
      BothLengths(m, if m.Ok? then ValidateItems(item, sel, n - 1, cursor[m.value..]) else m)
  }

  function ValidateInt(width: nat, b: seq<byte>): (r: Result<nat, TpmError>)
    ensures r.Ok? ==> r.value == width <= |b|
  {
    if |b| < width then Err(UnexpectedEnd) else Ok(width)
  }

  function ValidateBuffer(w: nat, cap: nat, b: seq<byte>): (r: Result<nat, TpmError>)
    ensures r.Ok? ==> w <= r.value <= |b|
  {
    if |b| < w then Err(UnexpectedEnd)
    else
      var n := FromBigEndian(b[..w]);
      if n > cap then Err(BufferLimitError(w))
      else if |b| < w + n then Err(UnexpectedEnd)
      else Ok(w + n)
  }

  // ----- tags and lengths -----

  /** A value that encodes under a tag matches it. */
  lemma {:induction false} EncodedMatches(s: Schema, sel: nat, v: Value)
    requires Typed(s, v) && Encode(s, sel, v).Ok?
    ensures MatchesTag(s, sel, v)
  {
    if s.Pair? {
      EncodedMatches(s.first, sel, v.first);
      EncodedMatches(s.second, sel, v.second);
    }
  }

  lemma {:induction false} EncodeLength(s: Schema, sel: nat, v: Value)
    requires Typed(s, v)
    ensures Encode(s, sel, v).Ok? ==> |Encode(s, sel, v).value| == Length(s, v)
    decreases s, 0
  {
    match s
    case List(item, _) => EncodeItemsLength(item, sel, v.items);
    case Pair(a, b) => EncodeLength(a, sel, v.first); EncodeLength(b, sel, v.second);
    case Sized(inner, _) => EncodeLength(inner, sel, v);
    case Tagged(_, _, _, body) => EncodeLength(body, v.tag, v.body);
    case Union(_, variants) => EncodeLength(variants[v.id], sel, v.payload);
    case _ =>
  }

  lemma {:induction false} EncodeItemsLength(item: Schema, sel: nat, vs: seq<Value>)
    requires forall x <- vs :: Typed(item, x)
    ensures EncodeItems(item, sel, vs).Ok? ==> |EncodeItems(item, sel, vs).value| == LengthItems(item, vs)
    decreases item, |vs| + 1
  {
    if vs != [] {
      EncodeLength(item, sel, vs[0]);
      EncodeItemsLength(item, sel, vs[1..]);
    }
  }

  /** No value is longer than the maximum computed for its type. */
  lemma {:induction false} LengthBound(s: Schema, v: Value)
    requires Typed(s, v)
    ensures Length(s, v) <= MaxLen(s)
    decreases s, 0
  {
    match s
    case List(item, cap) =>
      LengthItemsBound(item, v.items);
      MulMonotone(|v.items|, cap, MaxLen(item));
    case Pair(a, b) => LengthBound(a, v.first); LengthBound(b, v.second);
    case Sized(inner, _) => LengthBound(inner, v);
    case Tagged(_, _, _, body) => LengthBound(body, v.body);
    case Union(_, variants) => LengthBound(variants[v.id], v.payload);
    case _ =>
  }

  lemma MulMonotone(a: nat, b: nat, c: nat)
    requires a <= b
    ensures a * c <= b * c
  {
  }

  lemma {:induction false} LengthItemsBound(item: Schema, vs: seq<Value>)
    requires forall x <- vs :: Typed(item, x)
    ensures LengthItems(item, vs) <= |vs| * MaxLen(item)
    decreases item, |vs| + 1
  {
    if vs != [] {
      LengthBound(item, vs[0]);
      LengthItemsBound(item, vs[1..]);
      assert |vs| * MaxLen(item) == MaxLen(item) + (|vs| - 1) * MaxLen(item);
    }
  }
}
