/**
  What the wire codec promises, for every well-formed schema at once: decoding
  and encoding are inverse in both directions, and the borrowed validator and
  the owned decoder agree on every input.
 */
module WireTheorems {
  import opened Wrappers
  import opened Bytes
  import opened Sequences
  import opened WireSchema
  import opened WireCodec

  lemma DecodeIntAppend(w: nat, n: nat, rest: seq<byte>)
    requires n < Pow256(w)
    ensures DecodeInt(w, BigEndian(w, n) + rest) == Ok(Decoded(Num(n), rest))
  {
    var b := BigEndian(w, n) + rest;
    assert b[..w] == BigEndian(w, n) && b[w..] == rest;
    BigEndianRoundTrip(w, n);
  }

  lemma DecodeIntInverse(w: nat, b: seq<byte>)
    requires DecodeInt(w, b).Ok?
    ensures var d := DecodeInt(w, b).value;
            d.value.n < Pow256(w) && b == BigEndian(w, d.value.n) + d.rest
  {
    FromBigEndianRoundTrip(b[..w]);
    FromBigEndianBound(b[..w]);
    assert b == b[..w] + b[w..];
  }

  lemma DecodeBufferAppend(w: nat, cap: nat, bytes: seq<byte>, rest: seq<byte>)
    requires |bytes| <= cap && |bytes| < Pow256(w)
    ensures DecodeBuffer(w, cap, BigEndian(w, |bytes|) + bytes + rest) == Ok(Decoded(Octets(bytes), rest))
  {
    var b := BigEndian(w, |bytes|) + bytes + rest;
    assert b[..w] == BigEndian(w, |bytes|);
    assert b[w..w + |bytes|] == bytes && b[w + |bytes|..] == rest;
    BigEndianRoundTrip(w, |bytes|);
  }

  lemma DecodeBufferInverse(w: nat, cap: nat, b: seq<byte>)
    requires DecodeBuffer(w, cap, b).Ok?
    ensures var d := DecodeBuffer(w, cap, b).value;
            && |d.value.bytes| <= cap
            && |d.value.bytes| < Pow256(w)
            && b == BigEndian(w, |d.value.bytes|) + d.value.bytes + d.rest
  {
    FromBigEndianRoundTrip(b[..w]);
    FromBigEndianBound(b[..w]);
    var n := FromBigEndian(b[..w]);
    assert b == b[..w] + b[w..w + n] + b[w + n..];
  }

  // ----- decode after encode -----

  /** Decoding an encoding, whatever follows it, gives the canonical value and leaves what follows. */
  lemma {:induction false} DecodeEncode(s: Schema, sel: nat, v: Value, rest: seq<byte>)
    requires WellFormed(s) && Typed(s, v) && Encode(s, sel, v).Ok?
    ensures Decode(s, sel, Encode(s, sel, v).value + rest) == Ok(Decoded(Canon(s, v), rest))
    decreases s, 0
  {
    Pow256Values();
    var enc := Encode(s, sel, v).value;
    match s
    case Empty => assert enc + rest == rest;
    case UInt(w) => DecodeIntAppend(w, v.n, rest);
    case Bool => DecodeIntAppend(1, v.n, rest);
    case Enum(w, _) => DecodeIntAppend(w, v.n, rest);
    case Raw(n) => assert (enc + rest)[..n] == v.bytes && (enc + rest)[n..] == rest;
    case Buffer(w, cap) => DecodeBufferAppend(w, cap, v.bytes, rest);
    case List(item, _) =>
      var body := EncodeItems(item, sel, v.items).value;
      DecodeIntAppend(4, |v.items|, body + rest);
      assert enc + rest == BigEndian(4, |v.items|) + (body + rest);
      DecodeEncodeItems(item, sel, v.items, rest);
    case Pair(a, b) =>
      var x, y := Encode(a, sel, v.first).value, Encode(b, sel, v.second).value;
      assert enc + rest == x + (y + rest);
      DecodeEncode(a, sel, v.first, y + rest);
      DecodeEncode(b, sel, v.second, rest);
    case Sized(inner, limit) => DecodeEncodeSized(inner, limit, sel, v, rest);
    case Tagged(w, _, nulls, body) =>
      if nulls.NullTag? && v.tag == nulls.tag {
        DecodeIntAppend(w, v.tag, rest);
      } else {
        var x := Encode(body, v.tag, v.body).value;
        assert enc + rest == BigEndian(w, v.tag) + (x + rest);
        DecodeIntAppend(w, v.tag, x + rest);
        DecodeEncode(body, v.tag, v.body, rest);
      }
    case Union(_, variants) => DecodeEncode(variants[v.id], sel, v.payload, rest);
  }

  lemma {:induction false} DecodeEncodeSized(inner: Schema, limit: nat, sel: nat, v: Value, rest: seq<byte>)
    requires WellFormed(Sized(inner, limit)) && Typed(inner, v) && Encode(Sized(inner, limit), sel, v).Ok?
    ensures Decode(Sized(inner, limit), sel, Encode(Sized(inner, limit), sel, v).value + rest)
            == Ok(Decoded(Canon(inner, v), rest))
    decreases inner, 1
  {
    Pow256Values();
    var x := Encode(inner, sel, v).value;
    EncodeLength(inner, sel, v);
    LengthBound(inner, v);
    DecodeBufferAppend(2, limit, x, rest);
    DecodeEncode(inner, sel, v, []);
    assert x + [] == x;
  }

  lemma {:induction false} DecodeEncodeItems(item: Schema, sel: nat, vs: seq<Value>, rest: seq<byte>)
    requires WellFormed(item) && (forall x <- vs :: Typed(item, x)) && EncodeItems(item, sel, vs).Ok?
    ensures DecodeItems(item, sel, |vs|, EncodeItems(item, sel, vs).value + rest)
            == Ok(DecodedItems(CanonItems(item, vs), rest))
    decreases item, |vs| + 1
  {
    var enc := EncodeItems(item, sel, vs).value;
    if vs == [] {
      assert enc + rest == rest;
    } else {
      var x, y := Encode(item, sel, vs[0]), EncodeItems(item, sel, vs[1..]);
      assert EncodeItems(item, sel, vs) == Concat(x, y);
      var tail := y.value + rest;
      Associate(x.value, y.value, rest);
      DecodeEncodeItems(item, sel, vs[1..], rest);
      DecodeEncode(item, sel, vs[0], tail);
      DecodeItemsCons(item, sel, |vs| - 1, enc + rest, Decoded(Canon(item, vs[0]), tail));
      assert CanonItems(item, vs) == [Canon(item, vs[0])] + CanonItems(item, vs[1..]);
    }
  }

  lemma DecodeItemsCons(item: Schema, sel: nat, n: nat, b: seq<byte>, d: Decoded)
    requires Decode(item, sel, b) == Ok(d)
    ensures DecodeItems(item, sel, n + 1, b) == ConsItem(d.value, DecodeItems(item, sel, n, d.rest))
  {
  }

  /** Decode returns the value itself exactly when it holds no details under a null tag. */
  lemma DecodeEncodeExact(s: Schema, sel: nat, v: Value, rest: seq<byte>)
    requires WellFormed(s) && Typed(s, v) && Encode(s, sel, v).Ok?
    ensures Decode(s, sel, Encode(s, sel, v).value + rest) == Ok(Decoded(v, rest)) <==> NoHiddenDetails(s, v)
  {
    DecodeEncode(s, sel, v, rest);
    CanonFixed(s, v);
  }

  /** Every null tag in `v` carries the null details that decoding gives it. */
  predicate NoHiddenDetails(s: Schema, v: Value)
    requires Typed(s, v)
  {
    match s
    case List(item, _) => forall x <- v.items :: NoHiddenDetails(item, x)
    case Pair(a, b) => NoHiddenDetails(a, v.first) && NoHiddenDetails(b, v.second)
    case Sized(inner, _) => NoHiddenDetails(inner, v)
    case Tagged(_, _, nulls, body) =>
      if nulls.NullTag? && v.tag == nulls.tag then v.body == nulls.details
      else NoHiddenDetails(body, v.body)
    case Union(_, variants) => NoHiddenDetails(variants[v.id], v.payload)
    case _ => true
  }

  lemma {:induction false} CanonFixed(s: Schema, v: Value)
    requires Typed(s, v)
    ensures Canon(s, v) == v <==> NoHiddenDetails(s, v)
    decreases s, 0
  {
    match s
    case List(item, _) => CanonItemsFixed(item, v.items);
    case Pair(a, b) => CanonFixed(a, v.first); CanonFixed(b, v.second);
    case Sized(inner, _) => CanonFixed(inner, v);
    case Tagged(_, _, _, body) => CanonFixed(body, v.body);
    case Union(_, variants) => CanonFixed(variants[v.id], v.payload);
    case _ =>
  }

  lemma {:induction false} CanonItemsFixed(item: Schema, vs: seq<Value>)
    requires forall x <- vs :: Typed(item, x)
    ensures CanonItems(item, vs) == vs <==> forall x <- vs :: NoHiddenDetails(item, x)
    decreases item, |vs| + 1
  {
    if vs != [] {
      CanonFixed(item, vs[0]);
      CanonItemsFixed(item, vs[1..]);
      var c := CanonItems(item, vs);
      assert vs == [vs[0]] + vs[1..];
      if c == vs {
        assert c[0] == vs[0] && c[1..] == CanonItems(item, vs[1..]);
      }
    }
  }

  // ----- encode after decode -----

  /** Encoding what was decoded from `b` gives back the bytes consumed. */
  ghost predicate Reproduces(s: Schema, sel: nat, b: seq<byte>, d: Decoded) {
    && Typed(s, d.value)
    && Canon(s, d.value) == d.value
    && Encode(s, sel, d.value).Ok?
    && b == Encode(s, sel, d.value).value + d.rest
  }

  ghost predicate ReproducesItems(item: Schema, sel: nat, n: nat, b: seq<byte>, d: DecodedItems) {
    && |d.values| == n
    && (forall x <- d.values :: Typed(item, x))
    && CanonItems(item, d.values) == d.values
    && EncodeItems(item, sel, d.values).Ok?
    && b == EncodeItems(item, sel, d.values).value + d.rest
  }

  /** Re-encoding a decoded value reproduces the bytes that were consumed; the value is canonical. */
  lemma {:induction false} EncodeDecode(s: Schema, sel: nat, b: seq<byte>)
    requires WellFormed(s) && Decode(s, sel, b).Ok?
    ensures Reproduces(s, sel, b, Decode(s, sel, b).value)
    decreases s, 0, 0
  {
    match s
    case Empty => assert b == [] + b;
    case UInt(w) => DecodeIntInverse(w, b);
    case Bool => DecodeIntInverse(1, b);
    case Enum(w, _) => DecodeIntInverse(w, b);
    case Raw(n) => assert b == b[..n] + b[n..];
    case Buffer(w, cap) => DecodeBufferInverse(w, cap, b);
    case List(item, cap) =>
      var d := DecodeInt(4, b).value;
      EncodeDecodeItems(item, sel, d.value.n, d.rest);
      ReproducesList(item, cap, sel, b, d, DecodeItems(item, sel, d.value.n, d.rest).value);
    case Pair(x, y) =>
      EncodeDecode(x, sel, b);
      var d := Decode(x, sel, b).value;
      EncodeDecode(y, sel, d.rest);
      ReproducesBoth(x, y, sel, b, d, Decode(y, sel, d.rest).value);
    case Sized(inner, limit) =>
      var d := DecodeBuffer(2, limit, b).value;
      EncodeDecode(inner, sel, d.value.bytes);
      ReproducesSized(inner, limit, sel, b, d, Decode(inner, sel, d.value.bytes).value);
    case Tagged(w, values, nulls, body) =>
      DecodeIntInverse(w, b);
      var d := DecodeInt(w, b).value;
      if !(nulls.NullTag? && d.value.n == nulls.tag) {
        EncodeDecode(body, d.value.n, d.rest);
        ReproducesTagged(w, values, nulls, body, sel, b, d, Decode(body, d.value.n, d.rest).value);
      }
    case Union(select, variants) => EncodeDecode(variants[select[sel]], sel, b);
  }

  lemma ReproducesBoth(x: Schema, y: Schema, sel: nat, b: seq<byte>, d: Decoded, e: Decoded)
    requires Reproduces(x, sel, b, d) && Reproduces(y, sel, d.rest, e)
    ensures Reproduces(Pair(x, y), sel, b, Decoded(Both(d.value, e.value), e.rest))
  {
    assert b == Encode(x, sel, d.value).value + Encode(y, sel, e.value).value + e.rest;
  }

  lemma ReproducesSized(inner: Schema, limit: nat, sel: nat, b: seq<byte>, d: Decoded, e: Decoded)
    requires limit < U16_COUNT && DecodeBuffer(2, limit, b) == Ok(d)
    requires Reproduces(inner, sel, d.value.bytes, e) && e.rest == []
    ensures Reproduces(Sized(inner, limit), sel, b, Decoded(e.value, d.rest))
  {
    DecodeBufferInverse(2, limit, b);
    EncodeLength(inner, sel, e.value);
    assert d.value.bytes == Encode(inner, sel, e.value).value;
  }

  lemma ReproducesList(item: Schema, cap: nat, sel: nat, b: seq<byte>, head: Decoded, l: DecodedItems)
    requires DecodeInt(4, b) == Ok(head) && head.value.n <= cap
    requires ReproducesItems(item, sel, head.value.n, head.rest, l)
    ensures Reproduces(List(item, cap), sel, b, Decoded(Items(l.values), l.rest))
  {
    DecodeIntInverse(4, b);
    var body := EncodeItems(item, sel, l.values).value;
    assert b == BigEndian(4, head.value.n) + body + l.rest;
  }

  lemma ReproducesCons(item: Schema, sel: nat, n: nat, b: seq<byte>, d: Decoded, e: DecodedItems)
    requires Reproduces(item, sel, b, d) && ReproducesItems(item, sel, n, d.rest, e)
    ensures ReproducesItems(item, sel, n + 1, b, DecodedItems([d.value] + e.values, e.rest))
  {
    var vs := [d.value] + e.values;
    assert vs[1..] == e.values;
    assert b == Encode(item, sel, d.value).value + EncodeItems(item, sel, e.values).value + e.rest;
  }

  lemma ReproducesTagged(w: nat, values: set<nat>, nulls: NullRule, body: Schema, sel: nat, b: seq<byte>,
                         head: Decoded, e: Decoded)
    requires DecodeInt(w, b) == Ok(head) && head.value.n in values
    requires !(nulls.NullTag? && head.value.n == nulls.tag)
    requires Reproduces(body, head.value.n, head.rest, e)
    ensures Reproduces(Tagged(w, values, nulls, body), sel, b, Decoded(WithTag(head.value.n, e.value), e.rest))
  {
    DecodeIntInverse(w, b);
    EncodedMatches(body, head.value.n, e.value);
    assert b == BigEndian(w, head.value.n) + Encode(body, head.value.n, e.value).value + e.rest;
  }

  lemma {:induction false} EncodeDecodeItems(item: Schema, sel: nat, n: nat, b: seq<byte>)
    requires WellFormed(item) && DecodeItems(item, sel, n, b).Ok?
    ensures ReproducesItems(item, sel, n, b, DecodeItems(item, sel, n, b).value)
    decreases item, 1, n
  {
    if n == 0 {
      assert b == [] + b;
    } else {
      var d := Decode(item, sel, b).value;
      var l := DecodeItems(item, sel, n - 1, d.rest);
      DecodeItemsCons(item, sel, n - 1, b, d);
      EncodeDecode(item, sel, b);
      EncodeDecodeItems(item, sel, n - 1, d.rest);
      ReproducesCons(item, sel, n - 1, b, d, l.value);
    }
  }

  /** Two values that encode alike have the same canonical form: equal bytes mean equal wire values. */
  lemma EncodeInjective(s: Schema, sel: nat, v: Value, w: Value)
    requires WellFormed(s) && Typed(s, v) && Typed(s, w)
    requires Encode(s, sel, v).Ok? && Encode(s, sel, v) == Encode(s, sel, w)
    ensures Canon(s, v) == Canon(s, w)
  {
    DecodeEncode(s, sel, v, []);
    DecodeEncode(s, sel, w, []);
  }

  /** The canonical form of a value has the value's own encoding. */
  lemma EncodeCanon(s: Schema, sel: nat, v: Value)
    requires WellFormed(s) && Typed(s, v) && Encode(s, sel, v).Ok?
    ensures Typed(s, Canon(s, v)) && Encode(s, sel, Canon(s, v)) == Encode(s, sel, v)
    ensures Canon(s, Canon(s, v)) == Canon(s, v)
  {
    var enc := Encode(s, sel, v).value;
    DecodeEncode(s, sel, v, []);
    assert enc + [] == enc;
    EncodeDecode(s, sel, enc);
    assert enc == Encode(s, sel, Canon(s, v)).value;
  }

  // ----- borrowed validator and owned decoder -----

  /** Same verdict and same error; on success the decoder leaves what the validated prefix does not cover. */
  ghost predicate Agree(valid: Result<nat, TpmError>, decoded: Result<Decoded, TpmError>, b: seq<byte>) {
    match decoded
    case Err(e) => valid == Err(e)
    case Ok(d) => valid.Ok? && valid.value <= |b| && d.rest == b[valid.value..]
  }

  ghost predicate AgreeItems(valid: Result<nat, TpmError>, decoded: Result<DecodedItems, TpmError>, b: seq<byte>) {
    match decoded
    case Err(e) => valid == Err(e)
    case Ok(d) => valid.Ok? && valid.value <= |b| && d.rest == b[valid.value..]
  }

  /** The validator accepts what the decoder accepts, to the same length, and fails with the same error. */
  lemma {:induction false} ValidateAgrees(s: Schema, sel: nat, b: seq<byte>)
    ensures Agree(Validate(s, sel, b), Decode(s, sel, b), b)
    decreases s, 2, 0
  {
    match s
    case List(item, cap) => ValidateListAgrees(item, cap, sel, b);
    case Pair(x, y) => ValidatePairAgrees(x, y, sel, b);
    case Sized(inner, limit) => ValidateSizedAgrees(inner, limit, sel, b);
    case Tagged(w, values, nulls, body) => ValidateTaggedAgrees(w, values, nulls, body, sel, b);
    case Union(select, variants) =>
      if sel in select && select[sel] < |variants| {
        ValidateAgrees(variants[select[sel]], sel, b);
      }
    case _ => ValidateLeafAgrees(s, sel, b);
  }

  lemma ValidateLeafAgrees(s: Schema, sel: nat, b: seq<byte>)
    requires s.Empty? || s.UInt? || s.Bool? || s.Enum? || s.Raw? || s.Buffer?
    ensures Agree(Validate(s, sel, b), Decode(s, sel, b), b)
  {
    if s.Bool? && |b| >= 1 {
      assert b[..1] == [b[0]];
      FromBigEndianOne(b[0]);
    }
  }

  lemma FromBigEndianOne(x: byte)
    ensures FromBigEndian([x]) == x
  {
    assert [x][..0] == [];
  }

  lemma {:induction false} ValidateListAgrees(item: Schema, cap: nat, sel: nat, b: seq<byte>)
    ensures Agree(Validate(List(item, cap), sel, b), Decode(List(item, cap), sel, b), b)
    decreases List(item, cap), 1, 0
  {
    if |b| >= 4 {
      var n := FromBigEndian(b[..4]);
      ValidateItemsAgrees(item, sel, n, b[4..]);
      if ValidateItems(item, sel, n, b[4..]).Ok? {
        DropDrop(b, 4, ValidateItems(item, sel, n, b[4..]).value);
      }
    }
  }

  lemma {:induction false} ValidatePairAgrees(x: Schema, y: Schema, sel: nat, b: seq<byte>)
    ensures Agree(Validate(Pair(x, y), sel, b), Decode(Pair(x, y), sel, b), b)
    decreases Pair(x, y), 1, 0
  {
    ValidateAgrees(x, sel, b);
    var m, d := Validate(x, sel, b), Decode(x, sel, b);
    PairSteps(x, y, sel, b, m, d);
    if m.Ok? {
      ValidateAgrees(y, sel, b[m.value..]);
      AgreeBoth(m, Validate(y, sel, b[m.value..]), d, Decode(y, sel, d.value.rest), b);
    }
  }

  lemma PairSteps(x: Schema, y: Schema, sel: nat, b: seq<byte>, m: Result<nat, TpmError>, d: Result<Decoded, TpmError>)
    requires m == Validate(x, sel, b) && d == Decode(x, sel, b)
    ensures Validate(Pair(x, y), sel, b) == BothLengths(m, if m.Ok? then Validate(y, sel, b[m.value..]) else m)
    ensures Decode(Pair(x, y), sel, b) == BothValues(d, if d.Ok? then Decode(y, sel, d.value.rest) else d)
  {
  }

  lemma AgreeBoth(m: Result<nat, TpmError>, n: Result<nat, TpmError>,
                  d: Result<Decoded, TpmError>, f: Result<Decoded, TpmError>, b: seq<byte>)
    requires m.Ok? && Agree(m, d, b) && Agree(n, f, b[m.value..])
    ensures Agree(BothLengths(m, n), BothValues(d, f), b)
  {
    if n.Ok? {
      DropDrop(b, m.value, n.value);
    }
  }

  lemma {:induction false} ValidateSizedAgrees(inner: Schema, limit: nat, sel: nat, b: seq<byte>)
    ensures Agree(Validate(Sized(inner, limit), sel, b), Decode(Sized(inner, limit), sel, b), b)
    decreases Sized(inner, limit), 1, 0
  {
    if DecodeBuffer(2, limit, b).Ok? {
      ValidateAgrees(inner, sel, DecodeBuffer(2, limit, b).value.value.bytes);
    }
  }

  lemma {:induction false} ValidateTaggedAgrees(
      w: nat, values: set<nat>, nulls: NullRule, body: Schema, sel: nat, b: seq<byte>)
    ensures var s := Tagged(w, values, nulls, body);
            Agree(Validate(s, sel, b), Decode(s, sel, b), b)
    decreases Tagged(w, values, nulls, body), 1, 0
  {
    if |b| >= w {
      var t := FromBigEndian(b[..w]);
      ValidateAgrees(body, t, b[w..]);
      if Validate(body, t, b[w..]).Ok? {
        DropDrop(b, w, Validate(body, t, b[w..]).value);
      }
    }
  }

  lemma {:induction false} ValidateItemsAgrees(item: Schema, sel: nat, n: nat, cursor: seq<byte>)
    ensures AgreeItems(ValidateItems(item, sel, n, cursor), DecodeItems(item, sel, n, cursor), cursor)
    decreases item, 3, n
  {
    if n != 0 {
      ValidateAgrees(item, sel, cursor);
      if Validate(item, sel, cursor).Ok? {
        var m := Validate(item, sel, cursor).value;
        ValidateItemsAgrees(item, sel, n - 1, cursor[m..]);
        if ValidateItems(item, sel, n - 1, cursor[m..]).Ok? {
          DropDrop(cursor, m, ValidateItems(item, sel, n - 1, cursor[m..]).value);
        }
      }
    }
  }
}
