/** Which numbers are algorithms and command codes, one by one, and the error of each malformed encoding. */
module WireFaults {
  import opened Wrappers
  import opened Bytes
  import opened WireSchema
  import opened WireTypes
  import opened WireCodec
  import opened WireTheorems
  import opened WireLayouts

  // ----- numbers -----

  lemma AlgorithmTable(x: nat)
    ensures x in ALG_IDS <==> x in {
      0x0000, 0x0001, 0x0003, 0x0004, 0x0005, 0x0006, 0x0007, 0x0008, 0x000A, 0x000B, 0x000C, 0x000D, 0x0010, 0x0012,
      0x0013, 0x0014, 0x0015, 0x0016, 0x0017, 0x0018, 0x0019, 0x001A, 0x001B, 0x001C, 0x001D, 0x0020, 0x0021, 0x0022,
      0x0023, 0x0025, 0x0026, 0x0027, 0x0028, 0x0029, 0x002A, 0x002B, 0x002C, 0x002D, 0x002E, 0x003F, 0x0040, 0x0041,
      0x0042, 0x0043, 0x0044, 0x0050, 0x0051, 0x0052, 0x0053, 0x0054, 0x0060, 0x0061, 0x0070, 0x0071, 0x0080, 0x0081,
      0x0082, 0x0090, 0x0091}
  {
  }

  lemma CommandTable(x: nat)
    ensures x in CC_VALUES <==> x in {
      0x011F, 0x0120, 0x0121, 0x0122, 0x0124, 0x0125, 0x0126, 0x0127, 0x0128, 0x0129, 0x012A, 0x012B, 0x012C, 0x012D,
      0x012E, 0x012F, 0x0130, 0x0131, 0x0132, 0x0133, 0x0134, 0x0135, 0x0136, 0x0137, 0x0138, 0x0139, 0x013A, 0x013B,
      0x013C, 0x013D, 0x013E, 0x013F, 0x0140, 0x0141, 0x0142, 0x0143, 0x0144, 0x0145, 0x0146, 0x0147, 0x0148, 0x0149,
      0x014A, 0x014B, 0x014C, 0x014D, 0x014E, 0x014F, 0x0150, 0x0151, 0x0152, 0x0153, 0x0154, 0x0155, 0x0156, 0x0157,
      0x0158, 0x0159, 0x015B, 0x015C, 0x015D, 0x015E, 0x0160, 0x0161, 0x0162, 0x0163, 0x0164, 0x0165, 0x0167, 0x0168,
      0x0169, 0x016A, 0x016B, 0x016C, 0x016D, 0x016E, 0x016F, 0x0170, 0x0171, 0x0172, 0x0173, 0x0174, 0x0176, 0x0177,
      0x0178, 0x0179, 0x017A, 0x017B, 0x017C, 0x017D, 0x017E, 0x017F, 0x0180, 0x0181, 0x0182, 0x0183, 0x0184, 0x0185,
      0x0186, 0x0187, 0x0188, 0x0189, 0x018A, 0x018B, 0x018C, 0x018D, 0x018E, 0x018F, 0x0190, 0x0191, 0x0192, 0x0193,
      0x0194, 0x0195, 0x0196, 0x0198, 0x0199, 0x019A, 0x019B, 0x019C, 0x019D, 0x019E, 0x019F, 0x01A0, 0x01A1,
      0x2000_0000}
  {
  }

  // ----- malformed encodings -----

  /** A number, count or size that the buffer is too short for. */
  lemma Truncated(s: Schema, sel: nat, b: seq<byte>)
    requires match s
             case UInt(w) => |b| < w
             case Bool => b == []
             case Enum(w, _) => |b| < w
             case Raw(n) => |b| < n
             case Buffer(w, _) => |b| < w
             case List(_, _) => |b| < 4
             case Sized(_, _) => |b| < 2
             case Tagged(w, _, _, _) => |b| < w
             case _ => false
    ensures Decode(s, sel, b) == Err(UnexpectedEnd)
  {
  }

  /** A number outside the enumeration, a tag outside the enumeration, and a boolean above one. */
  lemma NoSuchNumber(w: nat, values: set<nat>, nulls: NullRule, body: Schema, sel: nat, n: nat, rest: seq<byte>)
    requires n < Pow256(w)
    ensures n !in values ==> Decode(Enum(w, values), sel, BigEndian(w, n) + rest) == Err(VariantNotAvailable)
    ensures n !in values ==>
              Decode(Tagged(w, values, nulls, body), sel, BigEndian(w, n) + rest) == Err(VariantNotAvailable)
    ensures w == 1 && n > 1 ==> Decode(Bool, sel, BigEndian(w, n) + rest) == Err(InvalidBoolean)
  {
    NumberRead(w, n, rest);
  }

  lemma NumberRead(w: nat, n: nat, rest: seq<byte>)
    requires n < Pow256(w)
    ensures DecodeInt(w, BigEndian(w, n) + rest) == Ok(Decoded(Num(n), rest))
  {
    BigEndianRoundTrip(w, n);
    var b := BigEndian(w, n) + rest;
    assert b[..w] == BigEndian(w, n) && b[w..] == rest;
  }

  /** A tag of the enumeration that selects no variant. */
  lemma NoSuchVariant(select: map<nat, nat>, variants: seq<Schema>, sel: nat, tag: nat, rest: seq<byte>)
    requires tag in ALG_IDS && tag !in select
    ensures Decode(SelectedBy(select, variants), sel, BigEndian(2, tag) + rest) == Err(VariantNotAvailable)
  {
    Pow256Values();
    NumberRead(2, tag, rest);
  }

  /** A size or count above the capacity, and a buffer shorter than its size. */
  lemma TooLarge(w: nat, capacity: nat, item: Schema, sel: nat, n: nat, rest: seq<byte>)
    requires n < Pow256(w)
    ensures n > capacity ==> Decode(Buffer(w, capacity), sel, BigEndian(w, n) + rest)
                             == Err(if w == 1 then TooManyItems else TooManyBytes)
    ensures n <= capacity && |rest| < n ==>
              Decode(Buffer(w, capacity), sel, BigEndian(w, n) + rest) == Err(UnexpectedEnd)
    ensures w == 4 && n > capacity ==> Decode(List(item, capacity), sel, BigEndian(w, n) + rest) == Err(TooManyItems)
  {
    NumberRead(w, n, rest);
    var b := BigEndian(w, n) + rest;
    assert FromBigEndian(b[..w]) == n;
  }

  /** A sized structure that ends before its size does. */
  lemma SizedTrailing(
      inner: Schema, limit: nat, sel: nat, v: Value, bytes: seq<byte>, extra: seq<byte>, rest: seq<byte>)
    requires WellFormed(inner) && Writes(inner, sel, v, bytes) && extra != []
    requires |bytes| + |extra| <= limit && |bytes| + |extra| < U16_COUNT
    ensures Decode(Sized(inner, limit), sel, BigEndian(2, |bytes| + |extra|) + (bytes + extra) + rest)
            == Err(TrailingData)
  {
    DecodeEncode(inner, sel, v, extra);
    LeftOver(inner, limit, sel, bytes + extra, Decoded(Canon(inner, v), extra), rest);
  }

  lemma LeftOver(inner: Schema, limit: nat, sel: nat, body: seq<byte>, read: Decoded, rest: seq<byte>)
    requires |body| <= limit && |body| < U16_COUNT && Decode(inner, sel, body) == Ok(read) && read.rest != []
    ensures Decode(Sized(inner, limit), sel, BigEndian(2, |body|) + body + rest) == Err(TrailingData)
  {
    BufferRead(limit, body, rest);
  }

  lemma BufferRead(limit: nat, body: seq<byte>, rest: seq<byte>)
    requires |body| <= limit && |body| < U16_COUNT
    ensures DecodeBuffer(2, limit, BigEndian(2, |body|) + body + rest) == Ok(Decoded(Octets(body), rest))
  {
    Pow256Values();
    BigEndianRoundTrip(2, |body|);
    var size := BigEndian(2, |body|);
    var b := size + body + rest;
    assert b[..2] == size && b[2..2 + |body|] == body && b[2 + |body|..] == rest;
  }
}
