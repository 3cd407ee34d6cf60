/** The codec theorems for the wire types the rest of the repository relies on. */
module WireInstances {
  import opened Wrappers
  import opened Bytes
  import opened WireSchema
  import opened WireTypes
  import opened WireCodec
  import opened WireTheorems
  import opened WireValues

  /** TPMT_PUBLIC is read back, with anything after it, as the value written, up to details under a null tag. */
  lemma PublicRoundTrip(public: PublicValue, rest: seq<byte>)
    requires Encode(PUBLIC, 0, public).Ok?
    ensures Decode(PUBLIC, 0, Encode(PUBLIC, 0, public).value + rest) == Ok(Decoded(Canon(PUBLIC, public), rest))
    ensures Decode(PUBLIC, 0, Encode(PUBLIC, 0, public).value + rest) == Ok(Decoded(public, rest))
            <==> NoHiddenDetails(PUBLIC, public)
  {
    PublicWellFormed();
    DecodeEncode(PUBLIC, 0, public, rest);
    DecodeEncodeExact(PUBLIC, 0, public, rest);
  }

  /** Whatever bytes TPMT_PUBLIC is read from, writing it again gives the bytes consumed. */
  lemma PublicReproduced(buffer: seq<byte>)
    requires Decode(PUBLIC, 0, buffer).Ok?
    ensures var d := Decode(PUBLIC, 0, buffer).value;
            && Typed(PUBLIC, d.value) && Encode(PUBLIC, 0, d.value).Ok?
            && buffer == Encode(PUBLIC, 0, d.value).value + d.rest
  {
    PublicWellFormed();
    EncodeDecode(PUBLIC, 0, buffer);
  }

  lemma ContextRoundTrip(context: ContextValue, rest: seq<byte>)
    requires Encode(CONTEXT, 0, context).Ok?
    ensures Decode(CONTEXT, 0, Encode(CONTEXT, 0, context).value + rest) == Ok(Decoded(Canon(CONTEXT, context), rest))
  {
    StructuresWellFormed();
    DecodeEncode(CONTEXT, 0, context, rest);
  }

  lemma AuthCommandRoundTrip(auth: Value, rest: seq<byte>)
    requires Typed(AUTH_COMMAND, auth) && Encode(AUTH_COMMAND, 0, auth).Ok?
    ensures Decode(AUTH_COMMAND, 0, Encode(AUTH_COMMAND, 0, auth).value + rest)
            == Ok(Decoded(Canon(AUTH_COMMAND, auth), rest))
  {
    StructuresWellFormed();
    DecodeEncode(AUTH_COMMAND, 0, auth, rest);
  }

  /** Key bits and mode of AES under a null algorithm: a value that the types allow. */
  const HIDDEN_DETAILS: Value := WithTag(ALG_NULL, Both(Variant(1, Num(128)), Variant(1, Num(0x43))))

  lemma HiddenDetailsTyped(alg: Schema)
    requires Typed(alg, Num(0x43))
    ensures Typed(SymDef(alg), HIDDEN_DETAILS)
  {
    Pow256Values();
    var body := SymDef(alg).body;
    var bits, mode := body.first.variants, body.second.variants;
    assert bits[1] == UInt(2) && mode[1] == alg;
    assert Typed(body.first, Variant(1, Num(128))) && Typed(body.second, Variant(1, Num(0x43)));
    assert ALG_NULL in ALG_IDS;
  }

  /** Details under a null algorithm are not written, so this definition does not come back as it was. */
  lemma HiddenDetailsLost()
    ensures Typed(SYM_DEF, HIDDEN_DETAILS) && !NoHiddenDetails(SYM_DEF, HIDDEN_DETAILS)
    ensures Encode(SYM_DEF, 0, HIDDEN_DETAILS) == Ok(BigEndian(2, ALG_NULL))
    ensures Decode(SYM_DEF, 0, BigEndian(2, ALG_NULL)) == Ok(Decoded(WithTag(ALG_NULL, NO_SYM_DETAILS), []))
  {
    assert Typed(ALG, Num(0x43));
    HiddenDetailsTyped(ALG);
    LeavesWellFormed();
    SymDefWellFormed(ALG);
    DecodeEncode(SYM_DEF, 0, HIDDEN_DETAILS, []);
    assert BigEndian(2, ALG_NULL) + [] == BigEndian(2, ALG_NULL);
  }
}
