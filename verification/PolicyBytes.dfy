/**
  What a policy hashes and emits, byte by byte and command by command, with the numbers of
  Part 2 of the TPM 2.0 Library Specification written out.
 */
module PolicyBytes {
  import opened Wrappers
  import opened Bytes
  import opened Bits
  import opened WireSchema
  import opened WireTypes
  import opened WireCodec
  import opened WireLayouts
  import opened PolicyAst
  import opened PolicyDigest
  import PolicyCompiler

  // ----- the PCR values that are hashed -----

  /** The value of one register. */
  lemma BankDataOne(bank: map<u32, Digest>, k: u32)
    ensures BankData(bank, [k]) == if k in bank then Ok(bank[k]) else Err(PcrDigestMissing)
  {
    assert [k][1..] == [] && BankData(bank, []) == Ok([]);
    ConcatEmpty<PolicyError>(if k in bank then Ok(bank[k]) else Err(PcrDigestMissing));
  }

  /** The values of registers follow one another in the order of the list. */
  lemma {:induction false} BankDataJoin(bank: map<u32, Digest>, a: seq<nat>, b: seq<nat>)
    ensures BankData(bank, a + b) == Concat(BankData(bank, a), BankData(bank, b))
  {
    if a == [] {
      assert a + b == b;
      ConcatEmpty(BankData(bank, b));
    } else {
      assert (a + b)[0] == a[0] && (a + b)[1..] == a[1..] + b;
      BankDataJoin(bank, a[1..], b);
      if a[0] in bank {
        ConcatAssociative(Ok(bank[a[0]]), BankData(bank, a[1..]), BankData(bank, b));
      }
    }
  }

  /** The registers of a selection are listed in increasing order, each once. */
  lemma {:induction false} SelectedIncreasing(select: seq<byte>, from: nat, i: nat, j: nat)
    requires i < j < |SelectedFrom(select, from)|
    ensures from <= SelectedFrom(select, from)[i] < SelectedFrom(select, from)[j]
    decreases 8 * |select| - from
  {
    var rest := SelectedFrom(select, from + 1);
    if !Selected(select, from) {
      SelectedIncreasing(select, from + 1, i, j);
    } else {
      SelectedFromMembers(select, from + 1, rest[j - 1]);
      if i > 0 {
        SelectedIncreasing(select, from + 1, i - 1, j - 1);
      }
    }
  }

  /** One bank: the values of its selected registers. */
  lemma PcrDataOne(ctx: Context, s: Selection)
    ensures PcrData(ctx, [s]) == if s.hash in ctx.pcrs then BankData(ctx.pcrs[s.hash], SelectedFrom(s.select, 0))
                                 else Err(PcrDigestMissing)
  {
    assert [s][1..] == [] && PcrData(ctx, []) == Ok([]);
    if s.hash in ctx.pcrs {
      ConcatEmpty(BankData(ctx.pcrs[s.hash], SelectedFrom(s.select, 0)));
    }
  }

  /** The values of banks follow one another in the order of the selection list. */
  lemma {:induction false} PcrDataJoin(ctx: Context, a: seq<Selection>, b: seq<Selection>)
    ensures PcrData(ctx, a + b) == Concat(PcrData(ctx, a), PcrData(ctx, b))
  {
    if a == [] {
      assert a + b == b;
      ConcatEmpty(PcrData(ctx, b));
    } else {
      assert (a + b)[0] == a[0] && (a + b)[1..] == a[1..] + b;
      PcrDataJoin(ctx, a[1..], b);
      if a[0].hash in ctx.pcrs {
        ConcatAssociative(BankData(ctx.pcrs[a[0].hash], SelectedFrom(a[0].select, 0)), PcrData(ctx, a[1..]),
                          PcrData(ctx, b));
      }
    }
  }

  /** Registers 0 and 9 of the SHA-1 bank, then register 0 of the SHA-256 bank. */
  lemma TwoBanks(ctx: Context, a: Digest, b: Digest, c: Digest)
    requires 0x0004 in ctx.pcrs && 0x000B in ctx.pcrs
    requires ctx.pcrs[0x0004] == map[0 := a, 9 := b] && ctx.pcrs[0x000B] == map[0 := c]
    ensures PcrData(ctx, [Selection(0x0004, [0x01, 0x02, 0x00]), Selection(0x000B, [0x01])]) == Ok(a + b + c)
  {
    var first, second := Selection(0x0004, [0x01, 0x02, 0x00]), Selection(0x000B, [0x01]);
    ExampleSelections();
    PcrDataJoin(ctx, [first], [second]);
    assert [first] + [second] == [first, second] && [0, 9] == [0] + [9];
    PcrDataOne(ctx, first);
    PcrDataOne(ctx, second);
    BankDataJoin(ctx.pcrs[0x0004], [0], [9]);
    BankDataOne(ctx.pcrs[0x0004], 0);
    BankDataOne(ctx.pcrs[0x0004], 9);
    BankDataOne(ctx.pcrs[0x000B], 0);
  }

  lemma ExampleSelections()
    ensures SelectedFrom([0x01, 0x02, 0x00], 0) == [0, 9] && SelectedFrom([0x01], 0) == [0]
  {
    SparseBits();
    OneRegister([0x01], 0, 8);
    OneRegister([0x01, 0x02, 0x00], 9, 24);
    OneRegister([0x01, 0x02, 0x00], 0, 9);
    assert [9] + [] == [9] && [0] + [9] == [0, 9] && [0] + [] == [0];
  }

  lemma SparseBits()
    ensures Selected([0x01, 0x02, 0x00], 0) && Selected([0x01, 0x02, 0x00], 9) && Selected([0x01], 0)
    ensures forall k | 0 < k < 24 && k != 9 :: !Selected([0x01, 0x02, 0x00], k)
    ensures forall k | 0 < k < 8 :: !Selected([0x01], k)
  {
    forall i: nat | i < 8
      ensures Bit(0x01, i) <==> i == 0
      ensures Bit(0x02, i) <==> i == 1
      ensures !Bit(0x00, i)
    {
      SmallBits(i);
    }
  }

  lemma SmallBits(i: nat)
    requires i < 8
    ensures Bit(0x01, i) <==> i == 0
    ensures Bit(0x02, i) <==> i == 1
    ensures !Bit(0x00, i)
  {
    if i >= 2 {
      HighBitsClear(0x02, 2, i);
      HighBitsClear(0x01, 2, i);
      HighBitsClear(0x00, 2, i);
    }
  }

  /** A selected register, and none selected up to `end`. */
  lemma OneRegister(select: seq<byte>, k: nat, end: nat)
    requires k < end <= 8 * |select| && Selected(select, k) && forall j | k < j < end :: !Selected(select, j)
    ensures SelectedFrom(select, k) == [k] + SelectedFrom(select, end)
    ensures SelectedFrom(select, 8 * |select|) == []
  {
    SkipTo(select, k + 1, end);
  }

  /** Registers that are not selected are passed over. */
  lemma {:induction false} SkipTo(select: seq<byte>, from: nat, end: nat)
    requires from <= end <= 8 * |select| && forall k | from <= k < end :: !Selected(select, k)
    ensures SelectedFrom(select, from) == SelectedFrom(select, end)
    decreases end - from
  {
    if from < end {
      SkipTo(select, from + 1, end);
    }
  }

  /** A PCR node without a digest asserts the hash of these values; one with a digest asserts that. */
  lemma PcrCommands(h: Hash, ctx: Context, sels: Selections, p: Digest)
    ensures PcrData(ctx, sels).Ok? ==>
              Emit(h, ctx, Pcr(sels, None)) == Ok([PolicyPcr(0, h.digest(PcrData(ctx, sels).value), sels)])
    ensures PcrData(ctx, sels).Err? ==> Emit(h, ctx, Pcr(sels, None)) == Err(PcrDigestMissing)
    ensures Emit(h, ctx, Pcr(sels, Some(p)))
            == if |p| == h.size then Ok([PolicyPcr(0, p, sels)]) else Err(InvalidPcrDigest)
  {
    OnlyMissing(ctx, sels);
  }

  lemma {:induction false} OnlyMissing(ctx: Context, sels: seq<Selection>)
    ensures PcrData(ctx, sels).Err? ==> PcrData(ctx, sels) == Err(PcrDigestMissing)
  {
    if sels != [] && sels[0].hash in ctx.pcrs {
      OnlyMissing(ctx, sels[1..]);
      OnlyMissingBank(ctx.pcrs[sels[0].hash], SelectedFrom(sels[0].select, 0));
    }
  }

  lemma {:induction false} OnlyMissingBank(bank: map<u32, Digest>, indices: seq<nat>)
    ensures BankData(bank, indices).Err? ==> BankData(bank, indices) == Err(PcrDigestMissing)
  {
    if indices != [] {
      OnlyMissingBank(bank, indices[1..]);
    }
  }

  // ----- the bytes of a selection list -----

  function SelectionBytes(s: Selection): seq<byte> {
    BigEndian(2, s.hash) + ([|s.select|] + s.select)
  }

  function SelectionListBytes(sels: seq<Selection>): seq<byte> {
    if sels == [] then [] else SelectionBytes(sels[0]) + SelectionListBytes(sels[1..])
  }

  lemma SelectionWrites(s: Selection)
    ensures Writes(PCR_SELECTION, 0, Both(Num(s.hash), Octets(s.select)), SelectionBytes(s))
  {
    AlgWrites(0, s.hash);
    assert BigEndian(1, |s.select|) == [|s.select|];
    PairWrites(ALG, Buffer(1, 4), 0, Num(s.hash), Octets(s.select), BigEndian(2, s.hash), [|s.select|] + s.select);
  }

  lemma {:induction false} SelectionsWrite(sels: seq<Selection>)
    ensures (forall x <- SelectionItems(sels) :: Typed(PCR_SELECTION, x))
    ensures EncodeItems(PCR_SELECTION, 0, SelectionItems(sels)) == Ok(SelectionListBytes(sels))
  {
    SelectionItemsTyped(sels);
    if sels != [] {
      SelectionsWrite(sels[1..]);
      SelectionWrites(sels[0]);
      assert SelectionItems(sels)[1..] == SelectionItems(sels[1..]);
    }
  }

  /** A selection list: the number of banks; of each its algorithm, the size of the mask, and the mask. */
  lemma PcrBytesWritten(sels: Selections)
    ensures PcrBytes(sels) == BigEndian(4, |sels|) + SelectionListBytes(sels)
  {
    PolicyCompiler.SelectionsEncode(sels);
    SelectionsWrite(sels);
    var bytes := BigEndian(4, |sels|) + SelectionListBytes(sels);
    assert Encode(PCR_SELECTIONS, 0, SelectionsValue(sels)) == Ok(bytes);
  }

  // ----- the inputs that are hashed -----

  lemma CodeBytes()
    ensures BigEndian(4, CC_POLICY_PCR) == [0, 0, 0x01, 0x7F]
    ensures BigEndian(4, CC_POLICY_SECRET) == [0, 0, 0x01, 0x51]
    ensures BigEndian(4, CC_POLICY_OR) == [0, 0, 0x01, 0x71]
  {
    BigEndianFour(CC_POLICY_PCR);
    BigEndianFour(CC_POLICY_SECRET);
    BigEndianFour(CC_POLICY_OR);
  }

  /** PolicyPCR on one SHA-256 bank with a mask of three bytes. */
  lemma PcrUpdateBytes(h: Hash, d: Digest, a: byte, b: byte, c: byte, p: Digest)
    ensures PcrUpdate(h, d, [Selection(0x000B, [a, b, c])], p)
            == h.digest(d + [0, 0, 0x01, 0x7F] + [0, 0, 0, 1, 0x00, 0x0B, 3, a, b, c] + p)
  {
    var s := Selection(0x000B, [a, b, c]);
    CodeBytes();
    PcrBytesWritten([s]);
    BigEndianFour(1);
    BigEndianTwo(0x000B);
    assert [s][1..] == [] && SelectionListBytes([]) == [];
    assert PcrBytes([s]) == [0, 0, 0, 1, 0x00, 0x0B, 3, a, b, c];
  }

  /** PolicySecret: two hashes, the command code and the name in the first. */
  lemma SecretUpdateBytes(h: Hash, d: Digest, name: Name, policyRef: Digest)
    ensures SecretUpdate(h, d, name, policyRef) == h.digest(h.digest(d + [0, 0, 0x01, 0x51] + name) + policyRef)
  {
    CodeBytes();
  }

  /** PolicyOR: zeros, the command code, and the digests in order. */
  lemma OrUpdateBytes(h: Hash, a: Digest, b: Digest)
    ensures OrUpdate(h, [a, b]) == h.digest(seq(h.size, _ => 0) + [0, 0, 0x01, 0x71] + a + b)
  {
    CodeBytes();
    assert Flatten([a, b]) == a + b by {
      assert [a, b][1..] == [b] && [b][1..] == [] && Flatten([]) == [];
      assert Flatten([b]) == b + [];
    }
    var zeros := seq(h.size, _ => 0);
    assert ZeroDigest(h) == zeros;
    assert zeros + [0, 0, 0x01, 0x71] + (a + b) == zeros + [0, 0, 0x01, 0x71] + a + b;
  }

  // ----- names -----

  /** Objects are named by the context, four hierarchies by their own numbers, and nothing else is named. */
  lemma NamesOf(ctx: Context, handle: u32)
    ensures NameOf(ctx, 0x4000_0001) == Ok([0x40, 0x00, 0x00, 0x01])
    ensures NameOf(ctx, 0x4000_000A) == Ok([0x40, 0x00, 0x00, 0x0A])
    ensures NameOf(ctx, 0x4000_000B) == Ok([0x40, 0x00, 0x00, 0x0B])
    ensures NameOf(ctx, 0x4000_000C) == Ok([0x40, 0x00, 0x00, 0x0C])
    ensures 0x8000_0000 <= handle <= 0x81FF_FFFF ==>
              NameOf(ctx, handle) == if handle in ctx.names then Ok(ctx.names[handle]) else Err(InvalidExpression)
    ensures !(0x8000_0000 <= handle <= 0x81FF_FFFF)
            && handle !in {0x4000_0001, 0x4000_000A, 0x4000_000B, 0x4000_000C} ==>
              NameOf(ctx, handle) == Err(InvalidHandleType(handle / 0x100_0000))
  {
    BigEndianFour(0x4000_0001);
    BigEndianFour(0x4000_000A);
    BigEndianFour(0x4000_000B);
    BigEndianFour(0x4000_000C);
  }

  // ----- commands -----

  /** A secret: one command on its handle, with nothing but the policy reference; or the fault of its operand. */
  lemma SecretCommands(h: Hash, ctx: Context, handle: u32, copyRef: Option<Digest>, other: Expr)
    requires !other.Handle?
    ensures NameOf(ctx, handle).Ok? ==>
              Emit(h, ctx, Secret(Handle(handle), copyRef))
              == Ok([PolicySecret(handle, 0, [], [], if copyRef.Some? then copyRef.value else [], 0)])
    ensures NameOf(ctx, handle).Err? ==> Emit(h, ctx, Secret(Handle(handle), copyRef)) == Err(NameOf(ctx, handle).error)
    ensures Emit(h, ctx, Secret(other, copyRef)) == Emit(h, ctx, Handle(handle)) == Err(InvalidExpression)
  {
  }

  /** A conjunction: the commands of its terms in order, in one session. */
  lemma AndCommands(h: Hash, ctx: Context, a: Expr, b: Expr, d: Digest)
    requires Emit(h, ctx, a).Ok? && Emit(h, ctx, b).Ok?
    ensures Emit(h, ctx, And([a, b])) == Ok(Emit(h, ctx, a).value + Emit(h, ctx, b).value)
    ensures DigestOf(h, ctx, And([a, b]), d) == DigestOf(h, ctx, b, DigestOf(h, ctx, a, d))
  {
    var e := DigestOf(h, ctx, a, d);
    assert [a, b][1..] == [b] && [b][1..] == [];
    assert EmitAll(h, ctx, []) == Ok([]) && DigestOfAll(h, ctx, [], DigestOf(h, ctx, b, e)) == DigestOf(h, ctx, b, e);
    ThenEmpty(Emit(h, ctx, b));
    assert EmitAll(h, ctx, [b]) == Emit(h, ctx, b) && DigestOfAll(h, ctx, [b], e) == DigestOf(h, ctx, b, e);
  }

  /** A disjunction: a restart before each branch, and the digests of the branches, from zero, at the end. */
  lemma OrCommands(h: Hash, ctx: Context, a: Expr, b: Expr)
    requires Emit(h, ctx, a).Ok? && Emit(h, ctx, b).Ok?
    ensures var zeros := seq(h.size, _ => 0);
            Emit(h, ctx, Or([a, b]))
            == Ok([PolicyRestart(0)] + Emit(h, ctx, a).value + [PolicyRestart(0)] + Emit(h, ctx, b).value
                  + [PolicyOr(0, [DigestOf(h, ctx, a, zeros), DigestOf(h, ctx, b, zeros)])])
  {
    var zeros, x, y := seq(h.size, _ => 0), Emit(h, ctx, a).value, Emit(h, ctx, b).value;
    assert ZeroDigest(h) == zeros;
    TwoBranches(h, ctx, a, b);
    var hashes := [DigestOf(h, ctx, a, zeros), DigestOf(h, ctx, b, zeros)];
    assert Emit(h, ctx, Or([a, b])) == Ok([RESTART] + x + [RESTART] + y + [PolicyOr(0, hashes)]);
  }

  lemma TwoBranches(h: Hash, ctx: Context, a: Expr, b: Expr)
    requires Emit(h, ctx, a).Ok? && Emit(h, ctx, b).Ok?
    ensures BranchDigests(h, ctx, [a, b]) == [DigestOf(h, ctx, a, ZeroDigest(h)), DigestOf(h, ctx, b, ZeroDigest(h))]
    ensures EmitBranches(h, ctx, [a, b], 0)
            == Ok([RESTART] + Emit(h, ctx, a).value + [RESTART] + Emit(h, ctx, b).value)
  {
    var x, y := Emit(h, ctx, a).value, Emit(h, ctx, b).value;
    assert [a, b][1..] == [b] && [b][1..] == [];
    assert EmitBranches(h, ctx, [], 2) == Ok([]) && BranchDigests(h, ctx, []) == [];
    assert [RESTART] + y + [] == [RESTART] + y;
    assert EmitBranches(h, ctx, [b], 1) == Ok([RESTART] + y);
    assert BranchDigests(h, ctx, [b]) == [DigestOf(h, ctx, b, ZeroDigest(h))];
    assert [RESTART] + x + ([RESTART] + y) == [RESTART] + x + [RESTART] + y;
    assert EmitBranches(h, ctx, [a, b], 0) == Ok([RESTART] + x + ([RESTART] + y));
  }

  /** The first branch that fails stops a disjunction, unless eight were good before it and a ninth one too. */
  lemma {:induction false} BranchFault(h: Hash, ctx: Context, branches: seq<Expr>, before: nat, i: nat)
    requires i < |branches| && before <= 8 && forall j | 0 <= j < i :: Emit(h, ctx, branches[j]).Ok?
    ensures Emit(h, ctx, branches[i]).Err? && before + i <= 8 ==>
              EmitBranches(h, ctx, branches, before) == Err(Emit(h, ctx, branches[i]).error)
    ensures Emit(h, ctx, branches[i]).Ok? && before + i == 8 ==>
              EmitBranches(h, ctx, branches, before) == Err(TooManyBranches)
    decreases branches
  {
    if i > 0 {
      assert Emit(h, ctx, branches[0]).Ok?;
      assert forall j | 0 <= j < i - 1 :: branches[1..][j] == branches[j + 1];
      if before < 8 {
        BranchFault(h, ctx, branches[1..], before + 1, i - 1);
      }
    }
  }
}
