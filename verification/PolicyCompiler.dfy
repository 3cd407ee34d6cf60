/** The policy compiler: a tree walk that appends commands and updates a simulated session. */
module PolicyCompiler {
  import opened Wrappers
  import opened Bytes
  import opened Bits
  import opened WireSchema
  import opened WireTypes
  import opened WireCodec
  import opened WireOutput
  import opened WireWriter
  import opened PolicyAst
  import opened PolicyDigest

  // ----- marshalling a PCR selection list never fails -----

  lemma {:induction false} SelectionItemsEncode(vs: seq<Value>)
    requires forall x <- vs :: Typed(PCR_SELECTION, x)
    ensures EncodeItems(PCR_SELECTION, 0, vs).Ok?
  {
    if vs != [] {
      SelectionItemsEncode(vs[1..]);
      assert Typed(PCR_SELECTION, vs[0]);
      assert Encode(ALG, 0, vs[0].first).Ok? && Encode(Buffer(1, 4), 0, vs[0].second).Ok?;
      assert Encode(PCR_SELECTION, 0, vs[0]).Ok?;
    }
  }

  /** A selection list always marshals, and within the size the compiler sets aside for it. */
  lemma SelectionsEncode(pcrs: Selections)
    ensures Encode(PCR_SELECTIONS, 0, SelectionsValue(pcrs)) == Ok(PcrBytes(pcrs))
    ensures |PcrBytes(pcrs)| <= MaxLen(PCR_SELECTIONS)
  {
    var v := SelectionsValue(pcrs);
    SelectionItemsEncode(v.items);
    EncodeLength(PCR_SELECTIONS, 0, v);
    LengthBound(PCR_SELECTIONS, v);
  }

  lemma SelectionsOutput(pcrs: Selections)
    ensures OutputOf(PCR_SELECTIONS, 0, SelectionsValue(pcrs)) == All(PcrBytes(pcrs))
    ensures |PcrBytes(pcrs)| <= MaxLen(PCR_SELECTIONS)
  {
    SelectionsEncode(pcrs);
    OutputEncodes(PCR_SELECTIONS, 0, SelectionsValue(pcrs));
    assert Encoding(OutputOf(PCR_SELECTIONS, 0, SelectionsValue(pcrs))) == Ok(PcrBytes(pcrs));
  }

  /** The digest the TPM would hold in a policy session that ran the same commands. */
  class PolicySession {
    const hash: Hash
    var digest: Digest

    constructor (hash: Hash)
      ensures this.hash == hash && digest == ZeroDigest(hash)
    {
      this.hash := hash;
      digest := Zeros(hash.size);
    }

    method PolicyPcr(pcrs: Selections, pcrDigest: Digest)
      modifies this
      ensures digest == PcrUpdate(hash, old(digest), pcrs, pcrDigest)
    {
      SelectionsOutput(pcrs);
      var storage := new byte[MaxLen(PCR_SELECTIONS)];
      var writer := new TpmWriter(storage);
      var marshalled := Marshal(PCR_SELECTIONS, 0, SelectionsValue(pcrs), writer);
      assert marshalled.Ok?;
      assert writer.Written() == [] + PcrBytes(pcrs) == PcrBytes(pcrs);
      digest := hash.digest(digest + BigEndian(4, CC_POLICY_PCR) + writer.Written() + pcrDigest);
    }

    method PolicyOr(hashes: seq<Digest>)
      modifies this
      ensures digest == OrUpdate(hash, hashes)
    {
      var joined: seq<byte>, i := [], 0;
      assert hashes[0..] == hashes;
      while i < |hashes|
        invariant i <= |hashes| && joined + Flatten(hashes[i..]) == Flatten(hashes)
      {
        assert hashes[i..][1..] == hashes[i + 1..];
        assert joined + (hashes[i] + Flatten(hashes[i + 1..])) == joined + hashes[i] + Flatten(hashes[i + 1..]);
        joined := joined + hashes[i];
        i := i + 1;
      }
      assert joined == Flatten(hashes);
      digest := Zeros(hash.size);
      digest := hash.digest(digest + BigEndian(4, CC_POLICY_OR) + joined);
    }

    method PolicySecret(name: Name, policyRef: Digest)
      modifies this
      ensures digest == SecretUpdate(hash, old(digest), name, policyRef)
    {
      var first := hash.digest(digest + BigEndian(4, CC_POLICY_SECRET) + name);
      digest := hash.digest(first + policyRef);
    }

    method PolicyRestart()
      modifies this
      ensures digest == ZeroDigest(hash)
    {
      digest := Zeros(hash.size);
    }
  }

  datatype CompiledPolicy = CompiledPolicy(commands: seq<Command>, digest: Digest)

  /** What a walk leaves behind: the stream appended and the digest reached, or the error. */
  ghost predicate Walked(
    before: seq<Command>, after: seq<Command>, session: Digest,
    stream: Result<seq<Command>, PolicyError>, digest: Digest, r: Result<Digest, PolicyError>)
  {
    && (r.Err? <==> stream.Err?)
    && (r.Err? ==> r.error == stream.error)
    && (r.Ok? ==> r.value == session == digest && after == before + stream.value)
  }

  class Compiler {
    const ctx: Context
    const session: PolicySession
    var commands: seq<Command>

    constructor (ctx: Context, session: PolicySession)
      ensures this.ctx == ctx && this.session == session && commands == []
    {
      this.ctx := ctx;
      this.session := session;
      commands := [];
    }

    method Walk(e: Expr) returns (r: Result<Digest, PolicyError>)
      modifies this`commands, session
      ensures Walked(old(commands), commands, session.digest,
                     Emit(session.hash, ctx, e), DigestOf(session.hash, ctx, e, old(session.digest)), r)
      decreases e, 0
    {
      match e
      case And(terms) => r := WalkAnd(terms);
      case Or(branches) => r := WalkOr(branches);
      case Pcr(sels, digest) => r := WalkPcr(sels, digest);
      case Secret(auth, copyRef) => r := WalkSecret(auth, copyRef);
      case Handle(_) => r := Err(InvalidExpression);
    }

    method WalkAnd(terms: seq<Expr>) returns (r: Result<Digest, PolicyError>)
      modifies this`commands, session
      ensures Walked(old(commands), commands, session.digest,
                     EmitAll(session.hash, ctx, terms), DigestOfAll(session.hash, ctx, terms, old(session.digest)), r)
      decreases terms, 0
    {
      ghost var h, start := session.hash, session.digest;
      ghost var done: Result<seq<Command>, PolicyError> := Ok([]);
      var i := 0;
      assert terms[0..] == terms;
      ThenEmpty(EmitAll(h, ctx, terms));
      while i < |terms|
        invariant i <= |terms|
        invariant done.Ok? && commands == old(commands) + done.value
        invariant EmitAll(h, ctx, terms) == Then(done, EmitAll(h, ctx, terms[i..]))
        invariant DigestOfAll(h, ctx, terms, start) == DigestOfAll(h, ctx, terms[i..], session.digest)
      {
        ghost var x := Emit(h, ctx, terms[i]);
        assert terms[i..][0] == terms[i] && terms[i..][1..] == terms[i + 1..];
        ThenAssociative(done, x, EmitAll(h, ctx, terms[i + 1..]));
        r := Walk(terms[i]);
        if r.Err? {
          return r;
        }
        done := Then(done, x);
        i := i + 1;
      }
      assert terms[i..] == [];
      return Ok(session.digest);
    }

    method WalkPcr(sels: Selections, digest: Option<Digest>) returns (r: Result<Digest, PolicyError>)
      modifies this`commands, session
      ensures var e := Pcr(sels, digest);
              Walked(old(commands), commands, session.digest,
                     Emit(session.hash, ctx, e), DigestOf(session.hash, ctx, e, old(session.digest)), r)
    {
      var pcrDigest: Digest;
      if digest.Some? {
        pcrDigest := digest.value;
      } else {
        var data := CollectPcrs(ctx, sels);
        if data.Err? {
          return Err(data.error);
        }
        pcrDigest := session.hash.digest(data.value);
      }
      if |pcrDigest| != session.hash.size {
        return Err(InvalidPcrDigest);
      }
      commands := commands + [PcrCommand(sels, pcrDigest)];
      session.PolicyPcr(sels, pcrDigest);
      return Ok(session.digest);
    }

    method WalkSecret(auth: Expr, copyRef: Option<Digest>) returns (r: Result<Digest, PolicyError>)
      modifies this`commands, session
      ensures var e := Secret(auth, copyRef);
              Walked(old(commands), commands, session.digest,
                     Emit(session.hash, ctx, e), DigestOf(session.hash, ctx, e, old(session.digest)), r)
    {
      if !auth.Handle? {
        return Err(InvalidExpression);
      }
      var ht := HandleType(auth.handle);
      if ht !in HANDLE_TYPES {
        return Err(InvalidHandleType(ht));
      }
      var name: Name;
      if ht == HT_PERSISTENT || ht == HT_TRANSIENT {
        if auth.handle !in ctx.names {
          return Err(InvalidExpression);
        }
        name := ctx.names[auth.handle];
      } else if ht == HT_PERMANENT {
        if auth.handle !in RH_VALUES {
          return Err(InvalidHandleType(ht));
        }
        if auth.handle !in {RH_OWNER, RH_ENDORSEMENT, RH_PLATFORM, RH_LOCKOUT} {
          return Err(InvalidHandleType(ht));
        }
        name := BigEndian(4, auth.handle);
      } else {
        return Err(InvalidHandleType(ht));
      }
      var policyRef: Digest := if copyRef.Some? then copyRef.value else [];
      commands := commands + [SecretCommand(auth.handle, policyRef)];
      session.PolicySecret(name, policyRef);
      return Ok(session.digest);
    }

    method WalkOr(branches: seq<Expr>) returns (r: Result<Digest, PolicyError>)
      modifies this`commands, session
      ensures var e := Or(branches);
              Walked(old(commands), commands, session.digest,
                     Emit(session.hash, ctx, e), DigestOf(session.hash, ctx, e, old(session.digest)), r)
      decreases branches, 1
    {
      var digests := WalkBranches(branches);
      if digests.Err? {
        return Err(digests.error);
      }
      commands := commands + [PolicyAst.PolicyOr(0, digests.value)];
      session.PolicyOr(digests.value);
      return Ok(session.digest);
    }

    /** Compiles every branch from a fresh session and gathers the digests. */
    method WalkBranches(branches: seq<Expr>) returns (r: Result<DigestList, PolicyError>)
      modifies this`commands, session
      ensures var stream := EmitBranches(session.hash, ctx, branches, 0);
              && (r.Err? <==> stream.Err?)
              && (r.Err? ==> r.error == stream.error)
              && (r.Ok? ==> commands == old(commands) + stream.value)
      ensures r.Ok? ==> r.value == BranchDigests(session.hash, ctx, branches)
      decreases branches, 0
    {
      ghost var h := session.hash;
      ghost var done: seq<Command> := [];
      ghost var all := EmitBranches(h, ctx, branches, 0);
      var digests: DigestList := [];
      var i := 0;
      assert branches[0..] == branches;
      ThenEmpty(all);
      while i < |branches|
        invariant i <= |branches| && i == |digests| <= BRANCHES_MAX
        invariant commands == old(commands) + done
        invariant all == Then(Ok(done), EmitBranches(h, ctx, branches[i..], i))
        invariant forall k :: 0 <= k < i ==> digests[k] == BranchDigests(h, ctx, branches)[k]
      {
        ghost var first := Then(Ok([RESTART]), Emit(h, ctx, branches[i]));
        BranchStep(h, ctx, branches, i, done, first);
        BranchDigestAt(h, ctx, branches, i);
        var digest := WalkBranch(branches[i]);
        if digest.Err? {
          return Err(digest.error);
        }
        if |digests| == BRANCHES_MAX {
          return Err(TooManyBranches);
        }
        digests := digests + [digest.value];
        done := done + first.value;
        i := i + 1;
      }
      assert branches[i..] == [] && done + [] == done;
      return Ok(digests);
    }

    /** One branch, after a restart. */
    method WalkBranch(branch: Expr) returns (r: Result<Digest, PolicyError>)
      modifies this`commands, session
      ensures Walked(old(commands), commands, session.digest,
                     Then(Ok([RESTART]), Emit(session.hash, ctx, branch)),
                     DigestOf(session.hash, ctx, branch, ZeroDigest(session.hash)), r)
      decreases branch, 1
    {
      commands := commands + [RESTART];
      session.PolicyRestart();
      r := Walk(branch);
    }
  }

  lemma BranchStep(
      h: Hash, ctx: Context, branches: seq<Expr>, i: nat, done: seq<Command>,
      first: Result<seq<Command>, PolicyError>)
    requires i < |branches| && first == Then(Ok([RESTART]), Emit(h, ctx, branches[i]))
    ensures Then(Ok(done), EmitBranches(h, ctx, branches[i..], i))
            == if first.Err? then first
               else if i >= BRANCHES_MAX then Err(TooManyBranches)
               else Then(Ok(done + first.value), EmitBranches(h, ctx, branches[i + 1..], i + 1))
  {
    assert branches[i..][0] == branches[i] && branches[i..][1..] == branches[i + 1..];
    ThenAssociative(Ok(done), first, EmitBranches(h, ctx, branches[i + 1..], i + 1));
  }

  lemma {:induction false} BranchDigestAt(h: Hash, ctx: Context, branches: seq<Expr>, i: nat)
    requires i < |branches|
    ensures BranchDigests(h, ctx, branches)[i] == DigestOf(h, ctx, branches[i], ZeroDigest(h))
  {
    if i > 0 {
      BranchDigestAt(h, ctx, branches[1..], i - 1);
    }
  }

  /** Reads the selected registers of every bank out of the context, in order. */
  method CollectPcrs(ctx: Context, sels: Selections) returns (r: Result<seq<byte>, PolicyError>)
    ensures r == PcrData(ctx, sels)
  {
    var data: seq<byte>, i := [], 0;
    assert sels[0..] == sels;
    ConcatEmpty(PcrData(ctx, sels));
    while i < |sels|
      invariant i <= |sels| && PcrData(ctx, sels) == Concat(Ok(data), PcrData(ctx, sels[i..]))
    {
      assert sels[i..][0] == sels[i] && sels[i..][1..] == sels[i + 1..];
      if sels[i].hash !in ctx.pcrs {
        return Err(PcrDigestMissing);
      }
      var bank := CollectBank(ctx.pcrs[sels[i].hash], sels[i].select);
      ConcatAssociative(Ok(data), bank, PcrData(ctx, sels[i + 1..]));
      if bank.Err? {
        return bank;
      }
      data := data + bank.value;
      i := i + 1;
    }
    assert sels[i..] == [] && data + [] == data;
    return Ok(data);
  }

  method CollectBank(bank: map<u32, Digest>, select: PcrSelect) returns (r: Result<seq<byte>, PolicyError>)
    ensures r == BankData(bank, SelectedFrom(select, 0))
  {
    var byteIndex := 0;
    r := Ok([]);
    ghost var all := BankData(bank, SelectedFrom(select, 0));
    ConcatEmpty(all);
    while byteIndex < |select|
      invariant byteIndex <= |select| && r.Ok?
      invariant all == Concat(r, BankData(bank, SelectedFrom(select, 8 * byteIndex)))
    {
      r := CollectByte(bank, select, byteIndex, r.value);
      if r.Err? {
        return r;
      }
      byteIndex := byteIndex + 1;
    }
    assert r.value + [] == r.value;
  }

  /** Adds the registers that one byte of the bitmap selects. */
  method CollectByte(bank: map<u32, Digest>, select: PcrSelect, byteIndex: nat, before: seq<byte>)
    returns (r: Result<seq<byte>, PolicyError>)
    requires byteIndex < |select|
    ensures Concat(Ok(before), BankData(bank, SelectedFrom(select, 8 * byteIndex)))
            == Concat(r, BankData(bank, SelectedFrom(select, 8 * (byteIndex + 1))))
  {
    var data, bitIndex := before, 0;
    while bitIndex < 8
      invariant bitIndex <= 8
      invariant Concat(Ok(before), BankData(bank, SelectedFrom(select, 8 * byteIndex)))
                == Concat(Ok(data), BankData(bank, SelectedFrom(select, 8 * byteIndex + bitIndex)))
    {
      var index := 8 * byteIndex + bitIndex;
      BankStep(bank, select, byteIndex, bitIndex, index, data);
      if Bit(select[byteIndex], bitIndex) {
        if index !in bank {
          return Err(PcrDigestMissing);
        }
        data := data + bank[index];
      }
      bitIndex := bitIndex + 1;
    }
    return Ok(data);
  }

  lemma BankStep(bank: map<u32, Digest>, select: seq<byte>, byteIndex: nat, bitIndex: nat, k: nat, data: seq<byte>)
    requires byteIndex < |select| && bitIndex < 8 && k == 8 * byteIndex + bitIndex
    ensures Concat(Ok(data), BankData(bank, SelectedFrom(select, k)))
            == if !Bit(select[byteIndex], bitIndex) then Concat(Ok(data), BankData(bank, SelectedFrom(select, k + 1)))
               else if k !in bank then Err(PcrDigestMissing)
               else Concat(Ok(data + bank[k]), BankData(bank, SelectedFrom(select, k + 1)))
  {
    assert k / 8 == byteIndex && k % 8 == bitIndex;
    var rest := SelectedFrom(select, k + 1);
    assert [] + rest == rest;
    if Selected(select, k) && k in bank {
      assert ([k] + rest)[1..] == rest;
      ConcatAssociative(Ok(data), Ok(bank[k]), BankData(bank, rest));
    }
  }

  /**
    Compiles a policy for a session of hash algorithm `alg`. The result is the
    stream and digest defined on the expression alone.
   */
  method Compile(e: Expr, alg: AlgId, hashes: AlgId -> Hash, ctx: Context)
    returns (r: Result<CompiledPolicy, PolicyError>)
    ensures alg !in HASH_ALGS ==> r == Err(Crypto)
    ensures alg in HASH_ALGS ==>
              var h := hashes(alg);
              r == match Emit(h, ctx, e)
                   case Err(x) => Err(x)
                   case Ok(cs) => Ok(CompiledPolicy(cs, DigestOf(h, ctx, e, ZeroDigest(h))))
  {
    if alg !in HASH_ALGS {
      return Err(Crypto);
    }
    var session := new PolicySession(hashes(alg));
    var compiler := new Compiler(ctx, session);
    var digest := compiler.Walk(e);
    if digest.Err? {
      return Err(digest.error);
    }
    ThenEmpty(Emit(session.hash, ctx, e));
    return Ok(CompiledPolicy(compiler.commands, digest.value));
  }
}
