/**
  What compiling a policy means: the commands it emits, and the session digest
  it reaches. Both are defined on the expression alone, one case per node, with
  no session state.
 */
module PolicyDigest {
  import opened Wrappers
  import opened Bytes
  import opened WireTypes
  import opened WireCodec
  import opened PolicyAst

  /** A hash algorithm: its digest size and its function, about which nothing else is known. */
  datatype HashFunction = HashFunction(size: nat, digest: seq<byte> -> seq<byte>)

  ghost predicate FixedSize(h: HashFunction) {
    h.size <= MAX_DIGEST_SIZE && forall x :: |h.digest(x)| == h.size
  }

  type Hash = h: HashFunction | FixedSize(h) witness HashFunction(0, _ => [])

  // ----- digest updates of a policy session -----

  function ZeroDigest(h: Hash): Digest {
    Zeros(h.size)
  }

  function PcrBytes(pcrs: Selections): seq<byte> {
    match Encode(PCR_SELECTIONS, 0, SelectionsValue(pcrs))
    case Ok(bytes) => bytes
    case Err(_) => []
  }

  /** TPM2_PolicyPCR, Part 3 section 23.7. */
  function PcrUpdate(h: Hash, d: Digest, pcrs: Selections, pcrDigest: Digest): Digest {
    h.digest(d + BigEndian(4, CC_POLICY_PCR) + PcrBytes(pcrs) + pcrDigest)
  }

  /** TPM2_PolicySecret, Part 3 section 23.4. */
  function SecretUpdate(h: Hash, d: Digest, name: Name, policyRef: Digest): Digest {
    h.digest(h.digest(d + BigEndian(4, CC_POLICY_SECRET) + name) + policyRef)
  }

  function Flatten(ds: seq<Digest>): seq<byte> {
    if ds == [] then [] else ds[0] + Flatten(ds[1..])
  }

  /** TPM2_PolicyOR, Part 3 section 23.6: the digest starts again from zero. */
  function OrUpdate(h: Hash, hashes: seq<Digest>): Digest {
    h.digest(ZeroDigest(h) + BigEndian(4, CC_POLICY_OR) + Flatten(hashes))
  }

  // ----- leaves -----

  /** The values of the listed registers of a bank, end to end. */
  function BankData(bank: map<u32, Digest>, indices: seq<nat>): Result<seq<byte>, PolicyError> {
    if indices == [] then Ok([])
    else if indices[0] !in bank then Err(PcrDigestMissing)
    else Concat(Ok(bank[indices[0]]), BankData(bank, indices[1..]))
  }

  function PcrData(ctx: Context, sels: seq<Selection>): Result<seq<byte>, PolicyError> {
    if sels == [] then Ok([])
    else if sels[0].hash !in ctx.pcrs then Err(PcrDigestMissing)
    else Concat(BankData(ctx.pcrs[sels[0].hash], SelectedFrom(sels[0].select, 0)), PcrData(ctx, sels[1..]))
  }

  /** The digest a PCR node asserts: as written, or computed from the context. */
  function ResolvedPcr(h: Hash, ctx: Context, sels: Selections, digest: Option<Digest>): Result<Digest, PolicyError> {
    match digest
    case Some(d) => if |d| == h.size then Ok(d) else Err(InvalidPcrDigest)
    case None =>
      match PcrData(ctx, sels)
      case Err(e) => Err(e)
      case Ok(data) => Ok(h.digest(data))
  }

  /** The name of the object a handle stands for. */
  function NameOf(ctx: Context, handle: u32): Result<Name, PolicyError> {
    var ht := HandleType(handle);
    if ht !in HANDLE_TYPES then Err(InvalidHandleType(ht))
    else if ht == HT_PERSISTENT || ht == HT_TRANSIENT then
      if handle in ctx.names then Ok(ctx.names[handle]) else Err(InvalidExpression)
    else if ht == HT_PERMANENT && handle in {RH_OWNER, RH_ENDORSEMENT, RH_PLATFORM, RH_LOCKOUT} then
      Ok(BigEndian(4, handle))
    else Err(InvalidHandleType(ht))
  }

  function SecretName(ctx: Context, auth: Expr): Result<Name, PolicyError> {
    if auth.Handle? then NameOf(ctx, auth.handle) else Err(InvalidExpression)
  }

  function RefOf(copyRef: Option<Digest>): Digest {
    if copyRef.Some? then copyRef.value else []
  }

  // ----- the session digest, compositionally -----

  /**
    The digest `e` takes a session from `d` to. An Or depends on nothing but the
    digests of its branches, each taken from zero.
   */
  function DigestOf(h: Hash, ctx: Context, e: Expr, d: Digest): Digest {
    match e
    case And(terms) => DigestOfAll(h, ctx, terms, d)
    case Or(branches) => OrUpdate(h, BranchDigests(h, ctx, branches))
    case Pcr(sels, digest) =>
      (match ResolvedPcr(h, ctx, sels, digest)
       case Ok(p) => PcrUpdate(h, d, sels, p)
       case Err(_) => d)
    case Secret(auth, copyRef) =>
      (match SecretName(ctx, auth)
       case Ok(name) => SecretUpdate(h, d, name, RefOf(copyRef))
       case Err(_) => d)
    case Handle(_) => d
  }

  function DigestOfAll(h: Hash, ctx: Context, terms: seq<Expr>, d: Digest): Digest {
    if terms == [] then d else DigestOfAll(h, ctx, terms[1..], DigestOf(h, ctx, terms[0], d))
  }

  function BranchDigests(h: Hash, ctx: Context, branches: seq<Expr>): (ds: seq<Digest>)
    ensures |ds| == |branches|
  {
    if branches == [] then []
    else [DigestOf(h, ctx, branches[0], ZeroDigest(h))] + BranchDigests(h, ctx, branches[1..])
  }

  // ----- the commands emitted -----

  function PcrCommand(sels: Selections, digest: Digest): Command {
    PolicyPcr(0, digest, sels)
  }

  function SecretCommand(handle: u32, policyRef: Digest): Command {
    PolicySecret(handle, 0, [], [], policyRef, 0)
  }

  const RESTART: Command := PolicyRestart(0)

  /** The command stream of `e`, or the first error compiling it meets. */
  function Emit(h: Hash, ctx: Context, e: Expr): Result<seq<Command>, PolicyError> {
    match e
    case And(terms) => EmitAll(h, ctx, terms)
    case Or(branches) =>
      (match EmitBranches(h, ctx, branches, 0)
       case Err(x) => Err(x)
       case Ok(cs) => Ok(cs + [PolicyOr(0, BranchDigests(h, ctx, branches))]))
    case Pcr(sels, digest) =>
      (match ResolvedPcr(h, ctx, sels, digest)
       case Err(x) => Err(x)
       case Ok(p) => Ok([PcrCommand(sels, p)]))
    case Secret(auth, copyRef) =>
      (match SecretName(ctx, auth)
       case Err(x) => Err(x)
       case Ok(_) => Ok([SecretCommand(auth.handle, RefOf(copyRef))]))
    case Handle(_) => Err(InvalidExpression)
  }

  function EmitAll(h: Hash, ctx: Context, terms: seq<Expr>): Result<seq<Command>, PolicyError> {
    if terms == [] then Ok([])
    else Then(Emit(h, ctx, terms[0]), EmitAll(h, ctx, terms[1..]))
  }

  /** Each branch after a restart; `before` branches are already in the digest list. */
  function EmitBranches(h: Hash, ctx: Context, branches: seq<Expr>, before: nat): (r: Result<seq<Command>, PolicyError>)
    ensures r.Ok? && branches != [] ==> before + |branches| <= BRANCHES_MAX
  {
    if branches == [] then Ok([])
    else
      var first := Then(Ok([RESTART]), Emit(h, ctx, branches[0]));
      if first.Err? then first
      else if before >= BRANCHES_MAX then Err(TooManyBranches)
      else Then(first, EmitBranches(h, ctx, branches[1..], before + 1))
  }

  /** One stream after another; the first error wins. */
  function Then(x: Result<seq<Command>, PolicyError>, y: Result<seq<Command>, PolicyError>)
    : Result<seq<Command>, PolicyError>
  {
    if x.Err? then x else if y.Err? then y else Ok(x.value + y.value)
  }

  lemma ThenEmpty(x: Result<seq<Command>, PolicyError>)
    ensures Then(Ok([]), x) == x && Then(x, Ok([])) == x
  {
    if x.Ok? {
      assert [] + x.value == x.value && x.value + [] == x.value;
    }
  }

  lemma ThenAssociative(
      a: Result<seq<Command>, PolicyError>, b: Result<seq<Command>, PolicyError>, c: Result<seq<Command>, PolicyError>)
    ensures Then(a, Then(b, c)) == Then(Then(a, b), c)
  {
    if a.Ok? && b.Ok? && c.Ok? {
      assert a.value + (b.value + c.value) == a.value + b.value + c.value;
    }
  }

  lemma {:induction false} AllAppend(h: Hash, ctx: Context, a: seq<Expr>, b: seq<Expr>, d: Digest)
    ensures EmitAll(h, ctx, a + b) == Then(EmitAll(h, ctx, a), EmitAll(h, ctx, b))
    ensures DigestOfAll(h, ctx, a + b, d) == DigestOfAll(h, ctx, b, DigestOfAll(h, ctx, a, d))
  {
    if a == [] {
      assert a + b == b;
      ThenEmpty(EmitAll(h, ctx, b));
    } else {
      assert (a + b)[0] == a[0] && (a + b)[1..] == a[1..] + b;
      AllAppend(h, ctx, a[1..], b, DigestOf(h, ctx, a[0], d));
      ThenAssociative(Emit(h, ctx, a[0]), EmitAll(h, ctx, a[1..]), EmitAll(h, ctx, b));
    }
  }

  // ----- which expressions compile -----

  /** The context knows the bank and every register selected from it. */
  predicate BankComplete(ctx: Context, s: Selection) {
    && s.hash in ctx.pcrs
    && forall k: nat | k < 8 * |s.select| :: Selected(s.select, k) ==> k in ctx.pcrs[s.hash]
  }

  /** Every leaf resolves and no Or has more than eight branches. */
  predicate Compilable(h: Hash, ctx: Context, e: Expr) {
    match e
    case And(terms) => forall t <- terms :: Compilable(h, ctx, t)
    case Or(branches) => |branches| <= BRANCHES_MAX && forall b <- branches :: Compilable(h, ctx, b)
    case Pcr(sels, digest) =>
      if digest.Some? then |digest.value| == h.size
      else forall s <- sels :: BankComplete(ctx, s)
    case Secret(auth, _) =>
      && auth.Handle?
      && (match HandleType(auth.handle)
          case 0x80 => auth.handle in ctx.names
          case 0x81 => auth.handle in ctx.names
          case 0x40 => auth.handle in {RH_OWNER, RH_ENDORSEMENT, RH_PLATFORM, RH_LOCKOUT}
          case _ => false)
    case Handle(_) => false
  }

  lemma {:induction false} BankDataOk(bank: map<u32, Digest>, indices: seq<nat>)
    ensures BankData(bank, indices).Ok? <==> forall k <- indices :: k in bank
  {
    if indices != [] {
      BankDataOk(bank, indices[1..]);
      assert forall k :: k in indices <==> k == indices[0] || k in indices[1..];
    }
  }

  lemma SelectionDataOk(ctx: Context, s: Selection)
    requires s.hash in ctx.pcrs
    ensures BankData(ctx.pcrs[s.hash], SelectedFrom(s.select, 0)).Ok? <==> BankComplete(ctx, s)
  {
    var bank, indices := ctx.pcrs[s.hash], SelectedFrom(s.select, 0);
    BankDataOk(bank, indices);
    forall k: nat
      ensures k in indices <==> Selected(s.select, k)
    {
      SelectedFromMembers(s.select, 0, k);
    }
    if BankComplete(ctx, s) {
      forall k <- indices
        ensures k in bank
      {
        assert Selected(s.select, k);
      }
    }
  }

  lemma {:induction false} PcrDataOk(ctx: Context, sels: seq<Selection>)
    ensures PcrData(ctx, sels).Ok? <==> forall s <- sels :: BankComplete(ctx, s)
  {
    if sels != [] {
      PcrDataOk(ctx, sels[1..]);
      assert sels == [sels[0]] + sels[1..];
      assert (forall s <- sels :: BankComplete(ctx, s))
        <==> BankComplete(ctx, sels[0]) && forall s <- sels[1..] :: BankComplete(ctx, s);
      if sels[0].hash in ctx.pcrs {
        SelectionDataOk(ctx, sels[0]);
      }
    }
  }

  /** Compiling succeeds on exactly the compilable expressions. */
  lemma {:induction false} EmitOk(h: Hash, ctx: Context, e: Expr)
    ensures Emit(h, ctx, e).Ok? <==> Compilable(h, ctx, e)
  {
    match e
    case And(terms) => EmitAllOk(h, ctx, terms);
    case Or(branches) => EmitBranchesOk(h, ctx, branches, 0);
    case Pcr(sels, digest) => PcrDataOk(ctx, sels);
    case Secret(_, _) =>
    case Handle(_) =>
  }

  lemma {:induction false} EmitAllOk(h: Hash, ctx: Context, terms: seq<Expr>)
    ensures EmitAll(h, ctx, terms).Ok? <==> forall t <- terms :: Compilable(h, ctx, t)
  {
    if terms != [] {
      EmitOk(h, ctx, terms[0]);
      EmitAllOk(h, ctx, terms[1..]);
      assert forall t :: t in terms <==> t == terms[0] || t in terms[1..];
    }
  }

  lemma {:induction false} EmitBranchesOk(h: Hash, ctx: Context, branches: seq<Expr>, before: nat)
    requires before <= BRANCHES_MAX
    ensures EmitBranches(h, ctx, branches, before).Ok?
            <==> before + |branches| <= BRANCHES_MAX && forall b <- branches :: Compilable(h, ctx, b)
  {
    if branches != [] {
      EmitOk(h, ctx, branches[0]);
      assert forall b :: b in branches <==> b == branches[0] || b in branches[1..];
      if before < BRANCHES_MAX {
        EmitBranchesOk(h, ctx, branches[1..], before + 1);
      }
    }
  }
}
