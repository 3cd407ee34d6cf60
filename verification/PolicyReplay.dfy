/**
  Running a compiled stream in a TPM policy session. Unlike the compiler's
  simulated session, the TPM refuses TPM2_PolicyOR unless the session digest is
  one of the listed digests and enough of them are listed.
 */
module PolicyReplay {
  import opened Wrappers
  import opened WireTypes
  import opened PolicyAst
  import opened PolicyDigest

  /** How TPM2_PolicyOR is checked: not at all, or by membership in a list of at least `least` digests. */
  datatype OrCheck = Unchecked | Membership(least: nat)

  predicate Admits(check: OrCheck, hashes: seq<Digest>, d: Digest) {
    check.Unchecked? || (check.least <= |hashes| && d in hashes)
  }

  /** One command in a session holding `d`; None when the TPM refuses it. */
  function Step(h: Hash, ctx: Context, check: OrCheck, c: Command, d: Digest): Option<Digest> {
    match c
    case PolicyPcr(_, digest, pcrs) => Some(PcrUpdate(h, d, pcrs, digest))
    case PolicySecret(auth, _, _, _, policyRef, _) =>
      (match NameOf(ctx, auth)
       case Ok(name) => Some(SecretUpdate(h, d, name, policyRef))
       case Err(_) => None)
    case PolicyRestart(_) => Some(ZeroDigest(h))
    case PolicyOr(_, hashes) => if Admits(check, hashes, d) then Some(OrUpdate(h, hashes)) else None
    case Other(_) => None
  }

  /** The digest after a whole stream; None when any command is refused. */
  function Replay(h: Hash, ctx: Context, check: OrCheck, cs: seq<Command>, d: Digest): Option<Digest>
    decreases cs, 0
  {
    if cs == [] then Some(d)
    else AndThen(h, ctx, check, Step(h, ctx, check, cs[0], d), cs[1..])
  }

  function AndThen(h: Hash, ctx: Context, check: OrCheck, d: Option<Digest>, cs: seq<Command>): Option<Digest>
    decreases cs, 1
  {
    if d.None? then None else Replay(h, ctx, check, cs, d.value)
  }

  /** Every Or has a branch for the session to be a member of, and as many as the check wants. */
  predicate EnoughBranches(check: OrCheck, e: Expr) {
    match e
    case And(terms) => forall t <- terms :: EnoughBranches(check, t)
    case Or(branches) =>
      && (check.Membership? ==> 1 <= |branches| && check.least <= |branches|)
      && forall b <- branches :: EnoughBranches(check, b)
    case _ => true
  }

  lemma {:induction false} ReplayAppend(h: Hash, ctx: Context, check: OrCheck, a: seq<Command>, b: seq<Command>,
      d: Digest)
    ensures Replay(h, ctx, check, a + b, d) == AndThen(h, ctx, check, Replay(h, ctx, check, a, d), b)
  {
    if a == [] {
      assert a + b == b;
    } else {
      assert (a + b)[0] == a[0] && (a + b)[1..] == a[1..] + b;
      var next := Step(h, ctx, check, a[0], d);
      if next.Some? {
        ReplayAppend(h, ctx, check, a[1..], b, next.value);
      }
    }
  }

  lemma ReplayOne(h: Hash, ctx: Context, check: OrCheck, c: Command, d: Digest)
    ensures Replay(h, ctx, check, [c], d) == Step(h, ctx, check, c, d)
  {
    assert [c][1..] == [];
    var next := Step(h, ctx, check, c, d);
    assert next.Some? ==> Replay(h, ctx, check, [], next.value) == next;
  }

  /**
    Replaying the stream of `e` from any digest reaches the digest of `e`, when
    every Or has enough branches; otherwise the TPM refuses it.
   */
  lemma {:induction false} ReplayEmit(h: Hash, ctx: Context, check: OrCheck, e: Expr, d: Digest)
    requires Emit(h, ctx, e).Ok?
    ensures Replay(h, ctx, check, Emit(h, ctx, e).value, d)
            == if EnoughBranches(check, e) then Some(DigestOf(h, ctx, e, d)) else None
    decreases e, 0
  {
    match e
    case And(terms) => ReplayAll(h, ctx, check, terms, d);
    case Or(branches) => ReplayOr(h, ctx, check, branches, d);
    case Pcr(sels, digest) => ReplayOne(h, ctx, check, PcrCommand(sels, ResolvedPcr(h, ctx, sels, digest).value), d);
    case Secret(auth, copyRef) => ReplayOne(h, ctx, check, SecretCommand(auth.handle, RefOf(copyRef)), d);
    case Handle(_) =>
  }

  lemma {:induction false} ReplayAll(h: Hash, ctx: Context, check: OrCheck, terms: seq<Expr>, d: Digest)
    requires EmitAll(h, ctx, terms).Ok?
    ensures Replay(h, ctx, check, EmitAll(h, ctx, terms).value, d)
            == if forall t <- terms :: EnoughBranches(check, t) then Some(DigestOfAll(h, ctx, terms, d)) else None
    decreases terms, 0
  {
    if terms != [] {
      assert terms == [terms[0]] + terms[1..];
      var first, rest := Emit(h, ctx, terms[0]).value, EmitAll(h, ctx, terms[1..]).value;
      ReplayAppend(h, ctx, check, first, rest, d);
      ReplayEmit(h, ctx, check, terms[0], d);
      ReplayAll(h, ctx, check, terms[1..], DigestOf(h, ctx, terms[0], d));
    }
  }

  /** The branches leave the session at the digest of the last one, which PolicyOR lists. */
  lemma {:induction false} ReplayOr(h: Hash, ctx: Context, check: OrCheck, branches: seq<Expr>, d: Digest)
    requires Emit(h, ctx, Or(branches)).Ok?
    ensures Replay(h, ctx, check, Emit(h, ctx, Or(branches)).value, d)
            == if EnoughBranches(check, Or(branches)) then Some(DigestOf(h, ctx, Or(branches), d)) else None
    decreases branches, 1
  {
    var body, digests := EmitBranches(h, ctx, branches, 0).value, BranchDigests(h, ctx, branches);
    ReplayBranches(h, ctx, check, branches, 0, d);
    ReplayAppend(h, ctx, check, body, [PolicyOr(0, digests)], d);
    var reached := Replay(h, ctx, check, body, d);
    if reached.Some? {
      ReplayOne(h, ctx, check, PolicyOr(0, digests), reached.value);
    }
  }

  lemma {:induction false} ReplayBranches(h: Hash, ctx: Context, check: OrCheck, branches: seq<Expr>, before: nat,
      d: Digest)
    requires EmitBranches(h, ctx, branches, before).Ok?
    ensures Replay(h, ctx, check, EmitBranches(h, ctx, branches, before).value, d)
            == if forall b <- branches :: EnoughBranches(check, b)
               then Some(if branches == [] then d else BranchDigests(h, ctx, branches)[|branches| - 1]) else None
    decreases branches, 0
  {
    if branches != [] {
      assert branches == [branches[0]] + branches[1..];
      var first, rest := Emit(h, ctx, branches[0]).value, EmitBranches(h, ctx, branches[1..], before + 1).value;
      var reached := DigestOf(h, ctx, branches[0], ZeroDigest(h));
      assert EmitBranches(h, ctx, branches, before).value == [RESTART] + first + rest;
      ReplayAppend(h, ctx, check, [RESTART] + first, rest, d);
      ReplayAppend(h, ctx, check, [RESTART], first, d);
      ReplayOne(h, ctx, check, RESTART, d);
      ReplayEmit(h, ctx, check, branches[0], ZeroDigest(h));
      ReplayBranches(h, ctx, check, branches[1..], before + 1, reached);
    }
  }

  lemma {:induction false} UncheckedEnough(e: Expr)
    ensures EnoughBranches(Unchecked, e)
  {
    match e
    case And(terms) =>
      forall t <- terms
        ensures EnoughBranches(Unchecked, t)
      {
        UncheckedEnough(t);
      }
    case Or(branches) =>
      forall b <- branches
        ensures EnoughBranches(Unchecked, b)
      {
        UncheckedEnough(b);
      }
    case _ =>
  }

  /** The digest that compiling reports is the one that replaying the stream from zero reaches. */
  lemma CompiledDigestReplays(h: Hash, ctx: Context, e: Expr)
    requires Emit(h, ctx, e).Ok?
    ensures Replay(h, ctx, Unchecked, Emit(h, ctx, e).value, ZeroDigest(h)) == Some(DigestOf(h, ctx, e, ZeroDigest(h)))
  {
    UncheckedEnough(e);
    ReplayEmit(h, ctx, Unchecked, e, ZeroDigest(h));
  }

  /** What preceded an Or in the session does not show in the digest after it. */
  lemma OrForgets(h: Hash, ctx: Context, prefix: seq<Expr>, branches: seq<Expr>, d: Digest)
    ensures DigestOf(h, ctx, And(prefix + [Or(branches)]), d) == OrUpdate(h, BranchDigests(h, ctx, branches))
  {
    var terms := prefix + [Or(branches)];
    AllAppend(h, ctx, prefix, [Or(branches)], d);
    assert [Or(branches)][1..] == [];
  }

  /** An Or without branches compiles, and a TPM that checks membership refuses its stream. */
  lemma EmptyOrRefused(h: Hash, ctx: Context, least: nat)
    ensures Emit(h, ctx, Or([])) == Ok([PolicyOr(0, [])])
    ensures !EnoughBranches(Membership(least), Or([]))
    ensures Replay(h, ctx, Membership(least), [PolicyOr(0, [])], ZeroDigest(h)) == None
  {
    assert [] + [PolicyOr(0, [])] == [PolicyOr(0, [])];
    ReplayEmit(h, ctx, Membership(least), Or([]), ZeroDigest(h));
  }
}
