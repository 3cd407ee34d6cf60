/**
  Decompiling a compiled policy returns its normal form: nested Ands are
  flattened, one-element Ands unwrapped, PCR digests resolved and empty policy
  references dropped.
 */
module PolicyNormalForm {
  import opened Wrappers
  import opened Sequences
  import opened WireTypes
  import opened PolicyAst
  import opened PolicyDigest
  import opened PolicyDecompiler

  /** What `e` adds to the branch it stands in. */
  function NormItems(h: Hash, ctx: Context, e: Expr): seq<Expr> {
    match e
    case And(terms) => NormAll(h, ctx, terms)
    case Or(branches) => [Or(NormBranches(h, ctx, branches))]
    case Pcr(sels, digest) =>
      (match ResolvedPcr(h, ctx, sels, digest)
       case Ok(p) => [Pcr(sels, Some(p))]
       case Err(_) => [e])
    case Secret(auth, copyRef) => [Secret(auth, RefOption(RefOf(copyRef)))]
    case Handle(_) => [e]
  }

  function NormAll(h: Hash, ctx: Context, terms: seq<Expr>): seq<Expr> {
    if terms == [] then [] else NormItems(h, ctx, terms[0]) + NormAll(h, ctx, terms[1..])
  }

  function NormBranches(h: Hash, ctx: Context, branches: seq<Expr>): (r: seq<Expr>)
    ensures |r| == |branches|
  {
    if branches == [] then []
    else [BuildAndBranch(NormItems(h, ctx, branches[0]))] + NormBranches(h, ctx, branches[1..])
  }

  function Norm(h: Hash, ctx: Context, e: Expr): Expr {
    BuildAndBranch(NormItems(h, ctx, e))
  }

  // ----- decompile after compile -----

  function PushAll(stack: Stack, items: seq<Expr>): (r: Stack)
    requires stack != []
    ensures |r| == |stack|
  {
    stack[..|stack| - 1] + [stack[|stack| - 1] + items]
  }

  /** The branches of an Or, still open. */
  function OpenBranches(h: Hash, ctx: Context, branches: seq<Expr>): (r: Stack)
    ensures |r| == |branches|
  {
    if branches == [] then [] else [NormItems(h, ctx, branches[0])] + OpenBranches(h, ctx, branches[1..])
  }

  lemma {:induction false} OpenBranchesClose(h: Hash, ctx: Context, branches: seq<Expr>)
    ensures Closed(OpenBranches(h, ctx, branches)) == NormBranches(h, ctx, branches)
  {
    if branches != [] {
      OpenBranchesClose(h, ctx, branches[1..]);
      var first, rest := NormItems(h, ctx, branches[0]), OpenBranches(h, ctx, branches[1..]);
      assert Closed([first] + rest) == [BuildAndBranch(first)] + Closed(rest);
    }
  }

  lemma RebuildCons(c: Command, rest: seq<Command>, stack: Stack)
    requires stack != [] && StackAfter(stack, c).Ok?
    ensures Rebuild([c] + rest, stack) == Rebuild(rest, StackAfter(stack, c).value)
  {
    assert ([c] + rest)[1..] == rest;
  }

  /** Reading the stream of `e` adds the normal items of `e` to the innermost branch. */
  lemma {:induction false} RebuildEmit(h: Hash, ctx: Context, e: Expr, rest: seq<Command>, stack: Stack)
    requires stack != [] && Emit(h, ctx, e).Ok?
    ensures Rebuild(Emit(h, ctx, e).value + rest, stack) == Rebuild(rest, PushAll(stack, NormItems(h, ctx, e)))
    decreases e, 0
  {
    match e
    case And(terms) => RebuildEmitAll(h, ctx, terms, rest, stack);
    case Or(branches) => RebuildEmitOr(h, ctx, branches, rest, stack);
    case Pcr(sels, digest) => RebuildCons(PcrCommand(sels, ResolvedPcr(h, ctx, sels, digest).value), rest, stack);
    case Secret(auth, copyRef) => RebuildCons(SecretCommand(auth.handle, RefOf(copyRef)), rest, stack);
    case Handle(_) =>
  }

  lemma {:induction false} RebuildEmitAll(h: Hash, ctx: Context, terms: seq<Expr>, rest: seq<Command>, stack: Stack)
    requires stack != [] && EmitAll(h, ctx, terms).Ok?
    ensures Rebuild(EmitAll(h, ctx, terms).value + rest, stack) == Rebuild(rest, PushAll(stack, NormAll(h, ctx, terms)))
    decreases terms, 0
  {
    if terms == [] {
      assert stack[|stack| - 1] + [] == stack[|stack| - 1];
      assert PushAll(stack, []) == stack && [] + rest == rest;
    } else {
      var x, y := Emit(h, ctx, terms[0]).value, EmitAll(h, ctx, terms[1..]).value;
      var next := PushAll(stack, NormItems(h, ctx, terms[0]));
      assert x + y + rest == x + (y + rest);
      RebuildEmit(h, ctx, terms[0], y + rest, stack);
      RebuildEmitAll(h, ctx, terms[1..], rest, next);
      PushAllTwice(stack, NormItems(h, ctx, terms[0]), NormAll(h, ctx, terms[1..]));
    }
  }

  lemma PushAllTwice(stack: Stack, a: seq<Expr>, b: seq<Expr>)
    requires stack != []
    ensures PushAll(PushAll(stack, a), b) == PushAll(stack, a + b)
  {
    var below, top := stack[..|stack| - 1], stack[|stack| - 1];
    assert PushAll(stack, a)[..|stack| - 1] == below;
    assert top + a + b == top + (a + b);
  }

  lemma PushAllFresh(stack: Stack, items: seq<Expr>)
    ensures PushAll(stack + [[]], items) == stack + [items]
  {
    assert (stack + [[]])[..|stack|] == stack && [] + items == items;
  }

  lemma {:induction false} RebuildEmitOr(h: Hash, ctx: Context, branches: seq<Expr>, rest: seq<Command>, stack: Stack)
    requires stack != [] && Emit(h, ctx, Or(branches)).Ok?
    ensures Rebuild(Emit(h, ctx, Or(branches)).value + rest, stack)
            == Rebuild(rest, PushAll(stack, NormItems(h, ctx, Or(branches))))
    decreases branches, 1
  {
    var body, open := EmitBranches(h, ctx, branches, 0).value, OpenBranches(h, ctx, branches);
    var or := PolicyOr(0, BranchDigests(h, ctx, branches));
    assert body + [or] + rest == body + ([or] + rest);
    RebuildEmitBranches(h, ctx, branches, 0, [or] + rest, stack);
    var full := stack + open;
    assert full[..|full| - |branches|] == stack && full[|full| - |branches|..] == open;
    OpenBranchesClose(h, ctx, branches);
    RebuildCons(or, rest, full);
  }

  lemma {:induction false} RebuildEmitBranches(
      h: Hash, ctx: Context, branches: seq<Expr>, before: nat, rest: seq<Command>, stack: Stack)
    requires stack != [] && EmitBranches(h, ctx, branches, before).Ok?
    ensures Rebuild(EmitBranches(h, ctx, branches, before).value + rest, stack)
            == Rebuild(rest, stack + OpenBranches(h, ctx, branches))
    decreases branches, 0
  {
    if branches == [] {
      assert stack + [] == stack && [] + rest == rest;
    } else {
      var x, y := Emit(h, ctx, branches[0]).value, EmitBranches(h, ctx, branches[1..], before + 1).value;
      var items := NormItems(h, ctx, branches[0]);
      assert EmitBranches(h, ctx, branches, before).value == [RESTART] + x + y;
      Associate([RESTART] + x, y, rest);
      RebuildEmitBranch(h, ctx, branches[0], y + rest, stack);
      RebuildEmitBranches(h, ctx, branches[1..], before + 1, rest, stack + [items]);
      assert OpenBranches(h, ctx, branches) == [items] + OpenBranches(h, ctx, branches[1..]);
      Associate(stack, [items], OpenBranches(h, ctx, branches[1..]));
    }
  }

  lemma {:induction false} RebuildEmitBranch(h: Hash, ctx: Context, branch: Expr, rest: seq<Command>, stack: Stack)
    requires stack != [] && Emit(h, ctx, branch).Ok?
    ensures Rebuild([RESTART] + Emit(h, ctx, branch).value + rest, stack)
            == Rebuild(rest, stack + [NormItems(h, ctx, branch)])
    decreases branch, 1
  {
    var x := Emit(h, ctx, branch).value;
    assert [RESTART] + x + rest == [RESTART] + (x + rest);
    RebuildCons(RESTART, x + rest, stack);
    RebuildEmit(h, ctx, branch, rest, stack + [[]]);
    PushAllFresh(stack, NormItems(h, ctx, branch));
  }

  /** Decompiling a compiled policy returns its normal form. */
  lemma DecompileCompiled(h: Hash, ctx: Context, e: Expr)
    requires Emit(h, ctx, e).Ok?
    ensures Rebuild(Emit(h, ctx, e).value, [[]]) == Ok(Norm(h, ctx, e))
  {
    var cs := Emit(h, ctx, e).value;
    assert cs + [] == cs;
    RebuildEmit(h, ctx, e, [], [[]]);
    assert PushAll([[]], NormItems(h, ctx, e))[0] == NormItems(h, ctx, e);
  }

  // ----- the normal form means the same -----

  lemma AllOne(h: Hash, ctx: Context, e: Expr, d: Digest)
    ensures EmitAll(h, ctx, [e]) == Emit(h, ctx, e)
    ensures DigestOfAll(h, ctx, [e], d) == DigestOf(h, ctx, e, d)
  {
    assert [e][1..] == [] && EmitAll(h, ctx, []) == Ok([]);
    assert DigestOfAll(h, ctx, [], DigestOf(h, ctx, e, d)) == DigestOf(h, ctx, e, d);
    ThenEmpty(Emit(h, ctx, e));
  }

  lemma BuiltMeaning(h: Hash, ctx: Context, items: seq<Expr>, d: Digest)
    ensures Emit(h, ctx, BuildAndBranch(items)) == EmitAll(h, ctx, items)
    ensures DigestOf(h, ctx, BuildAndBranch(items), d) == DigestOfAll(h, ctx, items, d)
  {
    if |items| == 1 {
      assert items == [items[0]];
      AllOne(h, ctx, items[0], d);
    }
  }

  lemma {:induction false} NormItemsMeaning(h: Hash, ctx: Context, e: Expr, d: Digest)
    requires Emit(h, ctx, e).Ok?
    ensures EmitAll(h, ctx, NormItems(h, ctx, e)) == Emit(h, ctx, e)
    ensures DigestOfAll(h, ctx, NormItems(h, ctx, e), d) == DigestOf(h, ctx, e, d)
    decreases e
  {
    match e
    case And(terms) => NormAllMeaning(h, ctx, terms, d);
    case Or(branches) =>
      NormBranchesMeaning(h, ctx, branches, 0);
      AllOne(h, ctx, Or(NormBranches(h, ctx, branches)), d);
    case Pcr(sels, digest) => AllOne(h, ctx, Pcr(sels, Some(ResolvedPcr(h, ctx, sels, digest).value)), d);
    case Secret(auth, copyRef) => AllOne(h, ctx, Secret(auth, RefOption(RefOf(copyRef))), d);
    case Handle(_) =>
  }

  lemma {:induction false} NormAllMeaning(h: Hash, ctx: Context, terms: seq<Expr>, d: Digest)
    requires EmitAll(h, ctx, terms).Ok?
    ensures EmitAll(h, ctx, NormAll(h, ctx, terms)) == EmitAll(h, ctx, terms)
    ensures DigestOfAll(h, ctx, NormAll(h, ctx, terms), d) == DigestOfAll(h, ctx, terms, d)
    decreases terms
  {
    if terms != [] {
      var next := DigestOf(h, ctx, terms[0], d);
      NormItemsMeaning(h, ctx, terms[0], d);
      NormAllMeaning(h, ctx, terms[1..], next);
      AllAppend(h, ctx, NormItems(h, ctx, terms[0]), NormAll(h, ctx, terms[1..]), d);
    }
  }

  lemma {:induction false} NormBranchesMeaning(h: Hash, ctx: Context, branches: seq<Expr>, before: nat)
    requires EmitBranches(h, ctx, branches, before).Ok?
    ensures EmitBranches(h, ctx, NormBranches(h, ctx, branches), before) == EmitBranches(h, ctx, branches, before)
    ensures BranchDigests(h, ctx, NormBranches(h, ctx, branches)) == BranchDigests(h, ctx, branches)
    decreases branches
  {
    if branches != [] {
      NormItemsMeaning(h, ctx, branches[0], ZeroDigest(h));
      BuiltMeaning(h, ctx, NormItems(h, ctx, branches[0]), ZeroDigest(h));
      NormBranchesMeaning(h, ctx, branches[1..], before + 1);
      var norms := NormBranches(h, ctx, branches);
      assert norms[0] == Norm(h, ctx, branches[0]) && norms[1..] == NormBranches(h, ctx, branches[1..]);
    }
  }

  /** The normal form compiles to the same commands and takes every session to the same digest. */
  lemma NormCompilesAlike(h: Hash, ctx: Context, e: Expr, d: Digest)
    requires Emit(h, ctx, e).Ok?
    ensures Emit(h, ctx, Norm(h, ctx, e)) == Emit(h, ctx, e)
    ensures DigestOf(h, ctx, Norm(h, ctx, e), d) == DigestOf(h, ctx, e, d)
  {
    NormItemsMeaning(h, ctx, e, d);
    BuiltMeaning(h, ctx, NormItems(h, ctx, e), d);
  }

  // ----- which expressions are normal -----

  /** An item of a normal branch: not an And. */
  predicate NormalItem(e: Expr)
    decreases e, 0
  {
    match e
    case And(_) => false
    case Or(branches) => forall b <- branches :: IsNormal(b)
    case Pcr(_, digest) => digest.Some?
    case Secret(_, copyRef) => copyRef != Some([])
    case Handle(_) => true
  }

  /** Readable off the expression: no And holds an And or exactly one term, and leaves are resolved. */
  predicate IsNormal(e: Expr)
    decreases e, 1
  {
    if e.And? then |e.terms| != 1 && forall t <- e.terms :: NormalItem(t) else NormalItem(e)
  }

  lemma BuiltNormal(items: seq<Expr>)
    requires forall x <- items :: NormalItem(x)
    ensures IsNormal(BuildAndBranch(items))
  {
    if |items| == 1 {
      assert items[0] in items;
    }
  }

  lemma {:induction false} NormItemsNormal(h: Hash, ctx: Context, e: Expr)
    requires Emit(h, ctx, e).Ok?
    ensures forall x <- NormItems(h, ctx, e) :: NormalItem(x)
    decreases e
  {
    match e
    case And(terms) => NormAllNormal(h, ctx, terms);
    case Or(branches) => NormBranchesNormal(h, ctx, branches, 0);
    case Pcr(_, _) =>
    case Secret(_, _) =>
    case Handle(_) =>
  }

  lemma {:induction false} NormAllNormal(h: Hash, ctx: Context, terms: seq<Expr>)
    requires EmitAll(h, ctx, terms).Ok?
    ensures forall x <- NormAll(h, ctx, terms) :: NormalItem(x)
    decreases terms
  {
    if terms != [] {
      NormItemsNormal(h, ctx, terms[0]);
      NormAllNormal(h, ctx, terms[1..]);
    }
  }

  lemma {:induction false} NormBranchesNormal(h: Hash, ctx: Context, branches: seq<Expr>, before: nat)
    requires EmitBranches(h, ctx, branches, before).Ok?
    ensures forall x <- NormBranches(h, ctx, branches) :: IsNormal(x)
    decreases branches
  {
    if branches != [] {
      NormItemsNormal(h, ctx, branches[0]);
      BuiltNormal(NormItems(h, ctx, branches[0]));
      NormBranchesNormal(h, ctx, branches[1..], before + 1);
    }
  }

  lemma {:induction false} NormalItemFixed(h: Hash, ctx: Context, e: Expr)
    requires Emit(h, ctx, e).Ok? && NormalItem(e)
    ensures NormItems(h, ctx, e) == [e]
    decreases e, 0
  {
    if e.Or? {
      NormalBranchesFixed(h, ctx, e.branches, 0);
    }
  }

  lemma {:induction false} NormalFixed(h: Hash, ctx: Context, e: Expr)
    requires Emit(h, ctx, e).Ok? && IsNormal(e)
    ensures Norm(h, ctx, e) == e
    decreases e, 1
  {
    if e.And? {
      NormalItemsFixed(h, ctx, e.terms);
    } else {
      NormalItemFixed(h, ctx, e);
    }
  }

  lemma {:induction false} NormalItemsFixed(h: Hash, ctx: Context, terms: seq<Expr>)
    requires EmitAll(h, ctx, terms).Ok? && forall t <- terms :: NormalItem(t)
    ensures NormAll(h, ctx, terms) == terms
    decreases terms
  {
    if terms != [] {
      NormalItemFixed(h, ctx, terms[0]);
      NormalItemsFixed(h, ctx, terms[1..]);
      assert terms == [terms[0]] + terms[1..];
    }
  }

  lemma {:induction false} NormalBranchesFixed(h: Hash, ctx: Context, branches: seq<Expr>, before: nat)
    requires EmitBranches(h, ctx, branches, before).Ok? && forall b <- branches :: IsNormal(b)
    ensures NormBranches(h, ctx, branches) == branches
    decreases branches
  {
    if branches != [] {
      NormalFixed(h, ctx, branches[0]);
      NormalBranchesFixed(h, ctx, branches[1..], before + 1);
      assert branches == [branches[0]] + branches[1..];
    }
  }

  /** Decompiling what `e` compiles to gives `e` itself exactly when `e` is normal. */
  lemma DecompileExact(h: Hash, ctx: Context, e: Expr)
    requires Emit(h, ctx, e).Ok?
    ensures Rebuild(Emit(h, ctx, e).value, [[]]) == Ok(e) <==> IsNormal(e)
  {
    DecompileCompiled(h, ctx, e);
    if IsNormal(e) {
      NormalFixed(h, ctx, e);
    }
    NormItemsNormal(h, ctx, e);
    BuiltNormal(NormItems(h, ctx, e));
  }

  predicate NormalItems(items: seq<Expr>) {
    forall x <- items :: NormalItem(x)
  }

  predicate NormalStack(stack: Stack) {
    forall i | 0 <= i < |stack| :: NormalItems(stack[i])
  }

  lemma PushNormal(stack: Stack, e: Expr)
    requires stack != [] && NormalStack(stack) && NormalItem(e)
    ensures NormalStack(Push(stack, e))
  {
    var top := stack[|stack| - 1];
    assert NormalItems(top);
    assert NormalItems(top + [e]);
  }

  lemma ClosedNormal(branches: Stack)
    requires NormalStack(branches)
    ensures forall b <- Closed(branches) :: IsNormal(b)
  {
    forall i | 0 <= i < |branches|
      ensures IsNormal(BuildAndBranch(branches[i]))
    {
      assert NormalItems(branches[i]);
      BuiltNormal(branches[i]);
    }
  }

  lemma StackAfterNormal(stack: Stack, c: Command)
    requires stack != [] && NormalStack(stack) && StackAfter(stack, c).Ok?
    ensures NormalStack(StackAfter(stack, c).value)
  {
    match c
    case PolicyRestart(_) =>
    case PolicyPcr(_, digest, pcrs) => PushNormal(stack, Pcr(pcrs, Some(digest)));
    case PolicySecret(auth, _, _, _, policyRef, _) => PushNormal(stack, Secret(Handle(auth), RefOption(policyRef)));
    case PolicyOr(_, hashes) =>
      var n := |hashes|;
      ClosedNormal(stack[|stack| - n..]);
      PushNormal(stack[..|stack| - n], Or(Closed(stack[|stack| - n..])));
  }

  /** Whatever stream it comes from, a decompiled expression is normal. */
  lemma {:induction false} DecompiledNormal(cs: seq<Command>, stack: Stack)
    requires stack != [] && NormalStack(stack) && Rebuild(cs, stack).Ok?
    ensures IsNormal(Rebuild(cs, stack).value)
    decreases cs
  {
    if cs == [] {
      assert NormalItems(stack[0]);
      BuiltNormal(stack[0]);
    } else {
      StackAfterNormal(stack, cs[0]);
      DecompiledNormal(cs[1..], StackAfter(stack, cs[0]).value);
    }
  }

  /** Compiling and decompiling again changes nothing that decompiling returned. */
  lemma DecompileStable(h: Hash, ctx: Context, cs: seq<Command>)
    requires Rebuild(cs, [[]]).Ok? && Emit(h, ctx, Rebuild(cs, [[]]).value).Ok?
    ensures Rebuild(Emit(h, ctx, Rebuild(cs, [[]]).value).value, [[]]) == Rebuild(cs, [[]])
  {
    DecompiledNormal(cs, [[]]);
    DecompileExact(h, ctx, Rebuild(cs, [[]]).value);
  }

  // ----- an expression that does not come back -----

  const OWNER: Expr := Secret(Handle(RH_OWNER), None)
  const NESTED: Expr := And([OWNER, And([OWNER, OWNER])])

  /** A nested And comes back flat. */
  lemma NestedAndFlattened(h: Hash, ctx: Context)
    ensures Emit(h, ctx, NESTED).Ok? && !IsNormal(NESTED)
    ensures Rebuild(Emit(h, ctx, NESTED).value, [[]]) == Ok(And([OWNER, OWNER, OWNER]))
  {
    OwnersNorm(h, ctx, [OWNER, OWNER]);
    AllOwners(h, ctx);
    DecompileCompiled(h, ctx, NESTED);
    assert !NormalItem(NESTED.terms[1]);
  }

  lemma {:induction false} OwnersNorm(h: Hash, ctx: Context, terms: seq<Expr>)
    requires forall t <- terms :: t == OWNER
    ensures EmitAll(h, ctx, terms).Ok? && NormAll(h, ctx, terms) == terms
  {
    if terms != [] {
      assert terms[0] in terms && forall t <- terms[1..] :: t in terms;
      OwnersNorm(h, ctx, terms[1..]);
      assert HandleType(RH_OWNER) == HT_PERMANENT && NormItems(h, ctx, OWNER) == [OWNER];
      assert terms == [OWNER] + terms[1..];
    }
  }

  lemma AllOwners(h: Hash, ctx: Context)
    requires EmitAll(h, ctx, [OWNER, OWNER]).Ok? && NormAll(h, ctx, [OWNER, OWNER]) == [OWNER, OWNER]
    ensures Emit(h, ctx, NESTED).Ok? && NormItems(h, ctx, NESTED) == [OWNER, OWNER, OWNER]
  {
    var inner := And([OWNER, OWNER]);
    assert NESTED.terms[1..] == [inner] && [inner][1..] == [];
    AllOne(h, ctx, inner, []);
    OwnersNorm(h, ctx, [OWNER]);
    AllOne(h, ctx, OWNER, []);
    assert NormAll(h, ctx, [inner]) == [OWNER, OWNER];
  }
}
