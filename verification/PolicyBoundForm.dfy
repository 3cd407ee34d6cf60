/**
  The part of a policy's normal form that its digest binds: in each branch, and in the
  policy itself, what stands after the last Or, and that Or.
 */
module PolicyBoundForm {
  import opened Wrappers
  import opened Bytes
  import opened WireTypes
  import opened PolicyAst
  import opened PolicyDigest
  import opened PolicyDecompiler
  import opened PolicyNormalForm
  import opened PolicyBinding

  /** The normal items that a branch holding `before` keeps after `e`. */
  function Kept(h: Hash, ctx: Context, e: Expr, before: seq<Expr>): seq<Expr> {
    match e
    case And(terms) => KeptAll(h, ctx, terms, before)
    case Or(branches) => [Or(KeptBranches(h, ctx, branches))]
    case _ => before + NormItems(h, ctx, e)
  }

  function KeptAll(h: Hash, ctx: Context, terms: seq<Expr>, before: seq<Expr>): seq<Expr> {
    if terms == [] then before else KeptAll(h, ctx, terms[1..], Kept(h, ctx, terms[0], before))
  }

  function KeptBranches(h: Hash, ctx: Context, branches: seq<Expr>): (r: seq<Expr>)
    ensures |r| == |branches|
  {
    if branches == [] then []
    else [BuildAndBranch(Kept(h, ctx, branches[0], []))] + KeptBranches(h, ctx, branches[1..])
  }

  /** The bound part of the normal form. */
  function BoundForm(h: Hash, ctx: Context, e: Expr): Expr {
    BuildAndBranch(Kept(h, ctx, e, []))
  }

  // ----- it is a part of the normal form -----

  lemma {:induction false} KeptAppend(h: Hash, ctx: Context, a: seq<Expr>, b: seq<Expr>, before: seq<Expr>)
    ensures KeptAll(h, ctx, a + b, before) == KeptAll(h, ctx, b, KeptAll(h, ctx, a, before))
  {
    if a == [] {
      assert a + b == b;
    } else {
      assert (a + b)[0] == a[0] && (a + b)[1..] == a[1..] + b;
      KeptAppend(h, ctx, a[1..], b, Kept(h, ctx, a[0], before));
    }
  }

  lemma KeptOne(h: Hash, ctx: Context, e: Expr, before: seq<Expr>)
    ensures KeptAll(h, ctx, [e], before) == Kept(h, ctx, e, before)
  {
    assert [e][1..] == [];
  }

  lemma KeptBuilt(h: Hash, ctx: Context, items: seq<Expr>, before: seq<Expr>)
    ensures Kept(h, ctx, BuildAndBranch(items), before) == KeptAll(h, ctx, items, before)
  {
    if |items| == 1 {
      assert items == [items[0]];
      KeptOne(h, ctx, items[0], before);
    }
  }

  /** Normalizing first makes no difference to what is kept. */
  lemma {:induction false} NormItemsKept(h: Hash, ctx: Context, e: Expr, before: seq<Expr>)
    ensures KeptAll(h, ctx, NormItems(h, ctx, e), before) == Kept(h, ctx, e, before)
    decreases e
  {
    match e
    case And(terms) => NormAllKept(h, ctx, terms, before);
    case Or(branches) =>
      NormBranchesKept(h, ctx, branches);
      KeptOne(h, ctx, Or(NormBranches(h, ctx, branches)), before);
    case Pcr(sels, digest) => KeptOne(h, ctx, NormItems(h, ctx, e)[0], before);
    case Secret(auth, copyRef) => KeptOne(h, ctx, NormItems(h, ctx, e)[0], before);
    case Handle(_) => KeptOne(h, ctx, e, before);
  }

  lemma {:induction false} NormAllKept(h: Hash, ctx: Context, terms: seq<Expr>, before: seq<Expr>)
    ensures KeptAll(h, ctx, NormAll(h, ctx, terms), before) == KeptAll(h, ctx, terms, before)
    decreases terms
  {
    if terms != [] {
      NormItemsKept(h, ctx, terms[0], before);
      NormAllKept(h, ctx, terms[1..], Kept(h, ctx, terms[0], before));
      KeptAppend(h, ctx, NormItems(h, ctx, terms[0]), NormAll(h, ctx, terms[1..]), before);
    }
  }

  lemma {:induction false} NormBranchesKept(h: Hash, ctx: Context, branches: seq<Expr>)
    ensures KeptBranches(h, ctx, NormBranches(h, ctx, branches)) == KeptBranches(h, ctx, branches)
    decreases branches
  {
    if branches != [] {
      NormItemsKept(h, ctx, branches[0], []);
      KeptBuilt(h, ctx, NormItems(h, ctx, branches[0]), []);
      NormBranchesKept(h, ctx, branches[1..]);
      var norms := NormBranches(h, ctx, branches);
      assert norms[0] == Norm(h, ctx, branches[0]) && norms[1..] == NormBranches(h, ctx, branches[1..]);
    }
  }

  /** The bound form of a policy is that of its normal form. */
  lemma BoundFormOfNorm(h: Hash, ctx: Context, e: Expr)
    ensures BoundForm(h, ctx, Norm(h, ctx, e)) == BoundForm(h, ctx, e)
  {
    NormItemsKept(h, ctx, e, []);
    KeptBuilt(h, ctx, NormItems(h, ctx, e), []);
  }

  // ----- kept items and claims -----

  /** No secret of `e` names a handle outside `hs`. */
  predicate UsesOnly(e: Expr, hs: set<u32>) {
    match e
    case And(terms) => forall t <- terms :: UsesOnly(t, hs)
    case Or(branches) => forall b <- branches :: UsesOnly(b, hs)
    case Secret(auth, _) => auth.Handle? ==> auth.handle in hs
    case _ => true
  }

  /** No two of the handles have one name. */
  predicate NamesDiffer(ctx: Context, hs: set<u32>) {
    forall x <- hs, y <- hs :: NameOf(ctx, x).Ok? && NameOf(ctx, x) == NameOf(ctx, y) ==> x == y
  }

  /** The items of a branch as it was built. */
  function ItemsOf(branch: Expr): seq<Expr> {
    if branch.And? then branch.terms else [branch]
  }

  /** The items make these claims, through handles of `hs`. */
  predicate Speaks(ctx: Context, hs: set<u32>, items: seq<Expr>, c: Claims)
    decreases c
  {
    match c
    case Nothing => items == []
    case PcrIs(before, sels, p) =>
      && items != [] && items[|items| - 1] == Pcr(sels, Some(p))
      && Speaks(ctx, hs, items[..|items| - 1], before)
    case SecretOf(before, name, policyRef) =>
      && items != [] && NamesSecret(ctx, hs, items[|items| - 1], name, policyRef)
      && Speaks(ctx, hs, items[..|items| - 1], before)
    case AnyOf(claims) =>
      && |items| == 1 && items[0].Or? && |items[0].branches| == |claims|
      && forall i | 0 <= i < |claims| ::
           && BuildAndBranch(ItemsOf(items[0].branches[i])) == items[0].branches[i]
           && Speaks(ctx, hs, ItemsOf(items[0].branches[i]), claims[i])
  }

  predicate NamesSecret(ctx: Context, hs: set<u32>, e: Expr, name: Name, policyRef: Digest) {
    && e.Secret? && e.authHandle.Handle? && e.authHandle.handle in hs
    && NameOf(ctx, e.authHandle.handle) == Ok(name) && e.copyRef == RefOption(policyRef)
  }

  lemma {:induction false} KeptSpeaks(
      h: Hash, ctx: Context, hs: set<u32>, e: Expr, before: seq<Expr>, c: Claims)
    requires Compilable(h, ctx, e) && UsesOnly(e, hs) && Speaks(ctx, hs, before, c)
    ensures Speaks(ctx, hs, Kept(h, ctx, e, before), ClaimsAfter(h, ctx, e, c))
    decreases e
  {
    match e
    case And(terms) => KeptAllSpeaks(h, ctx, hs, terms, before, c);
    case Or(branches) => KeptBranchesSpeak(h, ctx, hs, branches);
    case Pcr(sels, digest) => LeafSpeaks(h, ctx, hs, e, before, c);
    case Secret(auth, copyRef) => LeafSpeaks(h, ctx, hs, e, before, c);
  }

  lemma LeafSpeaks(h: Hash, ctx: Context, hs: set<u32>, e: Expr, before: seq<Expr>, c: Claims)
    requires (e.Pcr? || e.Secret?) && Compilable(h, ctx, e) && UsesOnly(e, hs) && Speaks(ctx, hs, before, c)
    ensures Speaks(ctx, hs, Kept(h, ctx, e, before), ClaimsAfter(h, ctx, e, c))
  {
    EmitOk(h, ctx, e);
    var item := NormItems(h, ctx, e)[0];
    assert Kept(h, ctx, e, before) == before + [item];
    assert (before + [item])[..|before|] == before;
  }

  lemma {:induction false} KeptAllSpeaks(
      h: Hash, ctx: Context, hs: set<u32>, terms: seq<Expr>, before: seq<Expr>, c: Claims)
    requires (forall t <- terms :: Compilable(h, ctx, t) && UsesOnly(t, hs)) && Speaks(ctx, hs, before, c)
    ensures Speaks(ctx, hs, KeptAll(h, ctx, terms, before), ClaimsAfterAll(h, ctx, terms, c))
    decreases terms
  {
    if terms != [] {
      KeptSpeaks(h, ctx, hs, terms[0], before, c);
      KeptAllSpeaks(h, ctx, hs, terms[1..], Kept(h, ctx, terms[0], before), ClaimsAfter(h, ctx, terms[0], c));
    }
  }

  lemma {:induction false} KeptBranchesSpeak(h: Hash, ctx: Context, hs: set<u32>, branches: seq<Expr>)
    requires forall b <- branches :: Compilable(h, ctx, b) && UsesOnly(b, hs)
    ensures Speaks(ctx, hs, [Or(KeptBranches(h, ctx, branches))], AnyOf(BranchClaims(h, ctx, branches)))
    decreases branches
  {
    if branches != [] {
      var first, rest := BuildAndBranch(Kept(h, ctx, branches[0], [])), KeptBranches(h, ctx, branches[1..]);
      var claim, claims := ClaimsAfter(h, ctx, branches[0], Nothing), BranchClaims(h, ctx, branches[1..]);
      KeptSpeaks(h, ctx, hs, branches[0], [], Nothing);
      BuiltItems(ctx, hs, Kept(h, ctx, branches[0], []), claim);
      KeptBranchesSpeak(h, ctx, hs, branches[1..]);
      assert forall i | 0 < i <= |rest| :: ([first] + rest)[i] == rest[i - 1] && ([claim] + claims)[i] == claims[i - 1];
    }
  }

  /** Items that make claims are no Ands, so that a branch built of them shows them. */
  lemma BuiltItems(ctx: Context, hs: set<u32>, items: seq<Expr>, c: Claims)
    requires Speaks(ctx, hs, items, c)
    ensures ItemsOf(BuildAndBranch(items)) == items
  {
    if |items| == 1 {
      assert !items[0].And?;
      assert items == [items[0]];
    }
  }

  /** Through handles that have different names, at most one list of items makes given claims. */
  lemma {:induction false} SameItems(ctx: Context, hs: set<u32>, x: seq<Expr>, y: seq<Expr>, c: Claims)
    requires NamesDiffer(ctx, hs) && Speaks(ctx, hs, x, c) && Speaks(ctx, hs, y, c)
    ensures x == y
    decreases c, 0
  {
    match c
    case Nothing =>
    case PcrIs(before, _, _) => SameFront(ctx, hs, x, y, before);
    case SecretOf(before, name, policyRef) =>
      SameFront(ctx, hs, x, y, before);
      assert x[|x| - 1].authHandle == y[|y| - 1].authHandle;
    case AnyOf(claims) =>
      forall i | 0 <= i < |claims|
        ensures x[0].branches[i] == y[0].branches[i]
      {
        SameItems(ctx, hs, ItemsOf(x[0].branches[i]), ItemsOf(y[0].branches[i]), claims[i]);
      }
      assert x[0].branches == y[0].branches;
  }

  lemma {:induction false} SameFront(ctx: Context, hs: set<u32>, x: seq<Expr>, y: seq<Expr>, before: Claims)
    requires x != [] && y != [] && NamesDiffer(ctx, hs)
    requires Speaks(ctx, hs, x[..|x| - 1], before) && Speaks(ctx, hs, y[..|y| - 1], before)
    ensures |x| == |y| && x[..|x| - 1] == y[..|y| - 1]
    decreases before, 1
  {
    SameItems(ctx, hs, x[..|x| - 1], y[..|y| - 1], before);
  }

  /** Items make one list of claims. */
  lemma {:induction false} SameClaims(ctx: Context, hs: set<u32>, x: seq<Expr>, c: Claims, d: Claims)
    requires Speaks(ctx, hs, x, c) && Speaks(ctx, hs, x, d)
    ensures c == d
    decreases c
  {
    match c
    case Nothing =>
    case PcrIs(before, _, _) => SameClaims(ctx, hs, x[..|x| - 1], before, d.before);
    case SecretOf(before, _, _) => SameClaims(ctx, hs, x[..|x| - 1], before, d.before);
    case AnyOf(claims) =>
      forall i | 0 <= i < |claims|
        ensures claims[i] == d.branches[i]
      {
        SameClaims(ctx, hs, ItemsOf(x[0].branches[i]), claims[i], d.branches[i]);
      }
      assert claims == d.branches;
  }

  /**
    Two policies compiled in one context have one digest exactly when their normal forms
    agree in what is bound, wherever the hash tells apart what computing the digests
    hashes and no two handles of the policies have one name.
   */
  lemma DigestBindsForm(h: Hash, ctx: Context, hs: set<u32>, e: Expr, f: Expr)
    requires Emit(h, ctx, e).Ok? && Emit(h, ctx, f).Ok?
    requires UsesOnly(e, hs) && UsesOnly(f, hs) && NamesDiffer(ctx, hs)
    requires TellsApart(h, Inputs(h, ClaimsOf(h, ctx, e)) + Inputs(h, ClaimsOf(h, ctx, f)))
    ensures DigestOf(h, ctx, e, ZeroDigest(h)) == DigestOf(h, ctx, f, ZeroDigest(h))
            <==> BoundForm(h, ctx, e) == BoundForm(h, ctx, f)
  {
    var x, y, c, d := Kept(h, ctx, e, []), Kept(h, ctx, f, []), ClaimsOf(h, ctx, e), ClaimsOf(h, ctx, f);
    EmitOk(h, ctx, e);
    EmitOk(h, ctx, f);
    KeptSpeaks(h, ctx, hs, e, [], Nothing);
    KeptSpeaks(h, ctx, hs, f, [], Nothing);
    DigestBinds(h, ctx, e, ctx, f);
    BuiltItems(ctx, hs, x, c);
    BuiltItems(ctx, hs, y, d);
    if c == d {
      SameItems(ctx, hs, x, y, c);
    }
    if x == y {
      SameClaims(ctx, hs, x, c, d);
    }
  }

  // ----- an instance -----

  /** A hash of one byte, the length of its input. */
  const LENGTH_HASH: Hash := HashFunction(1, x => [|x| % 256])

  /** What a secret of the owner hashes first. */
  const NAME_INPUT: seq<byte> := [0] + BigEndian(4, CC_POLICY_SECRET) + BigEndian(4, RH_OWNER)

  function OwnerSecret(policyRef: Digest): Expr {
    Secret(Handle(RH_OWNER), RefOption(policyRef))
  }

  /** Such a hash tells apart inputs of different lengths. */
  lemma LengthsApart(inputs: set<seq<byte>>)
    requires forall x <- inputs :: 0 < |x| < 256
    requires forall x <- inputs, y <- inputs :: |x| == |y| ==> x == y
    ensures TellsApart(LENGTH_HASH, inputs)
  {
    forall x <- inputs, y <- inputs | LENGTH_HASH.digest(x) == LENGTH_HASH.digest(y)
      ensures x == y
    {
      assert [|x| % 256][0] == [|y| % 256][0];
    }
    forall x <- inputs
      ensures LENGTH_HASH.digest(x) != ZeroDigest(LENGTH_HASH)
    {
      assert LENGTH_HASH.digest(x)[0] == |x| && ZeroDigest(LENGTH_HASH)[0] == 0;
    }
  }

  /** So it meets what is asked of it for two secrets whose policy references have different lengths. */
  lemma LengthHashTellsApart(ctx: Context, a: Digest, b: Digest)
    requires |a| < |b| < 8
    ensures Emit(LENGTH_HASH, ctx, OwnerSecret(a)).Ok? && Emit(LENGTH_HASH, ctx, OwnerSecret(b)).Ok?
    ensures TellsApart(LENGTH_HASH, Inputs(LENGTH_HASH, ClaimsOf(LENGTH_HASH, ctx, OwnerSecret(a)))
                                    + Inputs(LENGTH_HASH, ClaimsOf(LENGTH_HASH, ctx, OwnerSecret(b))))
  {
    OwnerInputs(ctx, a);
    OwnerInputs(ctx, b);
    var x, y := [9] + a, [9] + b;
    LengthsApart({NAME_INPUT, x} + {NAME_INPUT, y});
  }

  lemma OwnerInputs(ctx: Context, policyRef: Digest)
    requires |policyRef| < 8
    ensures Emit(LENGTH_HASH, ctx, OwnerSecret(policyRef)).Ok?
    ensures Inputs(LENGTH_HASH, ClaimsOf(LENGTH_HASH, ctx, OwnerSecret(policyRef)))
            == {NAME_INPUT, [9] + policyRef}
  {
    assert HandleType(RH_OWNER) == HT_PERMANENT;
    var h, input := LENGTH_HASH, NAME_INPUT;
    var c := ClaimsOf(h, ctx, OwnerSecret(policyRef));
    assert c == SecretOf(Nothing, BigEndian(4, RH_OWNER), policyRef);
    assert ZeroDigest(h) == [0] && NameInput(DigestFrom(h, Nothing), BigEndian(4, RH_OWNER)) == input;
    assert h.digest(input) == [9] && LastInput(h, c) == [9] + policyRef;
  }
}
