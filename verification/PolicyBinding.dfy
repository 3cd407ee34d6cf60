/**
  What a policy digest binds. Two policies have one digest exactly when they make the
  same claims, if the hash tells apart the finitely many inputs that computing the two
  digests hashes. What stands before an Or is no claim, and a secret claims the name
  of its object, not the handle.
 */
module PolicyBinding {
  import opened Bytes
  import opened WireSchema
  import opened WireTypes
  import opened WireTheorems
  import opened PolicyAst
  import opened PolicyDigest
  import PolicyCompiler

  /** What a session claims: one more thing than before, or, after an Or, nothing but the Or. */
  datatype Claims =
    | Nothing
    | PcrIs(before: Claims, selections: Selections, digest: Digest)
    | SecretOf(before: Claims, name: Name, policyRef: Digest)
    | AnyOf(branches: seq<Claims>)

  /** What a session that had claimed `before` has claimed after `e`. */
  function ClaimsAfter(h: Hash, ctx: Context, e: Expr, before: Claims): Claims {
    match e
    case And(terms) => ClaimsAfterAll(h, ctx, terms, before)
    case Or(branches) => AnyOf(BranchClaims(h, ctx, branches))
    case Pcr(sels, digest) =>
      (match ResolvedPcr(h, ctx, sels, digest)
       case Ok(p) => PcrIs(before, sels, p)
       case Err(_) => before)
    case Secret(auth, copyRef) =>
      (match SecretName(ctx, auth)
       case Ok(name) => SecretOf(before, name, RefOf(copyRef))
       case Err(_) => before)
    case Handle(_) => before
  }

  function ClaimsAfterAll(h: Hash, ctx: Context, terms: seq<Expr>, before: Claims): Claims {
    if terms == [] then before else ClaimsAfterAll(h, ctx, terms[1..], ClaimsAfter(h, ctx, terms[0], before))
  }

  function BranchClaims(h: Hash, ctx: Context, branches: seq<Expr>): (r: seq<Claims>)
    ensures |r| == |branches|
  {
    if branches == [] then []
    else [ClaimsAfter(h, ctx, branches[0], Nothing)] + BranchClaims(h, ctx, branches[1..])
  }

  // ----- the digest of claims -----

  function PcrInput(d: Digest, sels: Selections, p: Digest): seq<byte> {
    d + BigEndian(4, CC_POLICY_PCR) + PcrBytes(sels) + p
  }

  /** The first of the two inputs that a secret hashes. */
  function NameInput(d: Digest, name: Name): seq<byte> {
    d + BigEndian(4, CC_POLICY_SECRET) + name
  }

  function OrInput(h: Hash, ds: seq<Digest>): seq<byte> {
    ZeroDigest(h) + BigEndian(4, CC_POLICY_OR) + Flatten(ds)
  }

  function DigestFrom(h: Hash, c: Claims): (d: Digest)
    ensures |d| == h.size
    decreases c, 1
  {
    if c.Nothing? then ZeroDigest(h) else h.digest(LastInput(h, c))
  }

  /** What is hashed last. */
  function LastInput(h: Hash, c: Claims): seq<byte>
    requires !c.Nothing?
    decreases c, 0
  {
    match c
    case PcrIs(before, sels, p) => PcrInput(DigestFrom(h, before), sels, p)
    case SecretOf(before, name, policyRef) => h.digest(NameInput(DigestFrom(h, before), name)) + policyRef
    case AnyOf(branches) => OrInput(h, DigestsFrom(h, branches))
  }

  function DigestsFrom(h: Hash, branches: seq<Claims>): (ds: seq<Digest>)
    ensures |ds| == |branches|
    decreases branches
  {
    if branches == [] then [] else [DigestFrom(h, branches[0])] + DigestsFrom(h, branches[1..])
  }

  /** The session digest is the digest of what the session has claimed. */
  lemma {:induction false} DigestOfClaims(h: Hash, ctx: Context, e: Expr, before: Claims)
    ensures DigestOf(h, ctx, e, DigestFrom(h, before)) == DigestFrom(h, ClaimsAfter(h, ctx, e, before))
  {
    match e
    case And(terms) => DigestOfAllClaims(h, ctx, terms, before);
    case Or(branches) => BranchDigestsClaims(h, ctx, branches);
    case Pcr(_, _) =>
    case Secret(_, _) =>
    case Handle(_) =>
  }

  lemma {:induction false} DigestOfAllClaims(h: Hash, ctx: Context, terms: seq<Expr>, before: Claims)
    ensures DigestOfAll(h, ctx, terms, DigestFrom(h, before)) == DigestFrom(h, ClaimsAfterAll(h, ctx, terms, before))
  {
    if terms != [] {
      DigestOfClaims(h, ctx, terms[0], before);
      DigestOfAllClaims(h, ctx, terms[1..], ClaimsAfter(h, ctx, terms[0], before));
    }
  }

  lemma {:induction false} BranchDigestsClaims(h: Hash, ctx: Context, branches: seq<Expr>)
    ensures BranchDigests(h, ctx, branches) == DigestsFrom(h, BranchClaims(h, ctx, branches))
  {
    if branches != [] {
      DigestOfClaims(h, ctx, branches[0], Nothing);
      BranchDigestsClaims(h, ctx, branches[1..]);
      var first, rest := ClaimsAfter(h, ctx, branches[0], Nothing), BranchClaims(h, ctx, branches[1..]);
      assert ([first] + rest)[1..] == rest;
    }
  }

  // ----- the inputs hashed -----

  /** The inputs that computing the digest of the claims hashes. */
  function Inputs(h: Hash, c: Claims): set<seq<byte>>
    decreases c
  {
    match c
    case Nothing => {}
    case PcrIs(before, _, _) => Inputs(h, before) + {LastInput(h, c)}
    case SecretOf(before, name, _) =>
      Inputs(h, before) + {NameInput(DigestFrom(h, before), name), LastInput(h, c)}
    case AnyOf(branches) => BranchInputs(h, branches) + {LastInput(h, c)}
  }

  function BranchInputs(h: Hash, branches: seq<Claims>): set<seq<byte>>
    decreases branches
  {
    if branches == [] then {} else Inputs(h, branches[0]) + BranchInputs(h, branches[1..])
  }

  /** No two of the inputs have one digest, and none has the digest that a session starts with. */
  ghost predicate TellsApart(h: Hash, inputs: set<seq<byte>>) {
    && (forall x <- inputs, y <- inputs :: h.digest(x) == h.digest(y) ==> x == y)
    && forall x <- inputs :: h.digest(x) != ZeroDigest(h)
  }

  /** Each PCR digest has the size of the session's hash, as it has in a compiled policy. */
  predicate Sized(h: Hash, c: Claims) {
    match c
    case Nothing => true
    case PcrIs(before, _, p) => |p| == h.size && Sized(h, before)
    case SecretOf(before, _, _) => Sized(h, before)
    case AnyOf(branches) => forall b <- branches :: Sized(h, b)
  }

  lemma {:induction false} ClaimsSized(h: Hash, ctx: Context, e: Expr, before: Claims)
    requires Sized(h, before)
    ensures Sized(h, ClaimsAfter(h, ctx, e, before))
  {
    match e
    case And(terms) => AllClaimsSized(h, ctx, terms, before);
    case Or(branches) => BranchClaimsSized(h, ctx, branches);
    case Pcr(_, _) =>
    case Secret(_, _) =>
    case Handle(_) =>
  }

  lemma {:induction false} AllClaimsSized(h: Hash, ctx: Context, terms: seq<Expr>, before: Claims)
    requires Sized(h, before)
    ensures Sized(h, ClaimsAfterAll(h, ctx, terms, before))
  {
    if terms != [] {
      ClaimsSized(h, ctx, terms[0], before);
      AllClaimsSized(h, ctx, terms[1..], ClaimsAfter(h, ctx, terms[0], before));
    }
  }

  lemma {:induction false} BranchClaimsSized(h: Hash, ctx: Context, branches: seq<Expr>)
    ensures forall b <- BranchClaims(h, ctx, branches) :: Sized(h, b)
  {
    if branches != [] {
      ClaimsSized(h, ctx, branches[0], Nothing);
      BranchClaimsSized(h, ctx, branches[1..]);
    }
  }

  // ----- inputs cannot be taken for one another -----

  /** Inputs that start with a digest and a command code have both in common if they are equal. */
  lemma SameStart(d: seq<byte>, x: nat, a: seq<byte>, e: seq<byte>, y: nat, b: seq<byte>)
    requires |d| == |e| && x < U32_COUNT && y < U32_COUNT && d + BigEndian(4, x) + a == e + BigEndian(4, y) + b
    ensures d == e && x == y && a == b
  {
    var s, t, n := d + BigEndian(4, x) + a, e + BigEndian(4, y) + b, |d|;
    assert d == s[..n] == t[..n] == e;
    assert BigEndian(4, x) == s[n..n + 4] == t[n..n + 4] == BigEndian(4, y);
    assert a == s[n + 4..] == t[n + 4..] == b;
    Pow256Values();
    BigEndianRoundTrip(4, x);
    BigEndianRoundTrip(4, y);
  }

  lemma SameHead(d: seq<byte>, a: seq<byte>, e: seq<byte>, b: seq<byte>)
    requires |d| == |e| && d + a == e + b
    ensures d == e && a == b
  {
    assert d == (d + a)[..|d|] == (e + b)[..|d|] == e;
    assert a == (d + a)[|d|..] == (e + b)[|d|..] == b;
  }

  /** The command code, as an input that starts with a digest has it. */
  function CodeOf(c: Claims): nat
    requires c.PcrIs? || c.AnyOf?
  {
    if c.PcrIs? then CC_POLICY_PCR else CC_POLICY_OR
  }

  /** The digest and the rest around the command code. */
  lemma InputParts(h: Hash, c: Claims) returns (d: seq<byte>, rest: seq<byte>)
    requires c.PcrIs? || c.AnyOf?
    ensures |d| == h.size && LastInput(h, c) == d + BigEndian(4, CodeOf(c)) + rest
    ensures c.PcrIs? ==> d == DigestFrom(h, c.before) && rest == PcrBytes(c.selections) + c.digest
    ensures c.AnyOf? ==> d == ZeroDigest(h) && rest == Flatten(DigestsFrom(h, c.branches))
  {
    if c.PcrIs? {
      d, rest := DigestFrom(h, c.before), PcrBytes(c.selections) + c.digest;
    } else {
      d, rest := ZeroDigest(h), Flatten(DigestsFrom(h, c.branches));
    }
  }

  lemma CodesDiffer(h: Hash, a: Claims, d: Digest, name: Name)
    requires (a.PcrIs? || a.AnyOf?) && |d| == h.size
    ensures LastInput(h, a) != NameInput(d, name)
  {
    var e, rest := InputParts(h, a);
    if LastInput(h, a) == NameInput(d, name) {
      SameStart(e, CodeOf(a), rest, d, CC_POLICY_SECRET, name);
    }
  }

  /** The digest that a secret's second input starts with. */
  function NameDigest(h: Hash, before: Claims, name: Name): Digest {
    h.digest(NameInput(DigestFrom(h, before), name))
  }

  lemma SecretStarts(h: Hash, a: Claims, d: seq<byte>, code: seq<byte>, rest: seq<byte>)
    requires a.SecretOf? && |d| == h.size && LastInput(h, a) == d + code + rest
    ensures NameDigest(h, a.before, a.name) == d
  {
    assert d + code + rest == d + (code + rest);
    SameHead(NameDigest(h, a.before, a.name), a.policyRef, d, code + rest);
  }

  lemma FewerApart(h: Hash, inputs: set<seq<byte>>, fewer: set<seq<byte>>)
    requires TellsApart(h, inputs) && fewer <= inputs
    ensures TellsApart(h, fewer)
  {
  }

  /** The inputs that a digest and a secret's first hash take. */
  function NameInputs(h: Hash, a: Claims, b: Claims, name: Name): set<seq<byte>> {
    Inputs(h, a) + Inputs(h, b) + {NameInput(DigestFrom(h, b), name)}
  }

  /** No session digest is one that a secret's second input starts with. */
  lemma {:induction false} NoNameDigest(h: Hash, a: Claims, b: Claims, name: Name)
    requires TellsApart(h, NameInputs(h, a, b, name))
    ensures DigestFrom(h, a) != NameDigest(h, b, name)
    decreases Depth(a) + Depth(b)
  {
    var d, input := DigestFrom(h, b), NameInput(DigestFrom(h, b), name);
    assert input in NameInputs(h, a, b, name);
    if !a.Nothing? && DigestFrom(h, a) == NameDigest(h, b, name) {
      assert LastInput(h, a) in Inputs(h, a);
      assert LastInput(h, a) == input;
      if a.SecretOf? {
        SecretStarts(h, a, d, BigEndian(4, CC_POLICY_SECRET), name);
        FewerApart(h, NameInputs(h, a, b, name), NameInputs(h, b, a.before, a.name));
        NoNameDigest(h, b, a.before, a.name);
      } else {
        CodesDiffer(h, a, d, name);
      }
    }
  }

  function Depth(c: Claims): nat {
    match c
    case Nothing => 0
    case PcrIs(before, _, _) => 1 + Depth(before)
    case SecretOf(before, _, _) => 1 + Depth(before)
    case AnyOf(_) => 1
  }

  // ----- equal digests, equal claims -----

  /** No two selection lists marshal alike. */
  lemma PcrBytesInjective(a: Selections, b: Selections)
    requires PcrBytes(a) == PcrBytes(b)
    ensures a == b
  {
    PolicyCompiler.SelectionsEncode(a);
    PolicyCompiler.SelectionsEncode(b);
    PcrSelectionsWellFormed();
    EncodeInjective(PCR_SELECTIONS, 0, SelectionsValue(a), SelectionsValue(b));
    SelectionsCanon(a);
    SelectionsCanon(b);
    forall i | 0 <= i < |a|
      ensures a[i] == b[i]
    {
      assert SelectionItems(a)[i] == SelectionItems(b)[i];
    }
  }

  lemma SelectionsCanon(a: Selections)
    ensures Canon(PCR_SELECTIONS, SelectionsValue(a)) == SelectionsValue(a)
  {
    SelectionItemsTyped(a);
    forall x <- SelectionItems(a)
      ensures NoHiddenDetails(PCR_SELECTION, x)
    {
      assert PCR_SELECTION == Pair(ALG, Buffer(1, 4));
    }
    CanonFixed(PCR_SELECTIONS, SelectionsValue(a));
  }

  lemma SameTail(a: seq<byte>, p: seq<byte>, b: seq<byte>, q: seq<byte>)
    requires |p| == |q| && a + p == b + q
    ensures a == b && p == q
  {
    assert a == (a + p)[..|a|] == (b + q)[..|b|] == b;
    assert p == (a + p)[|a|..] == (b + q)[|b|..] == q;
  }

  lemma SamePcr(h: Hash, a: Claims, b: Claims)
    requires a.PcrIs? && b.PcrIs? && |a.digest| == |b.digest| && LastInput(h, a) == LastInput(h, b)
    ensures DigestFrom(h, a.before) == DigestFrom(h, b.before)
    ensures a.selections == b.selections && a.digest == b.digest
  {
    var d, x := InputParts(h, a);
    var e, y := InputParts(h, b);
    SameStart(d, CodeOf(a), x, e, CodeOf(b), y);
    SameTail(PcrBytes(a.selections), a.digest, PcrBytes(b.selections), b.digest);
    PcrBytesInjective(a.selections, b.selections);
  }

  lemma SameSecret(h: Hash, a: Claims, b: Claims)
    requires a.SecretOf? && b.SecretOf? && TellsApart(h, Inputs(h, a) + Inputs(h, b))
    requires LastInput(h, a) == LastInput(h, b)
    ensures DigestFrom(h, a.before) == DigestFrom(h, b.before) && a.name == b.name && a.policyRef == b.policyRef
  {
    SameHead(NameDigest(h, a.before, a.name), a.policyRef, NameDigest(h, b.before, b.name), b.policyRef);
    var x, y := NameInput(DigestFrom(h, a.before), a.name), NameInput(DigestFrom(h, b.before), b.name);
    assert x in Inputs(h, a) && y in Inputs(h, b) && h.digest(x) == h.digest(y);
    SameStart(DigestFrom(h, a.before), CC_POLICY_SECRET, a.name, DigestFrom(h, b.before), CC_POLICY_SECRET, b.name);
  }

  /** A secret's second input is no input of another kind. */
  lemma SecretApart(h: Hash, a: Claims, b: Claims)
    requires a.SecretOf? && (b.PcrIs? || b.AnyOf?) && TellsApart(h, Inputs(h, a) + Inputs(h, b))
    ensures LastInput(h, a) != LastInput(h, b)
  {
    if LastInput(h, a) == LastInput(h, b) {
      var d, rest := InputParts(h, b);
      SecretStarts(h, a, d, BigEndian(4, CodeOf(b)), rest);
      var input := NameInput(DigestFrom(h, a.before), a.name);
      assert input in Inputs(h, a) && h.digest(input) == d;
      if b.PcrIs? {
        FewerApart(h, Inputs(h, a) + Inputs(h, b), NameInputs(h, b.before, a.before, a.name));
        NoNameDigest(h, b.before, a.before, a.name);
      }
    }
  }

  lemma KindsApart(h: Hash, a: Claims, b: Claims)
    requires a.PcrIs? && b.AnyOf?
    ensures LastInput(h, a) != LastInput(h, b)
  {
    var d, x := InputParts(h, a);
    var e, y := InputParts(h, b);
    if LastInput(h, a) == LastInput(h, b) {
      SameStart(d, CodeOf(a), x, e, CodeOf(b), y);
    }
  }

  lemma LastInputs(h: Hash, a: Claims, b: Claims)
    requires TellsApart(h, Inputs(h, a) + Inputs(h, b)) && DigestFrom(h, a) == DigestFrom(h, b)
    ensures a.Nothing? <==> b.Nothing?
    ensures !a.Nothing? ==> LastInput(h, a) == LastInput(h, b) && h.size > 0
  {
    assert !a.Nothing? ==> LastInput(h, a) in Inputs(h, a);
    assert !b.Nothing? ==> LastInput(h, b) in Inputs(h, b);
  }

  /** Claims with one digest are the same claims, if the hash tells apart what they hash. */
  lemma {:induction false} Binds(h: Hash, a: Claims, b: Claims)
    requires Sized(h, a) && Sized(h, b) && TellsApart(h, Inputs(h, a) + Inputs(h, b))
    requires DigestFrom(h, a) == DigestFrom(h, b)
    ensures a == b
    decreases a
  {
    LastInputs(h, a, b);
    if a.PcrIs? && b.PcrIs? {
      SamePcr(h, a, b);
      FewerApart(h, Inputs(h, a) + Inputs(h, b), Inputs(h, a.before) + Inputs(h, b.before));
      Binds(h, a.before, b.before);
    } else if a.SecretOf? && b.SecretOf? {
      SameSecret(h, a, b);
      FewerApart(h, Inputs(h, a) + Inputs(h, b), Inputs(h, a.before) + Inputs(h, b.before));
      Binds(h, a.before, b.before);
    } else if a.AnyOf? && b.AnyOf? {
      FewerApart(h, Inputs(h, a) + Inputs(h, b), BranchInputs(h, a.branches) + BranchInputs(h, b.branches));
      SameHead(ZeroDigest(h) + BigEndian(4, CC_POLICY_OR), Flatten(DigestsFrom(h, a.branches)),
               ZeroDigest(h) + BigEndian(4, CC_POLICY_OR), Flatten(DigestsFrom(h, b.branches)));
      BindsAll(h, a.branches, b.branches);
    } else if a.SecretOf? {
      SecretApart(h, a, b);
    } else if b.SecretOf? {
      SecretApart(h, b, a);
    } else if a.PcrIs? {
      KindsApart(h, a, b);
    } else if b.PcrIs? {
      KindsApart(h, b, a);
    }
  }

  lemma {:induction false} BindsAll(h: Hash, a: seq<Claims>, b: seq<Claims>)
    requires h.size > 0 && (forall c <- a :: Sized(h, c)) && (forall c <- b :: Sized(h, c))
    requires TellsApart(h, BranchInputs(h, a) + BranchInputs(h, b))
    requires Flatten(DigestsFrom(h, a)) == Flatten(DigestsFrom(h, b))
    ensures a == b
    decreases a
  {
    if a != [] && b != [] {
      SameHead(DigestFrom(h, a[0]), Flatten(DigestsFrom(h, a[1..])), DigestFrom(h, b[0]),
               Flatten(DigestsFrom(h, b[1..])));
      var inputs := BranchInputs(h, a) + BranchInputs(h, b);
      FewerApart(h, inputs, Inputs(h, a[0]) + Inputs(h, b[0]));
      Binds(h, a[0], b[0]);
      FewerApart(h, inputs, BranchInputs(h, a[1..]) + BranchInputs(h, b[1..]));
      BindsAll(h, a[1..], b[1..]);
      assert a == [a[0]] + a[1..] && b == [b[0]] + b[1..];
    }
  }

  /** The claims of a whole policy. */
  function ClaimsOf(h: Hash, ctx: Context, e: Expr): Claims {
    ClaimsAfter(h, ctx, e, Nothing)
  }

  /**
    Two policies have one digest exactly when they make the same claims, wherever the
    hash tells apart what computing the two digests hashes.
   */
  lemma DigestBinds(h: Hash, c: Context, e: Expr, k: Context, f: Expr)
    requires TellsApart(h, Inputs(h, ClaimsOf(h, c, e)) + Inputs(h, ClaimsOf(h, k, f)))
    ensures DigestOf(h, c, e, ZeroDigest(h)) == DigestOf(h, k, f, ZeroDigest(h))
            <==> ClaimsOf(h, c, e) == ClaimsOf(h, k, f)
  {
    DigestOfClaims(h, c, e, Nothing);
    DigestOfClaims(h, k, f, Nothing);
    ClaimsSized(h, c, e, Nothing);
    ClaimsSized(h, k, f, Nothing);
    if DigestOf(h, c, e, ZeroDigest(h)) == DigestOf(h, k, f, ZeroDigest(h)) {
      Binds(h, ClaimsOf(h, c, e), ClaimsOf(h, k, f));
    }
  }
}
