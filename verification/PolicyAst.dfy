/** Policy expressions, the context they are read in, and the commands they compile to. */
module PolicyAst {
  import opened Wrappers
  import opened Bytes
  import opened Bits
  import opened WireSchema
  import opened WireTypes

  const PCR_SELECT_MAX: nat := 4
  const SELECTIONS_MAX: nat := 8
  const BRANCHES_MAX: nat := 8

  type PcrSelect = bs: seq<byte> | |bs| <= PCR_SELECT_MAX

  /** The registers chosen from one bank: register k is bit k % 8 of byte k / 8. */
  datatype Selection = Selection(hash: AlgId, select: PcrSelect)

  type Selections = s: seq<Selection> | |s| <= SELECTIONS_MAX

  datatype Expr =
    | Pcr(selections: Selections, digest: Option<Digest>)
    | Secret(authHandle: Expr, copyRef: Option<Digest>)
    | And(terms: seq<Expr>)
    | Or(branches: seq<Expr>)
    | Handle(handle: u32)

  datatype Command =
    | PolicyPcr(session: u32, digest: Digest, pcrs: Selections)
    | PolicySecret(auth: u32, session: u32, nonce: Digest, cpHash: Digest, policyRef: Digest, expiration: int)
    | PolicyRestart(session: u32)
    | PolicyOr(session: u32, hashes: DigestList)
    | Other(cc: nat)

  type DigestList = ds: seq<Digest> | |ds| <= BRANCHES_MAX

  datatype PolicyError =
    | Crypto
    | InvalidCc(cc: nat)
    | InvalidExpression
    | InvalidHandleType(handleType: nat)
    | InvalidToken
    | InvalidPcrDigest
    | InvalidPcrDigestAlgorithm
    | InvalidPcrSelection
    | CommandStreamBranchUnderflow
    | CommandStreamUnbalancedBranches
    | ParenthesisMismatch
    | PcrBankNotAvailable(alg: nat)
    | PcrDigestMissing
    | PcrIndexTooLarge
    | PcrSelectionTooLarge
    | TooManyBranches
    | TrailingData
    | UnexpectedEnd

  /** Names of objects, PCR values by bank and index, and the size every bank has. */
  datatype Context = Context(names: map<u32, Name>, pcrs: map<AlgId, map<u32, Digest>>, pcrCount: nat)

  // ----- handles -----

  const RH_OWNER: nat := 0x4000_0001
  const RH_LOCKOUT: nat := 0x4000_000A
  const RH_ENDORSEMENT: nat := 0x4000_000B
  const RH_PLATFORM: nat := 0x4000_000C

  // ----- PCR bitmaps -----

  /** The bitmap selects register `k`. */
  predicate Selected(select: seq<byte>, k: nat) {
    k / 8 < |select| && Bit(select[k / 8], k % 8)
  }

  /** The registers from `k` on that the bitmap selects, in increasing order. */
  function SelectedFrom(select: seq<byte>, k: nat): seq<nat>
    decreases 8 * |select| - k
  {
    if k >= 8 * |select| then []
    else (if Selected(select, k) then [k] else []) + SelectedFrom(select, k + 1)
  }

  lemma {:induction false} SelectedFromMembers(select: seq<byte>, from: nat, k: nat)
    ensures k in SelectedFrom(select, from) <==> from <= k && Selected(select, k)
    decreases 8 * |select| - from
  {
    if from < 8 * |select| {
      SelectedFromMembers(select, from + 1, k);
    }
  }

  lemma SameSelection(a: seq<byte>, b: seq<byte>)
    requires |a| == |b| && forall k: nat :: Selected(a, k) <==> Selected(b, k)
    ensures a == b
  {
    forall i | 0 <= i < |a|
      ensures a[i] == b[i]
    {
      forall j: nat
        ensures Bit(a[i], j) == Bit(b[i], j)
      {
        if j < 8 {
          var k := 8 * i + j;
          assert k / 8 == i && k % 8 == j;
          assert Selected(a, k) <==> Selected(b, k);
        } else {
          OctetHighBits(a[i], j);
          OctetHighBits(b[i], j);
        }
      }
      SameBits(a[i], b[i]);
    }
  }

  lemma OctetHighBits(b: byte, j: nat)
    requires j >= 8
    ensures !Bit(b, j)
  {
    assert Pow2(8) == 256 by {
      assert Pow2(2) == 4 && Pow2(4) == 16 && Pow2(6) == 64;
    }
    HighBitsClear(b, 8, j);
  }

  /** A selection list as the value its wire type carries. */
  function SelectionsValue(sels: Selections): (v: Value)
    ensures Typed(PCR_SELECTIONS, v)
  {
    SelectionItemsTyped(sels);
    Items(SelectionItems(sels))
  }

  function SelectionItems(sels: seq<Selection>): (vs: seq<Value>)
    ensures |vs| == |sels|
  {
    seq(|sels|, i requires 0 <= i < |sels| => Both(Num(sels[i].hash), Octets(sels[i].select)))
  }

  lemma SelectionItemsTyped(sels: seq<Selection>)
    ensures forall x <- SelectionItems(sels) :: Typed(PCR_SELECTION, x)
  {
    forall x <- SelectionItems(sels)
      ensures Typed(PCR_SELECTION, x)
    {
      assert Typed(ALG, x.first) && Typed(Buffer(1, 4), x.second);
    }
  }
}
