/** Rebuilding an expression from a command stream with a stack of open branches. */
module PolicyDecompiler {
  import opened Wrappers
  import opened Sequences
  import opened WireTypes
  import opened PolicyAst

  /** A branch of one item is that item. */
  function BuildAndBranch(items: seq<Expr>): Expr {
    if |items| == 1 then items[0] else And(items)
  }

  /** The open branches, innermost last. */
  type Stack = seq<seq<Expr>>

  /** Adds an item to the innermost branch. */
  function Push(stack: Stack, e: Expr): (r: Stack)
    requires stack != []
    ensures |r| == |stack|
  {
    stack[..|stack| - 1] + [stack[|stack| - 1] + [e]]
  }

  function Closed(branches: Stack): seq<Expr> {
    seq(|branches|, i requires 0 <= i < |branches| => BuildAndBranch(branches[i]))
  }

  function RefOption(policyRef: Digest): Option<Digest> {
    if policyRef == [] then None else Some(policyRef)
  }

  /** What one command does to the stack. */
  function StackAfter(stack: Stack, c: Command): (r: Result<Stack, PolicyError>)
    requires stack != []
    ensures r.Ok? ==> r.value != []
  {
    match c
    case PolicyRestart(_) => Ok(stack + [[]])
    case PolicyPcr(_, digest, pcrs) => Ok(Push(stack, Pcr(pcrs, Some(digest))))
    case PolicySecret(auth, _, _, _, policyRef, _) => Ok(Push(stack, Secret(Handle(auth), RefOption(policyRef))))
    case PolicyOr(_, hashes) =>
      var n := |hashes|;
      if |stack| <= n then Err(CommandStreamBranchUnderflow)
      else Ok(Push(stack[..|stack| - n], Or(Closed(stack[|stack| - n..]))))
    case Other(cc) => Err(InvalidCc(cc))
  }

  /** What the rest of a stream makes of a stack. */
  function Rebuild(cs: seq<Command>, stack: Stack): Result<Expr, PolicyError>
    requires stack != []
    decreases cs
  {
    if cs == [] then
      if |stack| != 1 then Err(CommandStreamUnbalancedBranches) else Ok(BuildAndBranch(stack[0]))
    else
      match StackAfter(stack, cs[0])
      case Err(e) => Err(e)
      case Ok(next) => Rebuild(cs[1..], next)
  }

  /** Closes the `n` innermost branches; they are popped last to first and then reversed. */
  method PopBranches(stack: Stack, n: nat) returns (below: Stack, branches: seq<Expr>)
    requires n <= |stack|
    ensures below == stack[..|stack| - n] && branches == Closed(stack[|stack| - n..])
  {
    var popped := [];
    below := stack;
    while |popped| < n
      invariant |popped| <= n && below == stack[..|stack| - |popped|]
      invariant forall k :: 0 <= k < |popped| ==> popped[k] == BuildAndBranch(stack[|stack| - 1 - k])
    {
      popped := popped + [BuildAndBranch(below[|below| - 1])];
      below := below[..|below| - 1];
    }
    branches := seq(n, k requires 0 <= k < n => popped[n - 1 - k]);
  }

  method Apply(stack: Stack, c: Command) returns (r: Result<Stack, PolicyError>)
    requires stack != []
    ensures r == StackAfter(stack, c)
  {
    match c
    case PolicyRestart(_) => return Ok(stack + [[]]);
    case PolicyPcr(_, digest, pcrs) => return Ok(Push(stack, Pcr(pcrs, Some(digest))));
    case PolicySecret(auth, _, _, _, policyRef, _) =>
      var copyRef := if policyRef == [] then None else Some(policyRef);
      return Ok(Push(stack, Secret(Handle(auth), copyRef)));
    case PolicyOr(_, hashes) =>
      if |stack| < |hashes| {
        return Err(CommandStreamBranchUnderflow);
      }
      var below, branches := PopBranches(stack, |hashes|);
      if below == [] {
        return Err(CommandStreamBranchUnderflow);
      }
      return Ok(Push(below, Or(branches)));
    case Other(cc) => return Err(InvalidCc(cc));
  }

  method FromCommands(cs: seq<Command>) returns (r: Result<Expr, PolicyError>)
    ensures r == Rebuild(cs, [[]])
  {
    var stack: Stack, i := [[]], 0;
    assert cs[0..] == cs;
    while i < |cs|
      invariant i <= |cs| && stack != []
      invariant Rebuild(cs, [[]]) == Rebuild(cs[i..], stack)
    {
      assert cs[i..][0] == cs[i] && cs[i..][1..] == cs[i + 1..];
      var next := Apply(stack, cs[i]);
      if next.Err? {
        return Err(next.error);
      }
      stack := next.value;
      i := i + 1;
    }
    if |stack| != 1 {
      return Err(CommandStreamUnbalancedBranches);
    }
    return Ok(BuildAndBranch(stack[0]));
  }

  // ----- which streams are accepted -----

  /**
    Why a stream is rejected with `depth` branches open, or None: an unsupported
    command, an Or that would leave no open branch, or branches left over.
   */
  function Fault(cs: seq<Command>, depth: nat): Option<PolicyError> {
    if cs == [] then if depth == 1 then None else Some(CommandStreamUnbalancedBranches)
    else
      match cs[0]
      case Other(cc) => Some(InvalidCc(cc))
      case PolicyRestart(_) => Fault(cs[1..], depth + 1)
      case PolicyOr(_, hashes) =>
        if depth <= |hashes| then Some(CommandStreamBranchUnderflow) else Fault(cs[1..], depth - |hashes|)
      case _ => Fault(cs[1..], depth)
  }

  /** The decompiler accepts exactly the balanced streams, and names the first fault of the others. */
  lemma {:induction false} AcceptsBalanced(cs: seq<Command>, stack: Stack)
    requires stack != []
    ensures match Fault(cs, |stack|)
            case None => Rebuild(cs, stack).Ok?
            case Some(e) => Rebuild(cs, stack) == Err(e)
    decreases cs
  {
    if cs != [] {
      var next := StackAfter(stack, cs[0]);
      if next.Ok? {
        AcceptsBalanced(cs[1..], next.value);
      }
    }
  }

  // ----- skeletons -----

  /** What a command contributes apart from Or digests and session handles. */
  datatype SkeletonStep =
    | PcrStep(pcrs: Selections, digest: Option<Digest>)
    | SecretStep(auth: Expr, policyRef: Option<Digest>)
    | RestartStep
    | OrStep(branches: nat)
    | OtherStep(cc: nat)

  function StepOf(c: Command): SkeletonStep {
    match c
    case PolicyPcr(_, digest, pcrs) => PcrStep(pcrs, Some(digest))
    case PolicySecret(auth, _, _, _, policyRef, _) => SecretStep(Handle(auth), RefOption(policyRef))
    case PolicyRestart(_) => RestartStep
    case PolicyOr(_, hashes) => OrStep(|hashes|)
    case Other(cc) => OtherStep(cc)
  }

  function Steps(cs: seq<Command>): seq<SkeletonStep> {
    if cs == [] then [] else [StepOf(cs[0])] + Steps(cs[1..])
  }

  /** The steps that compiling an expression takes. */
  function Skeleton(e: Expr): seq<SkeletonStep> {
    match e
    case And(terms) => SkeletonAll(terms)
    case Or(branches) => SkeletonBranches(branches) + [OrStep(|branches|)]
    case Pcr(pcrs, digest) => [PcrStep(pcrs, digest)]
    case Secret(auth, copyRef) => [SecretStep(auth, copyRef)]
    case Handle(_) => []
  }

  function SkeletonAll(terms: seq<Expr>): seq<SkeletonStep> {
    if terms == [] then [] else Skeleton(terms[0]) + SkeletonAll(terms[1..])
  }

  function SkeletonBranches(branches: seq<Expr>): seq<SkeletonStep> {
    if branches == [] then [] else [RestartStep] + Skeleton(branches[0]) + SkeletonBranches(branches[1..])
  }

  /** The steps taken to reach a stack: every branch but the first was opened by a restart. */
  function StackSkeleton(stack: Stack): seq<SkeletonStep> {
    if stack == [] then []
    else if |stack| == 1 then SkeletonAll(stack[0])
    else StackSkeleton(stack[..|stack| - 1]) + [RestartStep] + SkeletonAll(stack[|stack| - 1])
  }

  lemma {:induction false} SkeletonAllAppend(a: seq<Expr>, b: seq<Expr>)
    ensures SkeletonAll(a + b) == SkeletonAll(a) + SkeletonAll(b)
  {
    if a == [] {
      assert a + b == b;
    } else {
      assert (a + b)[0] == a[0] && (a + b)[1..] == a[1..] + b;
      SkeletonAllAppend(a[1..], b);
    }
  }

  lemma SkeletonOne(e: Expr)
    ensures SkeletonAll([e]) == Skeleton(e)
  {
    assert [e][1..] == [];
    assert Skeleton(e) + SkeletonAll([]) == Skeleton(e);
  }

  lemma SkeletonBuilt(items: seq<Expr>)
    ensures Skeleton(BuildAndBranch(items)) == SkeletonAll(items)
  {
    if |items| == 1 {
      SkeletonOne(items[0]);
      assert items == [items[0]];
    }
  }

  lemma PushSkeleton(stack: Stack, e: Expr)
    requires stack != []
    ensures StackSkeleton(Push(stack, e)) == StackSkeleton(stack) + Skeleton(e)
  {
    var last, pushed := stack[|stack| - 1], Push(stack, e);
    SkeletonAllAppend(last, [e]);
    SkeletonOne(e);
    assert pushed[..|pushed| - 1] == stack[..|stack| - 1];
  }

  lemma {:induction false} BranchesAppend(a: seq<Expr>, e: Expr)
    ensures SkeletonBranches(a + [e]) == SkeletonBranches(a) + [RestartStep] + Skeleton(e)
  {
    if a == [] {
      assert a + [e] == [e] && [e][1..] == [];
      assert SkeletonBranches([e]) == [RestartStep] + Skeleton(e) + SkeletonBranches([]);
    } else {
      assert (a + [e])[0] == a[0] && (a + [e])[1..] == a[1..] + [e];
      BranchesAppend(a[1..], e);
    }
  }

  lemma ClosedAppend(branches: Stack, top: seq<Expr>)
    ensures Closed(branches + [top]) == Closed(branches) + [BuildAndBranch(top)]
  {
  }

  /** Closing the top `n` branches takes no step: their steps are already there. */
  lemma {:induction false} ClosedSkeleton(stack: Stack, n: nat)
    requires n < |stack|
    ensures StackSkeleton(stack)
            == StackSkeleton(stack[..|stack| - n]) + SkeletonBranches(Closed(stack[|stack| - n..]))
    decreases n
  {
    if n == 0 {
      assert stack[..|stack|] == stack && Closed(stack[|stack|..]) == [];
    } else {
      var below, top := stack[..|stack| - 1], stack[|stack| - 1];
      var open := below[|below| - (n - 1)..];
      ClosedSkeleton(below, n - 1);
      TopBranches(stack, n);
      ClosedAppend(open, top);
      BranchesAppend(Closed(open), BuildAndBranch(top));
      SkeletonBuilt(top);
      Regroup(StackSkeleton(stack[..|stack| - n]), SkeletonBranches(Closed(open)), [RestartStep], SkeletonAll(top));
    }
  }

  lemma TopBranches(stack: Stack, n: nat)
    requires 0 < n < |stack|
    ensures var below := stack[..|stack| - 1];
            && below[..|below| - (n - 1)] == stack[..|stack| - n]
            && stack[|stack| - n..] == below[|below| - (n - 1)..] + [stack[|stack| - 1]]
  {
  }

  lemma StepSkeleton(stack: Stack, c: Command)
    requires stack != [] && StackAfter(stack, c).Ok?
    ensures StackSkeleton(StackAfter(stack, c).value) == StackSkeleton(stack) + [StepOf(c)]
  {
    match c
    case PolicyRestart(_) =>
      var next := stack + [[]];
      assert next[..|next| - 1] == stack;
      assert SkeletonAll([]) == [];
    case PolicyPcr(_, digest, pcrs) => PushSkeleton(stack, Pcr(pcrs, Some(digest)));
    case PolicySecret(auth, _, _, _, policyRef, _) => PushSkeleton(stack, Secret(Handle(auth), RefOption(policyRef)));
    case PolicyOr(_, hashes) =>
      var n := |hashes|;
      ClosedSkeleton(stack, n);
      PushSkeleton(stack[..|stack| - n], Or(Closed(stack[|stack| - n..])));
  }

  /** Emitting the steps of a rebuilt expression gives back the steps of the stream. */
  lemma {:induction false} SkeletonPreserved(cs: seq<Command>, stack: Stack)
    requires stack != [] && Rebuild(cs, stack).Ok?
    ensures Skeleton(Rebuild(cs, stack).value) == StackSkeleton(stack) + Steps(cs)
    decreases cs
  {
    if cs == [] {
      SkeletonBuilt(stack[0]);
    } else {
      var next, done, rest := StackAfter(stack, cs[0]).value, StackSkeleton(stack), Steps(cs[1..]);
      StepSkeleton(stack, cs[0]);
      SkeletonPreserved(cs[1..], next);
      Associate(done, [StepOf(cs[0])], rest);
    }
  }

  lemma DecompiledSkeleton(cs: seq<Command>)
    requires Rebuild(cs, [[]]).Ok?
    ensures Skeleton(Rebuild(cs, [[]]).value) == Steps(cs)
  {
    SkeletonPreserved(cs, [[]]);
    assert StackSkeleton([[]]) == [];
  }
}
