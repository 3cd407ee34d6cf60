/**
  What the parser makes of text, told without the parser: the value of literals by the digit
  table, the binding of operators without parentheses, and the error of each malformed text.
 */
module PolicyGrammar {
  import opened Wrappers
  import opened Bytes
  import opened Sequences
  import opened Text
  import opened WireTypes
  import opened PolicyAst
  import opened PolicyPcrText
  import opened PolicyParser
  import opened PolicyText

  // ----- handles -----

  /** The number that hexadecimal digits are the digits of. */
  function HexValue(digits: seq<nat>): nat {
    if digits == [] then 0 else 16 * HexValue(digits[..|digits| - 1]) + digits[|digits| - 1]
  }

  /** The characters are the digits of the table that the numbers say. */
  ghost predicate Spells(s: string, digits: seq<nat>) {
    |s| == |digits| && forall i | 0 <= i < |s| :: IsHexDigit(s[i], digits[i])
  }

  lemma {:induction false} DigitsRead(s: string, digits: seq<nat>)
    requires Spells(s, digits)
    ensures ParseDigits(s, 16) == Some(HexValue(digits))
    ensures forall i | 0 <= i < |digits| :: digits[i] < 16
  {
    if s != [] {
      var n := |s| - 1;
      DigitsRead(s[..n], digits[..n]);
      DigitTable(s[n], digits[n]);
    }
  }

  lemma NextDigit(digits: seq<nat>, k: nat)
    requires k < |digits|
    ensures HexValue(digits[..k + 1]) == 16 * HexValue(digits[..k]) + digits[k]
  {
    assert digits[..k + 1][..k] == digits[..k];
  }

  lemma EightDigits(d: seq<nat>)
    requires |d| == 8 && forall i | 0 <= i < 8 :: d[i] < 16
    ensures HexValue(d) == 0x1000_0000 * d[0] + 0x100_0000 * d[1] + 0x10_0000 * d[2] + 0x1_0000 * d[3]
                           + 0x1000 * d[4] + 0x100 * d[5] + 0x10 * d[6] + d[7]
  {
    assert d[..0] == [] && d[..8] == d;
    NextDigit(d, 0);
    NextDigit(d, 1);
    NextDigit(d, 2);
    NextDigit(d, 3);
    NextDigit(d, 4);
    NextDigit(d, 5);
    NextDigit(d, 6);
    NextDigit(d, 7);
  }

  lemma HandleDigits(d: seq<nat>)
    requires |d| == 8 && forall i | 0 <= i < 8 :: d[i] < 16
    ensures HexValue(d) < U32_COUNT && HandleType(HexValue(d)) == 16 * d[0] + d[1]
  {
    EightDigits(d);
    TopByte(0x10_0000 * d[2] + 0x1_0000 * d[3] + 0x1000 * d[4] + 0x100 * d[5] + 0x10 * d[6] + d[7], 16 * d[0] + d[1]);
  }

  lemma TopByte(low: nat, high: nat)
    requires low < 0x100_0000 && high < 256
    ensures high * 0x100_0000 + low < U32_COUNT && HandleType(high * 0x100_0000 + low) == high
  {
  }

  /** Eight digits are a handle if the first two are a handle type; a plus sign stands for a first zero. */
  lemma LiteralValue(s: string, d: seq<nat>)
    requires |s| == |d| == 8 && if s[0] == '+' then d[0] == 0 && Spells(s[1..], d[1..]) else Spells(s, d)
    ensures HexValue(d) < U32_COUNT
    ensures ParseLiteral(s)
            == if 16 * d[0] + d[1] in {0x00, 0x01, 0x02, 0x03, 0x11, 0x12, 0x40, 0x80, 0x81, 0x90}
               then Ok(Handle(HexValue(d))) else Err(InvalidHandleType(16 * d[0] + d[1]))
  {
    SignedDigits(s, d);
    HandleDigits(d);
    LiteralHandle(s, HexValue(d));
  }

  lemma SignedDigits(s: string, d: seq<nat>)
    requires |s| == |d| == 8 && if s[0] == '+' then d[0] == 0 && Spells(s[1..], d[1..]) else Spells(s, d)
    ensures forall i | 0 <= i < 8 :: d[i] < 16
    ensures HexValue(d) < U32_COUNT ==> ParseUnsigned(s, 16, U32_COUNT) == Some(HexValue(d))
  {
    if s[0] == '+' {
      DigitsRead(s[1..], d[1..]);
      LeadingZero(d[1..]);
      assert d == [0] + d[1..];
    } else {
      DigitsRead(s, d);
    }
  }

  lemma LiteralHandle(s: string, h: u32)
    requires |s| == 8 && ParseUnsigned(s, 16, U32_COUNT) == Some(h)
    ensures ParseLiteral(s) == if HandleType(h) in {0x00, 0x01, 0x02, 0x03, 0x11, 0x12, 0x40, 0x80, 0x81, 0x90}
                               then Ok(Handle(h)) else Err(InvalidHandleType(HandleType(h)))
  {
  }

  lemma {:induction false} LeadingZero(d: seq<nat>)
    ensures HexValue([0] + d) == HexValue(d)
  {
    var n := |d| - 1;
    if d == [] {
      assert [0] + d == [0] && [0][..0] == [];
    } else {
      LeadingZero(d[..n]);
      assert ([0] + d)[..n + 1] == [0] + d[..n];
    }
  }

  /** A text of another length, or with a character that is no digit, is no handle. */
  lemma LiteralRefused(s: string, i: nat)
    requires |s| != 8 || (i < 8 && (forall n: nat :: !IsHexDigit(s[i], n)) && (i == 0 ==> s[0] != '+'))
    ensures ParseLiteral(s) == Err(InvalidToken)
  {
    if |s| == 8 && s[0] == '+' {
      NoDigit(s[1..], i - 1);
    } else if |s| == 8 {
      NoDigit(s, i);
    }
  }

  lemma {:induction false} NoDigit(s: string, i: nat)
    requires i < |s| && forall n: nat :: !IsHexDigit(s[i], n)
    ensures ParseDigits(s, 16) == None
    decreases |s|
  {
    if i < |s| - 1 {
      NoDigit(s[..|s| - 1], i);
    } else if DigitValue(s[i]).Some? {
      DigitTable(s[i], DigitValue(s[i]).value);
    }
  }

  lemma LiteralExample(s: string)
    requires s == "4000000B" || s == "4000000b"
    ensures ParseLiteral(s) == Ok(Handle(0x4000_000B))
  {
    LiteralValue(s, [4, 0, 0, 0, 0, 0, 0, 11]);
    EightDigits([4, 0, 0, 0, 0, 0, 0, 11]);
  }

  // ----- policy references -----

  /** `copy_ref:` and hexadecimal bytes, at most 64; no bytes are no reference. */
  lemma CopyRefArgument(key: string, hex: string)
    requires ':' !in key
    ensures ParseCopyRef(key) == Err(InvalidToken)
    ensures key != "copy_ref" || HexDecode(hex).None? || |HexDecode(hex).value| > 64 ==>
              ParseCopyRef(key + ":" + hex) == Err(InvalidToken)
    ensures key == "copy_ref" && HexDecode(hex).Some? && |HexDecode(hex).value| <= 64 ==>
              ParseCopyRef(key + ":" + hex)
              == Ok(if HexDecode(hex).value == [] then None else Some(HexDecode(hex).value))
  {
    assert key + ":" + hex == key + [':'] + hex;
    SplitOnceAt(key, hex, ':');
  }

  // ----- operators without parentheses -----

  /** Operands joined by an operator. */
  function Joined(operands: seq<seq<Token>>, op: Token): seq<Token>
    requires operands != []
  {
    operands[0] + More(operands[1..], op)
  }

  /** What a chain of conjuncts is read as. */
  function Conjunction(terms: seq<Expr>): Expr
    requires terms != []
  {
    if |terms| == 1 then terms[0] else And(terms)
  }

  /** The operands of one conjunction are read one by one as its terms. */
  ghost predicate ConjunctsRead(ctx: Context, operands: seq<seq<Token>>, terms: seq<Expr>) {
    && |operands| == |terms| >= 1
    && (|terms| > 1 ==> !terms[0].And?)
    && forall i | 0 <= i < |terms| :: Reads(ctx, operands[i], terms[i])
  }

  lemma ConjunctionReads(ctx: Context, operands: seq<seq<Token>>, terms: seq<Expr>, next: seq<Token>)
    requires ConjunctsRead(ctx, operands, terms) && (next == [] || next[0] != TAnd)
    ensures ParseAnd(ctx, Joined(operands, TAnd) + next) == Ok(Parsed(Conjunction(terms), next))
  {
    if |terms| == 1 {
      assert operands[1..] == [] && Joined(operands, TAnd) == operands[0];
      assert Reads(ctx, operands[0], terms[0]);
      AndOperand(ctx, operands[0], terms[0], next);
    } else {
      ConjunctsCollected(ctx, operands, terms, next, if next != [] && next[0] == TOr then RParen else TOr);
    }
  }

  lemma ConjunctsCollected(
      ctx: Context, operands: seq<seq<Token>>, terms: seq<Expr>, next: seq<Token>, avoid: Token)
    requires ConjunctsRead(ctx, operands, terms) && |terms| >= 2 && avoid != TAnd
    requires next == [] || (next[0] != TAnd && next[0] != avoid)
    ensures ParseAnd(ctx, Joined(operands, TAnd) + next) == Ok(Parsed(And(terms), next))
  {
    var f: OperandParser := ts => ParsePrimary(ctx, ts);
    ConjunctOperands(ctx, f, avoid, operands, terms);
    GroupChain(f, TAnd, avoid, operands, terms, next);
    var after := More(operands[1..], TAnd) + next;
    Associate(operands[0], More(operands[1..], TAnd), next);
    AndChain(ctx, f, operands[0] + after, Parsed(terms[0], after));
  }

  lemma AndChain(ctx: Context, f: OperandParser, ts: seq<Token>, first: Parsed)
    requires (forall x :: f(x) == ParsePrimary(ctx, x)) && f(ts) == Ok(first)
    ensures ParseAnd(ctx, ts) == Chain(f, TAnd, first.expr, first.rest)
  {
    AndTailChain(ctx, f, first.expr, first.rest);
    AndStart(ctx, ts, first);
  }

  lemma ConjunctOperands(
      ctx: Context, f: OperandParser, avoid: Token, operands: seq<seq<Token>>, terms: seq<Expr>)
    requires ConjunctsRead(ctx, operands, terms) && forall x :: f(x) == ParsePrimary(ctx, x)
    ensures forall i | 0 <= i < |terms| :: OperandReads(f, avoid, operands[i], terms[i])
  {
    forall i | 0 <= i < |terms|
      ensures OperandReads(f, avoid, operands[i], terms[i])
    {
      assert Reads(ctx, operands[i], terms[i]);
      PrimaryOperand(ctx, f, avoid, operands[i], terms[i]);
    }
  }

  /** The conjunctions of a disjunction, as tokens. */
  function Conjoined(groups: seq<seq<seq<Token>>>): (r: seq<seq<Token>>)
    requires forall i | 0 <= i < |groups| :: groups[i] != []
    ensures |r| == |groups|
  {
    seq(|groups|, i requires 0 <= i < |groups| => Joined(groups[i], TAnd))
  }

  function Conjunctions(terms: seq<seq<Expr>>): (r: seq<Expr>)
    requires forall i | 0 <= i < |terms| :: terms[i] != []
    ensures |r| == |terms|
  {
    seq(|terms|, i requires 0 <= i < |terms| => Conjunction(terms[i]))
  }

  /**
    Without parentheses, `and` binds tighter than `or`, and both collect their operands from the
    left in order: a disjunction of conjunctions is read as one Or of one And each.
   */
  lemma PrecedenceReads(ctx: Context, groups: seq<seq<seq<Token>>>, terms: seq<seq<Expr>>, rest: seq<Token>)
    requires |groups| == |terms| >= 2 && forall i | 0 <= i < |terms| :: ConjunctsRead(ctx, groups[i], terms[i])
    requires terms[0] != [] && !Conjunction(terms[0]).Or? && Ends(rest)
    ensures forall i | 0 <= i < |terms| :: groups[i] != [] && terms[i] != []
    ensures ParseOr(ctx, Joined(Conjoined(groups), TOr) + rest) == Ok(Parsed(Or(Conjunctions(terms)), rest))
  {
    var f: OperandParser := ts => ParseAnd(ctx, ts);
    assert forall i | 0 <= i < |terms| :: ConjunctsRead(ctx, groups[i], terms[i]);
    var operands, branches := Conjoined(groups), Conjunctions(terms);
    forall i | 0 <= i < |branches|
      ensures OperandReads(f, TAnd, operands[i], branches[i])
    {
      assert ConjunctsRead(ctx, groups[i], terms[i]);
      forall next | next == [] || next[0] != TAnd
        ensures f(operands[i] + next) == Ok(Parsed(branches[i], next))
      {
        ConjunctionReads(ctx, groups[i], terms[i], next);
      }
    }
    DisjunctionReads(ctx, f, operands, branches, rest);
  }

  lemma DisjunctionReads(
      ctx: Context, f: OperandParser, operands: seq<seq<Token>>, branches: seq<Expr>, rest: seq<Token>)
    requires |operands| == |branches| >= 2 && !branches[0].Or? && Ends(rest)
    requires forall x :: f(x) == ParseAnd(ctx, x)
    requires forall i | 0 <= i < |branches| :: OperandReads(f, TAnd, operands[i], branches[i])
    ensures ParseOr(ctx, Joined(operands, TOr) + rest) == Ok(Parsed(Or(branches), rest))
  {
    var after := More(operands[1..], TOr) + rest;
    GroupChain(f, TOr, TAnd, operands, branches, rest);
    Associate(operands[0], More(operands[1..], TOr), rest);
    OrChain(ctx, f, operands[0] + after, Parsed(branches[0], after));
  }

  lemma OrChain(ctx: Context, f: OperandParser, ts: seq<Token>, first: Parsed)
    requires (forall x :: f(x) == ParseAnd(ctx, x)) && f(ts) == Ok(first)
    ensures ParseOr(ctx, ts) == Chain(f, TOr, first.expr, first.rest)
  {
    OrTailChain(ctx, f, first.expr, first.rest);
    OrStart(ctx, ts, first);
  }

  /** `a and b or c`. */
  lemma AndBeforeOr(ctx: Context, x: seq<Token>, a: Expr, y: seq<Token>, b: Expr, z: seq<Token>, c: Expr)
    requires Reads(ctx, x, a) && Reads(ctx, y, b) && Reads(ctx, z, c) && !a.And?
    ensures ParseOr(ctx, x + [TAnd] + y + [TOr] + z) == Ok(Parsed(Or([And([a, b]), c]), []))
  {
    assert ConjunctsRead(ctx, [x, y], [a, b]) && ConjunctsRead(ctx, [z], [c]);
    PrecedenceReads(ctx, [[x, y], [z]], [[a, b], [c]], []);
    TwoGroups([x, y], [z], [a, b], [c]);
    JoinedTwo(x, y, TAnd);
    JoinedTwo(z, z, TAnd);
    var all := x + [TAnd] + y + [TOr] + z;
    assert all + [] == all;
  }

  /** `a or b and c`. */
  lemma OrBeforeAnd(ctx: Context, x: seq<Token>, a: Expr, y: seq<Token>, b: Expr, z: seq<Token>, c: Expr)
    requires Reads(ctx, x, a) && Reads(ctx, y, b) && Reads(ctx, z, c) && !a.Or? && !b.And?
    ensures ParseOr(ctx, x + [TOr] + y + [TAnd] + z) == Ok(Parsed(Or([a, And([b, c])]), []))
  {
    assert ConjunctsRead(ctx, [x], [a]) && ConjunctsRead(ctx, [y, z], [b, c]);
    PrecedenceReads(ctx, [[x], [y, z]], [[a], [b, c]], []);
    TwoGroups([x], [y, z], [a], [b, c]);
    JoinedTwo(x, x, TAnd);
    JoinedTwo(y, z, TAnd);
    var all := x + [TOr] + y + [TAnd] + z;
    assert x + [TOr] + (y + [TAnd] + z) + [] == all;
  }

  lemma TwoGroups(g: seq<seq<Token>>, h: seq<seq<Token>>, s: seq<Expr>, t: seq<Expr>)
    requires g != [] && h != [] && s != [] && t != []
    ensures Joined(Conjoined([g, h]), TOr) == Joined(g, TAnd) + [TOr] + Joined(h, TAnd)
    ensures Conjunctions([s, t]) == [Conjunction(s), Conjunction(t)]
  {
    assert Conjoined([g, h]) == [Joined(g, TAnd), Joined(h, TAnd)];
    JoinedTwo(Joined(g, TAnd), Joined(h, TAnd), TOr);
  }

  lemma JoinedTwo(x: seq<Token>, y: seq<Token>, op: Token)
    ensures Joined([x, y], op) == x + [op] + y && Joined([x], op) == x
  {
    assert [x, y][1..] == [y] && [y][1..] == [] && [x][1..] == [] && More([], op) == [];
    assert More([y], op) == [op] + y + [] == [op] + y;
    assert x + ([op] + y) == x + [op] + y;
  }

  // ----- malformed texts -----

  /** An operand is missing at the end of the text, or another token stands in its place. */
  lemma OperandExpected(ctx: Context, token: Token, rest: seq<Token>)
    requires token in {TAnd, TOr, RParen, Comma}
    ensures ParseOr(ctx, []) == Err(UnexpectedEnd)
    ensures ParseOr(ctx, [token] + rest) == Err(InvalidToken)
  {
    assert ParsePrimary(ctx, []) == Err(UnexpectedEnd);
    assert ParsePrimary(ctx, [token] + rest) == Err(InvalidToken);
  }

  /** The same after an operator, and after an opening parenthesis. */
  lemma OperandFault(ctx: Context, ts: seq<Token>, e: Expr, bad: seq<Token>, fault: PolicyError)
    requires Reads(ctx, ts, e) && ParsePrimary(ctx, bad) == Err(fault)
    ensures ParseAnd(ctx, ts + ([TAnd] + bad)) == ParseOr(ctx, ts + ([TAnd] + bad)) == Err(fault)
    ensures ParseOr(ctx, ts + ([TOr] + bad)) == Err(fault)
    ensures ParsePrimary(ctx, [LParen] + bad) == ParseOr(ctx, [LParen] + bad) == Err(fault)
  {
    PrimaryFault(ctx, bad, fault);
    assert ([LParen] + bad)[1..] == bad;
    PrimaryFault(ctx, [LParen] + bad, fault);
    AndStart(ctx, ts + ([TAnd] + bad), Parsed(e, [TAnd] + bad));
    AndFault(ctx, e, bad, fault);
    AndOperand(ctx, ts, e, [TOr] + bad);
    OrStart(ctx, ts + ([TOr] + bad), Parsed(e, [TOr] + bad));
    OrFault(ctx, e, bad, fault);
  }

  lemma PrimaryFault(ctx: Context, bad: seq<Token>, fault: PolicyError)
    requires ParsePrimary(ctx, bad) == Err(fault)
    ensures ParseAnd(ctx, bad) == ParseOr(ctx, bad) == Err(fault)
  {
  }

  lemma AndFault(ctx: Context, e: Expr, bad: seq<Token>, fault: PolicyError)
    requires ParsePrimary(ctx, bad) == Err(fault)
    ensures AndTail(ctx, e, [TAnd] + bad) == Err(fault)
  {
    assert ([TAnd] + bad)[1..] == bad;
  }

  lemma OrFault(ctx: Context, e: Expr, bad: seq<Token>, fault: PolicyError)
    requires ParseAnd(ctx, bad) == Err(fault)
    ensures OrTail(ctx, e, [TOr] + bad) == Err(fault)
  {
    assert ([TOr] + bad)[1..] == bad;
  }

  /** A parenthesis must close right after what it opened before. */
  lemma NotClosed(ctx: Context, ts: seq<Token>, e: Expr, rest: seq<Token>)
    requires Reads(ctx, ts, e) && Ends(rest) && (rest == [] || rest[0] != RParen)
    ensures ParseOr(ctx, [LParen] + (ts + rest)) == Err(ParenthesisMismatch)
  {
    WholeReads(ctx, ts, e, rest);
    assert ([LParen] + (ts + rest))[1..] == ts + rest;
    assert Closing(ParseOr(ctx, ts + rest)) == Err(ParenthesisMismatch);
    PrimaryFault(ctx, [LParen] + (ts + rest), ParenthesisMismatch);
  }

  /** Nothing may follow a policy. */
  lemma Trailing(ctx: Context, text: string, ts: seq<Token>, e: Expr, rest: seq<Token>)
    requires Reads(ctx, ts, e) && Ends(rest) && Tokenize(text) == ts + rest
    ensures Parse(ctx, text) == if rest == [] then Ok(e) else Err(TrailingData)
  {
    WholeReads(ctx, ts, e, rest);
  }

  /** Both calls want an opening parenthesis. */
  lemma CallNotOpened(ctx: Context, name: string, token: Token, rest: seq<Token>)
    requires name in {"pcr", "secret"} && token != LParen
    ensures ParsePrimary(ctx, [Ident(name)]) == Err(UnexpectedEnd)
    ensures ParsePrimary(ctx, [Ident(name), token] + rest) == Err(InvalidToken)
  {
    assert [Ident(name)][1..] == [];
    assert ([Ident(name), token] + rest)[1..] == [token] + rest;
  }

  /** The text of a PCR call holds no other parenthesis and no operator, and ends. */
  lemma PcrCallFaults(ctx: Context, body: string, token: Token, rest: seq<Token>)
    requires PcrChars(body) && token in {TAnd, TOr, LParen}
    ensures ParsePcrCall(ctx, [LParen] + Tokenize(body)) == Err(UnexpectedEnd)
    ensures ParsePcrCall(ctx, [LParen] + (Tokenize(body) + ([token] + rest))) == Err(InvalidToken)
  {
    var ts := [token] + rest;
    assert ([LParen] + Tokenize(body))[1..] == Tokenize(body) == Tokenize(body) + [];
    assert ([LParen] + (Tokenize(body) + ts))[1..] == Tokenize(body) + ts;
    PcrTextFault(body, [], UnexpectedEnd);
    PcrTextFault(body, ts, InvalidToken);
  }

  lemma {:induction false} PcrTextFault(body: string, after: seq<Token>, fault: PolicyError)
    requires PcrChars(body) && PcrText(after) == Err(fault)
    ensures PcrText(Tokenize(body) + after) == Err(fault)
    decreases |body|
  {
    if body == [] {
      assert Tokenize(body) + after == after;
    } else {
      var n := PcrHeadLen(body);
      PcrTextFault(body[n..], after, fault);
      PcrHead(body);
      PcrTextStep(PcrToken(body[..n]), body[..n], Tokenize(body[n..]), after);
    }
  }

  /** A secret's operand must parse; then comes the end of the call, or one argument and the end. */
  lemma SecretFaults(ctx: Context, ts: seq<Token>, auth: Expr, argument: string, token: Token, rest: seq<Token>)
    requires Reads(ctx, ts, auth)
    ensures ParseOr(ctx, rest).Err? ==> ParseSecretCall(ctx, [LParen] + rest) == Err(InvalidToken)
    ensures SecretEnd(auth, []) == SecretEnd(auth, [Comma]) == Err(UnexpectedEnd)
    ensures token != RParen && token != Comma ==> SecretEnd(auth, [token] + rest) == Err(InvalidToken)
    ensures !token.Ident? ==> SecretEnd(auth, [Comma, token] + rest) == Err(InvalidToken)
    ensures ParseCopyRef(argument).Ok? ==> SecretEnd(auth, [Comma, Ident(argument)]) == Err(UnexpectedEnd)
    ensures ParseCopyRef(argument).Ok? && token != RParen ==>
              SecretEnd(auth, [Comma, Ident(argument), token] + rest) == Err(InvalidToken)
    ensures Ends(rest) ==> ParseSecretCall(ctx, [LParen] + (ts + rest)) == SecretEnd(auth, rest)
  {
    assert ([LParen] + rest)[1..] == rest;
    if Ends(rest) {
      WholeReads(ctx, ts, auth, rest);
      SecretCallReads(ctx, ts + rest, auth, rest);
    }
  }

  // ----- PCR texts -----

  lemma HashNameTable()
    ensures HashNamed("sha1") == Some(0x0004) && HashNamed("sha256") == Some(0x000B)
    ensures HashNamed("sha384") == Some(0x000C) && HashNamed("sha512") == Some(0x000D)
    ensures HashNamed("sm3-256") == Some(0x0012)
    ensures HashNamed("sha3-256") == Some(0x0027) && HashNamed("sha3-384") == Some(0x0028)
    ensures HashNamed("sha3-512") == Some(0x0029)
    ensures HashNamed("shake128") == Some(0x002A) && HashNamed("shake256") == Some(0x002B)
  {
  }

  /** A part is a known name with a bank in the context, a colon, and register numbers of the bank. */
  lemma SelectionFaults(ctx: Context, name: string, numbers: string)
    requires BytesFor(ctx.pcrCount) <= PCR_SELECT_MAX && ':' !in name
    ensures ParseSelection(ctx, name) == Err(InvalidPcrSelection)
    ensures HashNamed(name).None? ==> ParseSelection(ctx, name + ":" + numbers) == Err(InvalidPcrDigestAlgorithm)
    ensures HashNamed(name).Some? && HashNamed(name).value !in ctx.pcrs ==>
              ParseSelection(ctx, name + ":" + numbers) == Err(PcrBankNotAvailable(HashNamed(name).value))
    ensures HashNamed(name).Some? && HashNamed(name).value in ctx.pcrs && ReadNumbers(Split(numbers, ',')).None? ==>
              ParseSelection(ctx, name + ":" + numbers) == Err(InvalidPcrSelection)
  {
    assert name + ":" + numbers == name + [':'] + numbers;
    SplitOnceAt(name, numbers, ':');
  }

  /** Numbers are read one by one, and one that does not read spoils the list. */
  lemma {:induction false} NumbersRead(pieces: seq<string>, i: nat)
    requires i < |pieces|
    ensures ReadNumbers(pieces).Some? ==>
              && |ReadNumbers(pieces).value| == |pieces|
              && ParseUnsigned(pieces[i], 10, 0x1_0000_0000) == Some(ReadNumbers(pieces).value[i])
    ensures ParseUnsigned(pieces[i], 10, 0x1_0000_0000).None? ==> ReadNumbers(pieces).None?
  {
    if i > 0 {
      NumbersRead(pieces[1..], i - 1);
    } else if |pieces| > 1 {
      NumbersRead(pieces[1..], 0);
    } else {
      assert pieces[1..] == [];
    }
  }

  /** A digest is read after the last colon if both parts read; else the whole text is a selection list. */
  lemma DigestAfterColon(ctx: Context, text: string, hex: string)
    requires ':' !in hex
    ensures var sels, bytes := ParseSelections(ctx, text), HexDecode(hex);
            var whole := ParseSelections(ctx, text + ":" + hex);
            PcrFromText(ctx, text + ":" + hex)
            == if sels.Ok? && bytes.Some? && |bytes.value| <= 64 then Ok(Pcr(sels.value, Some(bytes.value)))
               else if whole.Ok? then Ok(Pcr(whole.value, None)) else Err(whole.error)
    ensures PcrFromText(ctx, hex)
            == if ParseSelections(ctx, hex).Ok? then Ok(Pcr(ParseSelections(ctx, hex).value, None))
               else Err(ParseSelections(ctx, hex).error)
  {
    assert text + ":" + hex == text + [':'] + hex;
    RSplitOnceAt(text, hex, ':');
  }

  // ----- printing -----

  /** How each kind of expression is written. */
  lemma PrintedPair(e: Expr, f: Expr)
    ensures Print(And([e, f])) == "(" + Print(e) + " and " + Print(f) + ")"
    ensures Print(Or([e, f])) == "(" + Print(e) + " or " + Print(f) + ")"
  {
    TermsTwo(e, f, " and ");
    TermsTwo(e, f, " or ");
    Enclosed(Print(e), " and ", Print(f));
    Enclosed(Print(e), " or ", Print(f));
  }

  lemma TermsTwo(e: Expr, f: Expr, separator: string)
    ensures PrintTerms([e, f], separator) == Print(e) + separator + Print(f)
  {
    assert [e, f][1..] == [f];
    assert PrintTerms([f], separator) == Print(f);
  }

  lemma Enclosed(a: string, b: string, c: string)
    ensures "(" + (a + b + c) + ")" == "(" + a + b + c + ")"
  {
  }

  lemma PrintedSecret(e: Expr, ref: Digest)
    ensures Print(Secret(e, None)) == "secret(" + Print(e) + ")"
    ensures Print(Secret(e, Some(ref))) == "secret(" + Print(e) + ", copy_ref:" + HexEncode(ref) + ")"
  {
    var start, hex := "secret(" + Print(e), HexEncode(ref);
    assert start + "" + ")" == start + ")";
    assert start + (", copy_ref:" + hex) + ")" == start + ", copy_ref:" + hex + ")";
  }

  lemma PrintedPcr(sels: Selections, d: Digest)
    ensures Print(Pcr(sels, None)) == "pcr(" + PrintSelections(sels) + ")"
    ensures Print(Pcr(sels, Some(d))) == "pcr(" + PrintSelections(sels) + ":" + HexEncode(d) + ")"
  {
    var list, hex := PrintSelections(sels), HexEncode(d);
    assert list + "" == list;
    assert "pcr(" + (list + (":" + hex)) + ")" == "pcr(" + list + ":" + hex + ")";
  }

  /** A handle is its eight digits, in lower case. */
  lemma HandleText()
    ensures Print(Handle(0x4000_000B)) == "4000000b"
  {
    assert PrintPadded(0x40, 2) == "40" && PrintPadded(0x4000, 4) == "4000";
  }

  /** Banks are joined by plus signs; a bank is its name, a colon, and its registers between commas. */
  lemma SelectionText(s: Selection, t: Selection)
    ensures PrintSelections([s]) == PrintSelection(s)
    ensures PrintSelections([s, t]) == PrintSelection(s) + "+" + PrintSelection(t)
    ensures SelectedFrom(s.select, 0) == [] ==> PrintSelection(s) == AlgText(s.hash) + ":"
    ensures forall j: nat, k: nat | SelectedFrom(s.select, 0) == [j, k] ::
              PrintSelection(s) == AlgText(s.hash) + ":" + PrintDecimal(j) + "," + PrintDecimal(k)
  {
    assert SelectionTexts([s]) == [PrintSelection(s)];
    assert SelectionTexts([s, t]) == [PrintSelection(s), PrintSelection(t)];
    JoinTwo(PrintSelection(s), PrintSelection(t), '+');
    forall j: nat, k: nat | SelectedFrom(s.select, 0) == [j, k]
      ensures PrintSelection(s) == AlgText(s.hash) + ":" + PrintDecimal(j) + "," + PrintDecimal(k)
    {
      assert Numerals([j, k]) == [PrintDecimal(j), PrintDecimal(k)];
      JoinTwo(PrintDecimal(j), PrintDecimal(k), ',');
    }
  }

  lemma JoinTwo(a: string, b: string, c: char)
    ensures Join([], c) == [] && Join([a], c) == a && Join([a, b], c) == a + [c] + b
  {
    assert [a, b][1..] == [b];
  }
}
