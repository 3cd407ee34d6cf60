/** Printing a policy, and what printing and parsing promise each other. */
module PolicyText {
  import opened Wrappers
  import opened Bytes
  import opened Sequences
  import opened Text
  import opened WireTypes
  import opened PolicyAst
  import opened PolicyPcrText
  import opened PolicyParser
  import opened PolicyDigest
  import opened PolicyReplay

  function Print(e: Expr): string {
    match e
    case Pcr(sels, digest) => "pcr(" + PcrBody(sels, digest) + ")"
    case Secret(auth, copyRef) => "secret(" + Print(auth) + CopyRefText(copyRef) + ")"
    case And(terms) => "(" + PrintTerms(terms, " and ") + ")"
    case Or(branches) => "(" + PrintTerms(branches, " or ") + ")"
    case Handle(h) => PrintPadded(h, 8)
  }

  function PcrBody(sels: Selections, digest: Option<Digest>): string {
    PrintSelections(sels) + if digest.Some? then ":" + HexEncode(digest.value) else ""
  }

  function CopyRefText(copyRef: Option<Digest>): string {
    if copyRef.Some? then ", copy_ref:" + HexEncode(copyRef.value) else ""
  }

  function PrintTerms(terms: seq<Expr>, separator: string): string {
    if terms == [] then ""
    else if |terms| == 1 then Print(terms[0])
    else Print(terms[0]) + separator + PrintTerms(terms[1..], separator)
  }

  // ----- lexing concatenated text -----

  /** No identifier runs across the seam. */
  predicate Seam(a: string, b: string) {
    a == [] || b == [] || IsBreak(a[|a| - 1]) || IsBreak(b[0])
  }

  lemma {:induction false} TokenizeAppend(a: string, b: string)
    requires Seam(a, b)
    ensures Tokenize(a + b) == Tokenize(a) + Tokenize(b)
    decreases |a|
  {
    var s := a + b;
    if a == [] {
      assert s == b;
    } else if IsBreak(a[0]) {
      assert s[1..] == a[1..] + b;
      TokenizeAppend(a[1..], b);
    } else {
      var n := WordLen(a);
      WordEnds(s, n);
      assert s[..n] == a[..n] && s[n..] == a[n..] + b;
      TokenizeAppend(a[n..], b);
    }
  }

  predicate IsWord(s: string) {
    s != [] && forall i | 0 <= i < |s| :: !IsBreak(s[i])
  }

  lemma TokenizeWord(s: string)
    requires IsWord(s)
    ensures Tokenize(s) == [WordToken(s)]
  {
    WordEnds(s, |s|);
    assert s[..|s|] == s && s[|s|..] == [];
  }

  lemma TokenizeBreak(c: char)
    requires IsBreak(c)
    ensures Tokenize([c])
            == if c == '(' then [LParen] else if c == ')' then [RParen] else if c == ',' then [Comma] else []
  {
    assert [c][1..] == [];
  }

  lemma TokenizeParens(s: string)
    ensures Tokenize("(" + s + ")") == [LParen] + Tokenize(s) + [RParen]
  {
    TokenizeBreak('(');
    TokenizeBreak(')');
    TokenizeAppend("(" + s, ")");
    TokenizeAppend("(", s);
  }

  lemma TokenizeCall(name: string, s: string)
    requires IsWord(name)
    ensures Tokenize(name + "(" + s + ")") == [WordToken(name), LParen] + Tokenize(s) + [RParen]
  {
    assert name + "(" + s + ")" == name + ("(" + s + ")");
    TokenizeAppend(name, "(" + s + ")");
    TokenizeWord(name);
    TokenizeParens(s);
  }

  lemma TokenizeSeparator(word: string)
    requires IsWord(word)
    ensures Tokenize(" " + word + " ") == [WordToken(word)]
  {
    TokenizeBreak(' ');
    TokenizeWord(word);
    TokenizeAppend(" " + word, " ");
    TokenizeAppend(" ", word);
  }

  lemma TokenizeSeparated(a: string, word: string, separator: string, b: string)
    requires IsWord(word) && separator == " " + word + " "
    ensures Tokenize(a + separator + b) == Tokenize(a) + ([WordToken(word)] + Tokenize(b))
  {
    TokenizeSeparator(word);
    TokenizeAppend(a + separator, b);
    TokenizeAppend(a, separator);
  }

  // ----- the tokens of a printed expression -----

  function Tokens(e: Expr): seq<Token> {
    Tokenize(Print(e))
  }

  function TokenLists(terms: seq<Expr>): (r: seq<seq<Token>>)
    ensures |r| == |terms|
  {
    seq(|terms|, i requires 0 <= i < |terms| => Tokens(terms[i]))
  }

  /** The operands after the first, each behind the operator. */
  function More(operands: seq<seq<Token>>, operator: Token): seq<Token> {
    if operands == [] then [] else [operator] + operands[0] + More(operands[1..], operator)
  }

  /** A parenthesized chain of operands. */
  function Group(operands: seq<seq<Token>>, operator: Token): seq<Token>
    requires operands != []
  {
    [LParen] + (operands[0] + More(operands[1..], operator)) + [RParen]
  }

  lemma {:induction false} TermsTokens(terms: seq<Expr>, word: string, separator: string)
    requires terms != [] && IsWord(word) && separator == " " + word + " "
    ensures Tokenize(PrintTerms(terms, separator)) == Tokens(terms[0]) + More(TokenLists(terms)[1..], WordToken(word))
  {
    if |terms| > 1 {
      TermsTokens(terms[1..], word, separator);
      TokenizeSeparated(Print(terms[0]), word, separator, PrintTerms(terms[1..], separator));
      var others := TokenLists(terms)[1..];
      assert others == TokenLists(terms[1..]);
      Associate([WordToken(word)], others[0], More(others[1..], WordToken(word)));
    }
  }

  lemma AndTokens(terms: seq<Expr>)
    requires terms != []
    ensures Tokens(And(terms)) == Group(TokenLists(terms), TAnd)
  {
    assert " and " == " " + "and" + " ";
    TermsTokens(terms, "and", " and ");
    TokenizeParens(PrintTerms(terms, " and "));
  }

  lemma OrTokens(branches: seq<Expr>)
    requires branches != []
    ensures Tokens(Or(branches)) == Group(TokenLists(branches), TOr)
  {
    assert " or " == " " + "or" + " ";
    TermsTokens(branches, "or", " or ");
    TokenizeParens(PrintTerms(branches, " or "));
  }

  function CopyRefTokens(copyRef: Option<Digest>): seq<Token> {
    if copyRef.Some? then [Comma, Ident("copy_ref:" + HexEncode(copyRef.value))] else []
  }

  lemma CopyRefWord(hex: string)
    requires AllDigits(hex)
    ensures IsWord("copy_ref:" + hex) && WordToken("copy_ref:" + hex) == Ident("copy_ref:" + hex)
  {
    var word := "copy_ref:" + hex;
    forall i | 0 <= i < |word|
      ensures !IsBreak(word[i])
    {
      if i >= 9 {
        assert word[i] == hex[i - 9];
      }
    }
  }

  lemma CopyRefTokenized(copyRef: Option<Digest>)
    ensures Tokenize(CopyRefText(copyRef)) == CopyRefTokens(copyRef)
  {
    if copyRef.Some? {
      var word := "copy_ref:" + HexEncode(copyRef.value);
      assert CopyRefText(copyRef) == "," + (" " + word);
      CopyRefWord(HexEncode(copyRef.value));
      TokenizeWord(word);
      TokenizeBreak(',');
      TokenizeBreak(' ');
      TokenizeAppend(" ", word);
      TokenizeAppend(",", " " + word);
    }
  }

  lemma SecretShape(a: string, b: string)
    ensures "secret(" + a + b + ")" == "secret" + "(" + (a + b) + ")"
  {
    assert "secret(" == "secret" + "(";
  }

  lemma SecretTokens(auth: Expr, copyRef: Option<Digest>)
    ensures Tokens(Secret(auth, copyRef))
            == [Ident("secret"), LParen] + (Tokens(auth) + CopyRefTokens(copyRef)) + [RParen]
  {
    var inner := Print(auth) + CopyRefText(copyRef);
    SecretShape(Print(auth), CopyRefText(copyRef));
    TokenizeCall("secret", inner);
    CopyRefTokenized(copyRef);
    assert copyRef.Some? ==> CopyRefText(copyRef)[0] == ',';
    TokenizeAppend(Print(auth), CopyRefText(copyRef));
  }

  lemma PcrTokens(sels: Selections, digest: Option<Digest>)
    ensures Tokens(Pcr(sels, digest)) == [Ident("pcr"), LParen] + Tokenize(PcrBody(sels, digest)) + [RParen]
  {
    assert Print(Pcr(sels, digest)) == "pcr" + "(" + PcrBody(sels, digest) + ")";
    TokenizeCall("pcr", PcrBody(sels, digest));
  }

  lemma HandleTokens(h: u32)
    ensures Tokens(Handle(h)) == [Ident(PrintPadded(h, 8))]
  {
    var word := PrintPadded(h, 8);
    forall i | 0 <= i < |word|
      ensures !IsBreak(word[i])
    {
      assert IsDigit(word[i]);
    }
    TokenizeWord(word);
  }

  // ----- reading printed PCR text -----

  /** The tokens of PCR text put back together are the text. */
  lemma {:induction false} PcrTextReads(body: string, rest: seq<Token>)
    requires PcrChars(body)
    ensures PcrText(Tokenize(body) + ([RParen] + rest)) == Ok(CallText(body, rest))
    decreases |body|
  {
    var after := [RParen] + rest;
    if body == [] {
      assert Tokenize(body) + after == after && after[1..] == rest;
    } else {
      var n := PcrHeadLen(body);
      var head, tail := body[..n], body[n..];
      PcrTextReads(tail, rest);
      PcrHead(body);
      PcrTextStep(PcrToken(head), head, Tokenize(tail), after);
      Rejoin(body, n);
    }
  }

  function PcrHeadLen(body: string): (n: nat)
    requires body != [] && PcrChars(body)
    ensures 0 < n <= |body|
  {
    assert IsPcrChar(body[0]);
    if body[0] == ',' then 1 else WordLen(body)
  }

  function PcrToken(head: string): Token {
    if head == "," then Comma else Ident(head)
  }

  lemma PcrHead(body: string)
    requires body != [] && PcrChars(body)
    ensures var n := PcrHeadLen(body); Tokenize(body) == [PcrToken(body[..n])] + Tokenize(body[n..])
  {
    assert IsPcrChar(body[0]);
    if body[0] == ',' {
      assert body[..1] == ",";
    } else {
      PcrWord(body[..WordLen(body)]);
    }
  }

  lemma PcrTextStep(token: Token, head: string, ts: seq<Token>, after: seq<Token>)
    requires token == PcrToken(head)
    ensures PcrText([token] + ts + after) == Prefixed(head, PcrText(ts + after))
  {
    assert ([token] + ts + after)[1..] == ts + after;
  }

  lemma PcrWord(word: string)
    requires word != [] && PcrChars(word) && word[0] != ','
    ensures WordToken(word) == Ident(word) == PcrToken(word)
  {
    assert IsPcrChar(word[0]);
    assert |word| > 1 ==> IsPcrChar(word[1]);
  }

  lemma PcrBodyChars(sels: Selections, digest: Option<Digest>)
    ensures PcrChars(PcrBody(sels, digest))
  {
    SelectionsChars(sels);
    if digest.Some? {
      assert AllDigits(HexEncode(digest.value));
    }
  }

  /** Text with and without a digest is never confused. */
  lemma PcrBodyReads(ctx: Context, sels: Selections, digest: Option<Digest>)
    requires ParsableSelections(ctx, sels)
    ensures PcrFromText(ctx, PcrBody(sels, digest)) == Ok(Pcr(sels, digest))
  {
    SelectionsRoundTrip(ctx, sels);
    if digest.Some? {
      var hex := HexEncode(digest.value);
      assert PcrBody(sels, digest) == PrintSelections(sels) + [':'] + hex;
      RSplitOnceAt(PrintSelections(sels), hex, ':');
      HexRoundTrip(digest.value);
    } else {
      assert PcrBody(sels, digest) == PrintSelections(sels);
      CutSelectionsFail(ctx, sels);
    }
  }

  // ----- which expressions the parser returns -----

  /**
    And and Or have at least two operands and a first operand of another kind;
    PCR lists are parsable in the context; no policy reference is empty.
   */
  predicate Parsable(ctx: Context, e: Expr) {
    match e
    case Pcr(sels, _) => ParsableSelections(ctx, sels)
    case Secret(auth, copyRef) => Parsable(ctx, auth) && copyRef != Some([])
    case And(terms) => |terms| >= 2 && !terms[0].And? && forall t <- terms :: Parsable(ctx, t)
    case Or(branches) => |branches| >= 2 && !branches[0].Or? && forall b <- branches :: Parsable(ctx, b)
    case Handle(h) => HandleType(h) in HANDLE_TYPES
  }

  lemma CopyRefReads(copyRef: Digest)
    requires copyRef != []
    ensures ParseCopyRef("copy_ref:" + HexEncode(copyRef)) == Ok(Some(copyRef))
  {
    var hex := HexEncode(copyRef);
    assert "copy_ref:" == "copy_ref" + [':'];
    assert ':' !in "copy_ref";
    SplitOnceAt("copy_ref", hex, ':');
    HexRoundTrip(copyRef);
  }

  // ----- parsing printed tokens -----

  /** `ts` is read as the operand `e`, whatever follows. */
  ghost predicate Reads(ctx: Context, ts: seq<Token>, e: Expr) {
    forall rest :: ParsePrimary(ctx, ts + rest) == Ok(Parsed(e, rest))
  }

  /** What follows an operand is no operator that binds it further. */
  predicate Ends(rest: seq<Token>) {
    rest == [] || (rest[0] != TAnd && rest[0] != TOr)
  }

  type OperandParser = f: seq<Token> -> ParseResult | Shrinks(f) witness _ => Err(UnexpectedEnd)

  ghost predicate Shrinks(f: seq<Token> -> ParseResult) {
    forall ts :: f(ts).Ok? ==> |f(ts).value.rest| < |ts|
  }

  function Combine(op: Token, lhs: Expr, rhs: Expr): Expr {
    if op == TAnd then CombineAnd(lhs, rhs) else CombineOr(lhs, rhs)
  }

  function Wrap(op: Token, terms: seq<Expr>): Expr {
    if op == TAnd then And(terms) else Or(terms)
  }

  /** The operand loop that And and Or share. */
  ghost function Chain(f: OperandParser, op: Token, node: Expr, ts: seq<Token>): ParseResult
    decreases |ts|
  {
    if ts == [] || ts[0] != op then Ok(Parsed(node, ts))
    else
      match f(ts[1..])
      case Err(e) => Err(e)
      case Ok(p) => Chain(f, op, Combine(op, node, p.expr), p.rest)
  }

  lemma {:induction false} AndTailChain(ctx: Context, f: OperandParser, node: Expr, ts: seq<Token>)
    requires forall x :: f(x) == ParsePrimary(ctx, x)
    ensures AndTail(ctx, node, ts) == Chain(f, TAnd, node, ts)
    decreases |ts|
  {
    if ts != [] && ts[0] == TAnd && f(ts[1..]).Ok? {
      var p := f(ts[1..]).value;
      AndTailChain(ctx, f, CombineAnd(node, p.expr), p.rest);
    }
  }

  lemma {:induction false} OrTailChain(ctx: Context, f: OperandParser, node: Expr, ts: seq<Token>)
    requires forall x :: f(x) == ParseAnd(ctx, x)
    ensures OrTail(ctx, node, ts) == Chain(f, TOr, node, ts)
    decreases |ts|
  {
    if ts != [] && ts[0] == TOr && f(ts[1..]).Ok? {
      var p := f(ts[1..]).value;
      OrTailChain(ctx, f, CombineOr(node, p.expr), p.rest);
    }
  }

  lemma ChainStep(f: OperandParser, op: Token, node: Expr, ts: seq<Token>, p: Parsed)
    requires f(ts) == Ok(p)
    ensures Chain(f, op, node, [op] + ts) == Chain(f, op, Combine(op, node, p.expr), p.rest)
  {
    assert ([op] + ts)[1..] == ts;
  }

  lemma MoreCons(operands: seq<seq<Token>>, op: Token, rest: seq<Token>)
    requires operands != []
    ensures More(operands, op) + rest == [op] + (operands[0] + (More(operands[1..], op) + rest))
  {
  }

  /** The operand parser reads `ts` as `e` when the token `avoid` does not follow. */
  ghost predicate OperandReads(f: OperandParser, avoid: Token, ts: seq<Token>, e: Expr) {
    forall rest | rest == [] || rest[0] != avoid :: f(ts + rest) == Ok(Parsed(e, rest))
  }

  /** Operands read one by one are collected in order. */
  lemma {:induction false} ChainReads(
      f: OperandParser, op: Token, avoid: Token,
      done: seq<Expr>, operands: seq<seq<Token>>, more: seq<Expr>, rest: seq<Token>)
    requires |operands| == |more| && op in {TAnd, TOr} && op != avoid
    requires forall i | 0 <= i < |more| :: OperandReads(f, avoid, operands[i], more[i])
    requires rest == [] || (rest[0] != op && rest[0] != avoid)
    ensures Chain(f, op, Wrap(op, done), More(operands, op) + rest) == Ok(Parsed(Wrap(op, done + more), rest))
    decreases more
  {
    if more == [] {
      assert More(operands, op) + rest == rest && done + more == done;
    } else {
      var after := More(operands[1..], op) + rest;
      MoreCons(operands, op, rest);
      assert after == rest || after[0] == op;
      assert OperandReads(f, avoid, operands[0], more[0]);
      ChainStep(f, op, Wrap(op, done), operands[0] + after, Parsed(more[0], after));
      ChainReads(f, op, avoid, done + [more[0]], operands[1..], more[1..], rest);
      Shift(done, more);
    }
  }

  /** The first operand and the chain after it. */
  lemma GroupChain(
      f: OperandParser, op: Token, avoid: Token, operands: seq<seq<Token>>, terms: seq<Expr>, rest: seq<Token>)
    requires |operands| == |terms| >= 2 && op in {TAnd, TOr} && op != avoid
    requires forall i | 0 <= i < |terms| :: OperandReads(f, avoid, operands[i], terms[i])
    requires if op == TAnd then !terms[0].And? else !terms[0].Or?
    requires rest == [] || (rest[0] != op && rest[0] != avoid)
    ensures var after := More(operands[1..], op) + rest;
            && f(operands[0] + after) == Ok(Parsed(terms[0], after))
            && Chain(f, op, terms[0], after) == Ok(Parsed(Wrap(op, terms), rest))
  {
    var others, pair := operands[1..], [terms[0], terms[1]];
    var last := More(others[1..], op) + rest;
    MoreCons(others, op, rest);
    assert last == rest || last[0] == op;
    assert OperandReads(f, avoid, operands[0], terms[0]) && OperandReads(f, avoid, operands[1], terms[1]);
    ChainStep(f, op, terms[0], operands[1] + last, Parsed(terms[1], last));
    ChainReads(f, op, avoid, pair, others[1..], terms[2..], rest);
    FirstTwo(terms);
  }

  lemma PrimaryOperand(ctx: Context, f: OperandParser, avoid: Token, ts: seq<Token>, e: Expr)
    requires Reads(ctx, ts, e) && forall x :: f(x) == ParsePrimary(ctx, x)
    ensures OperandReads(f, avoid, ts, e)
  {
  }

  lemma AndStart(ctx: Context, ts: seq<Token>, p: Parsed)
    requires ParsePrimary(ctx, ts) == Ok(p)
    ensures ParseAnd(ctx, ts) == AndTail(ctx, p.expr, p.rest)
  {
  }

  lemma OrStart(ctx: Context, ts: seq<Token>, p: Parsed)
    requires ParseAnd(ctx, ts) == Ok(p)
    ensures ParseOr(ctx, ts) == OrTail(ctx, p.expr, p.rest)
  {
  }

  lemma AndStop(ctx: Context, node: Expr, ts: seq<Token>)
    requires ts == [] || ts[0] != TAnd
    ensures AndTail(ctx, node, ts) == Ok(Parsed(node, ts))
  {
  }

  lemma OrStop(ctx: Context, node: Expr, ts: seq<Token>)
    requires ts == [] || ts[0] != TOr
    ensures OrTail(ctx, node, ts) == Ok(Parsed(node, ts))
  {
  }

  /** An operand of an Or: nothing after it belongs to an And. */
  lemma AndOperand(ctx: Context, ts: seq<Token>, e: Expr, rest: seq<Token>)
    requires Reads(ctx, ts, e) && (rest == [] || rest[0] != TAnd)
    ensures ParseAnd(ctx, ts + rest) == Ok(Parsed(e, rest))
  {
    AndStart(ctx, ts + rest, Parsed(e, rest));
    AndStop(ctx, e, rest);
  }

  /** A printed expression followed by no operator is read as a whole. */
  lemma WholeReads(ctx: Context, ts: seq<Token>, e: Expr, rest: seq<Token>)
    requires Reads(ctx, ts, e) && Ends(rest)
    ensures ParseOr(ctx, ts + rest) == Ok(Parsed(e, rest))
  {
    AndOperand(ctx, ts, e, rest);
    OrStart(ctx, ts + rest, Parsed(e, rest));
    OrStop(ctx, e, rest);
  }

  lemma AndReads(ctx: Context, operands: seq<seq<Token>>, terms: seq<Expr>, rest: seq<Token>)
    requires |operands| == |terms| >= 2 && (forall i | 0 <= i < |terms| :: Reads(ctx, operands[i], terms[i]))
    requires !terms[0].And? && Ends(rest)
    ensures ParseOr(ctx, operands[0] + More(operands[1..], TAnd) + rest) == Ok(Parsed(And(terms), rest))
  {
    var f: OperandParser := ts => ParsePrimary(ctx, ts);
    forall i | 0 <= i < |terms|
      ensures OperandReads(f, TOr, operands[i], terms[i])
    {
      PrimaryOperand(ctx, f, TOr, operands[i], terms[i]);
    }
    var after := More(operands[1..], TAnd) + rest;
    var ts := operands[0] + after;
    assert operands[0] + More(operands[1..], TAnd) + rest == ts;
    GroupChain(f, TAnd, TOr, operands, terms, rest);
    AndTailChain(ctx, f, terms[0], after);
    AndStart(ctx, ts, Parsed(terms[0], after));
    OrStart(ctx, ts, Parsed(And(terms), rest));
    OrStop(ctx, And(terms), rest);
  }

  lemma OrReads(ctx: Context, operands: seq<seq<Token>>, branches: seq<Expr>, rest: seq<Token>)
    requires |operands| == |branches| >= 2 && (forall i | 0 <= i < |branches| :: Reads(ctx, operands[i], branches[i]))
    requires !branches[0].Or? && Ends(rest)
    ensures ParseOr(ctx, operands[0] + More(operands[1..], TOr) + rest) == Ok(Parsed(Or(branches), rest))
  {
    var f: OperandParser := ts => ParseAnd(ctx, ts);
    forall i | 0 <= i < |branches|
      ensures OperandReads(f, TAnd, operands[i], branches[i])
    {
      forall next | next == [] || next[0] != TAnd
        ensures f(operands[i] + next) == Ok(Parsed(branches[i], next))
      {
        AndOperand(ctx, operands[i], branches[i], next);
      }
    }
    var after := More(operands[1..], TOr) + rest;
    var ts := operands[0] + after;
    assert operands[0] + More(operands[1..], TOr) + rest == ts;
    GroupChain(f, TOr, TAnd, operands, branches, rest);
    OrTailChain(ctx, f, branches[0], after);
    OrStart(ctx, ts, Parsed(branches[0], after));
  }

  /** A parenthesized group is an operand. */
  lemma GroupReads(ctx: Context, inner: seq<Token>, e: Expr)
    requires forall rest | Ends(rest) :: ParseOr(ctx, inner + rest) == Ok(Parsed(e, rest))
    ensures Reads(ctx, [LParen] + inner + [RParen], e)
  {
    forall rest
      ensures ParsePrimary(ctx, [LParen] + inner + [RParen] + rest) == Ok(Parsed(e, rest))
    {
      var ts := [LParen] + inner + [RParen] + rest;
      assert ts[1..] == inner + ([RParen] + rest);
      assert ([RParen] + rest)[1..] == rest;
    }
  }

  lemma SecretReads(ctx: Context, tokens: seq<Token>, auth: Expr, copyRef: Option<Digest>)
    requires Reads(ctx, tokens, auth) && copyRef != Some([])
    ensures Reads(ctx, [Ident("secret"), LParen] + (tokens + CopyRefTokens(copyRef)) + [RParen], Secret(auth, copyRef))
  {
    var inner := tokens + CopyRefTokens(copyRef);
    forall rest
      ensures ParsePrimary(ctx, [Ident("secret"), LParen] + inner + [RParen] + rest)
              == Ok(Parsed(Secret(auth, copyRef), rest))
    {
      var after := CopyRefTokens(copyRef) + ([RParen] + rest);
      CallShape(Ident("secret"), inner, rest);
      Associate(tokens, CopyRefTokens(copyRef), [RParen] + rest);
      WholeReads(ctx, tokens, auth, after);
      SecretEndReads(auth, copyRef, rest);
      SecretCallReads(ctx, tokens + after, auth, after);
      PrimarySecret(ctx, [LParen] + (tokens + after));
    }
  }

  lemma SecretCallReads(ctx: Context, ts: seq<Token>, auth: Expr, after: seq<Token>)
    requires ParseOr(ctx, ts) == Ok(Parsed(auth, after))
    ensures ParseSecretCall(ctx, [LParen] + ts) == SecretEnd(auth, after)
  {
    assert ([LParen] + ts)[1..] == ts;
  }

  lemma SecretEndReads(auth: Expr, copyRef: Option<Digest>, rest: seq<Token>)
    requires copyRef != Some([])
    ensures SecretEnd(auth, CopyRefTokens(copyRef) + ([RParen] + rest)) == Ok(Parsed(Secret(auth, copyRef), rest))
  {
    var after := CopyRefTokens(copyRef) + ([RParen] + rest);
    if copyRef.Some? {
      CopyRefReads(copyRef.value);
      assert after[3..] == rest;
    } else {
      assert after[1..] == rest;
    }
  }

  lemma PcrReads(ctx: Context, sels: Selections, digest: Option<Digest>)
    requires ParsableSelections(ctx, sels)
    ensures Reads(ctx, [Ident("pcr"), LParen] + Tokenize(PcrBody(sels, digest)) + [RParen], Pcr(sels, digest))
  {
    PcrBodyChars(sels, digest);
    PcrBodyReads(ctx, sels, digest);
    var body := PcrBody(sels, digest);
    forall rest
      ensures PcrText(Tokenize(body) + ([RParen] + rest)) == Ok(CallText(body, rest))
    {
      PcrTextReads(body, rest);
    }
    PcrCallReads(ctx, body, Tokenize(body), Pcr(sels, digest));
  }

  lemma PcrCallReads(ctx: Context, body: string, tokens: seq<Token>, e: Expr)
    requires forall rest :: PcrText(tokens + ([RParen] + rest)) == Ok(CallText(body, rest))
    requires PcrFromText(ctx, body) == Ok(e)
    ensures Reads(ctx, [Ident("pcr"), LParen] + tokens + [RParen], e)
  {
    forall rest
      ensures ParsePrimary(ctx, [Ident("pcr"), LParen] + tokens + [RParen] + rest) == Ok(Parsed(e, rest))
    {
      var after := tokens + ([RParen] + rest);
      CallShape(Ident("pcr"), tokens, rest);
      assert PcrText(after) == Ok(CallText(body, rest));
      PcrCallStep(ctx, after, body, e, rest);
      PrimaryPcr(ctx, [LParen] + after);
    }
  }

  lemma CallShape(name: Token, tokens: seq<Token>, rest: seq<Token>)
    ensures [name, LParen] + tokens + [RParen] + rest == [name] + ([LParen] + (tokens + ([RParen] + rest)))
  {
  }

  lemma PcrCallStep(ctx: Context, ts: seq<Token>, body: string, e: Expr, rest: seq<Token>)
    requires PcrText(ts) == Ok(CallText(body, rest)) && PcrFromText(ctx, body) == Ok(e)
    ensures ParsePcrCall(ctx, [LParen] + ts) == Ok(Parsed(e, rest))
  {
    assert ([LParen] + ts)[1..] == ts;
  }

  lemma PrimaryPcr(ctx: Context, ts: seq<Token>)
    ensures ParsePrimary(ctx, [Ident("pcr")] + ts) == ParsePcrCall(ctx, ts)
  {
    assert ([Ident("pcr")] + ts)[1..] == ts;
  }

  lemma PrimarySecret(ctx: Context, ts: seq<Token>)
    ensures ParsePrimary(ctx, [Ident("secret")] + ts) == ParseSecretCall(ctx, ts)
  {
    assert ([Ident("secret")] + ts)[1..] == ts;
  }

  lemma HandleReads(ctx: Context, h: u32)
    requires HandleType(h) in HANDLE_TYPES
    ensures Reads(ctx, [Ident(PrintPadded(h, 8))], Handle(h))
  {
    PaddedRoundTrip(h);
    forall rest
      ensures ParsePrimary(ctx, [Ident(PrintPadded(h, 8))] + rest) == Ok(Parsed(Handle(h), rest))
    {
      assert ([Ident(PrintPadded(h, 8))] + rest)[1..] == rest;
    }
  }

  /** The tokens of a printed expression are read as that expression. */
  lemma {:induction false} PrintedReads(ctx: Context, e: Expr)
    requires Parsable(ctx, e)
    ensures Reads(ctx, Tokens(e), e)
  {
    match e
    case Pcr(sels, digest) =>
      PcrTokens(sels, digest);
      PcrReads(ctx, sels, digest);
    case Secret(auth, copyRef) =>
      SecretTokens(auth, copyRef);
      PrintedReads(ctx, auth);
      SecretReads(ctx, Tokens(auth), auth, copyRef);
    case And(terms) =>
      var operands := TokenLists(terms);
      forall i | 0 <= i < |terms|
        ensures Reads(ctx, operands[i], terms[i])
      {
        PrintedReads(ctx, terms[i]);
      }
      AndGroupReads(ctx, operands, terms);
      AndTokens(terms);
    case Or(branches) =>
      var operands := TokenLists(branches);
      forall i | 0 <= i < |branches|
        ensures Reads(ctx, operands[i], branches[i])
      {
        PrintedReads(ctx, branches[i]);
      }
      OrGroupReads(ctx, operands, branches);
      OrTokens(branches);
    case Handle(h) =>
      HandleTokens(h);
      HandleReads(ctx, h);
  }

  lemma AndGroupReads(ctx: Context, operands: seq<seq<Token>>, terms: seq<Expr>)
    requires |operands| == |terms| >= 2 && (forall i | 0 <= i < |terms| :: Reads(ctx, operands[i], terms[i]))
    requires !terms[0].And?
    ensures Reads(ctx, Group(operands, TAnd), And(terms))
  {
    var inner := operands[0] + More(operands[1..], TAnd);
    forall rest | Ends(rest)
      ensures ParseOr(ctx, inner + rest) == Ok(Parsed(And(terms), rest))
    {
      AndReads(ctx, operands, terms, rest);
    }
    GroupReads(ctx, inner, And(terms));
  }

  lemma OrGroupReads(ctx: Context, operands: seq<seq<Token>>, branches: seq<Expr>)
    requires |operands| == |branches| >= 2 && (forall i | 0 <= i < |branches| :: Reads(ctx, operands[i], branches[i]))
    requires !branches[0].Or?
    ensures Reads(ctx, Group(operands, TOr), Or(branches))
  {
    var inner := operands[0] + More(operands[1..], TOr);
    forall rest | Ends(rest)
      ensures ParseOr(ctx, inner + rest) == Ok(Parsed(Or(branches), rest))
    {
      OrReads(ctx, operands, branches, rest);
    }
    GroupReads(ctx, inner, Or(branches));
  }

  // ----- every parse result is parsable -----

  lemma CombineOrParsable(ctx: Context, lhs: Expr, rhs: Expr)
    requires Parsable(ctx, lhs) && Parsable(ctx, rhs)
    ensures Parsable(ctx, CombineOr(lhs, rhs))
  {
  }

  lemma CombineAndParsable(ctx: Context, lhs: Expr, rhs: Expr)
    requires Parsable(ctx, lhs) && Parsable(ctx, rhs)
    ensures Parsable(ctx, CombineAnd(lhs, rhs))
  {
  }

  lemma {:induction false} ParseOrParsable(ctx: Context, ts: seq<Token>)
    requires ParseOr(ctx, ts).Ok?
    ensures Parsable(ctx, ParseOr(ctx, ts).value.expr)
    decreases |ts|, 3
  {
    ParseAndParsable(ctx, ts);
    var p := ParseAnd(ctx, ts).value;
    OrTailParsable(ctx, p.expr, p.rest);
  }

  lemma {:induction false} OrTailParsable(ctx: Context, node: Expr, ts: seq<Token>)
    requires Parsable(ctx, node) && OrTail(ctx, node, ts).Ok?
    ensures Parsable(ctx, OrTail(ctx, node, ts).value.expr)
    decreases |ts|, 3
  {
    if ts != [] && ts[0] == TOr {
      ParseAndParsable(ctx, ts[1..]);
      var p := ParseAnd(ctx, ts[1..]).value;
      CombineOrParsable(ctx, node, p.expr);
      OrTailParsable(ctx, CombineOr(node, p.expr), p.rest);
    }
  }

  lemma {:induction false} ParseAndParsable(ctx: Context, ts: seq<Token>)
    requires ParseAnd(ctx, ts).Ok?
    ensures Parsable(ctx, ParseAnd(ctx, ts).value.expr)
    decreases |ts|, 2
  {
    ParsePrimaryParsable(ctx, ts);
    var p := ParsePrimary(ctx, ts).value;
    AndTailParsable(ctx, p.expr, p.rest);
  }

  lemma {:induction false} AndTailParsable(ctx: Context, node: Expr, ts: seq<Token>)
    requires Parsable(ctx, node) && AndTail(ctx, node, ts).Ok?
    ensures Parsable(ctx, AndTail(ctx, node, ts).value.expr)
    decreases |ts|, 2
  {
    if ts != [] && ts[0] == TAnd {
      ParsePrimaryParsable(ctx, ts[1..]);
      var p := ParsePrimary(ctx, ts[1..]).value;
      CombineAndParsable(ctx, node, p.expr);
      AndTailParsable(ctx, CombineAnd(node, p.expr), p.rest);
    }
  }

  lemma {:induction false} ParsePrimaryParsable(ctx: Context, ts: seq<Token>)
    requires ParsePrimary(ctx, ts).Ok?
    ensures Parsable(ctx, ParsePrimary(ctx, ts).value.expr)
    decreases |ts|, 1
  {
    match ts[0]
    case LParen => ParseOrParsable(ctx, ts[1..]);
    case Ident(name) =>
      if name == "pcr" {
        PcrFromTextParsable(ctx, PcrText(Opening(ts[1..]).value).value.text);
      } else if name == "secret" {
        ParseOrParsable(ctx, Opening(ts[1..]).value);
      }
    case _ =>
  }

  lemma PcrFromTextParsable(ctx: Context, text: string)
    requires PcrFromText(ctx, text).Ok?
    ensures Parsable(ctx, PcrFromText(ctx, text).value)
  {
    if PcrWithDigest(ctx, text).Some? {
      ParsedSelections(ctx, RSplitOnce(text, ':').value.0);
    } else {
      ParsedSelections(ctx, text);
    }
  }

  // ----- main results -----

  /** Printing then parsing gives back the same expression, for exactly the expressions a text can denote. */
  lemma PrintParse(ctx: Context, e: Expr)
    ensures Parse(ctx, Print(e)) == Ok(e) <==> Parsable(ctx, e)
  {
    if Parsable(ctx, e) {
      PrintedReads(ctx, e);
      WholeReads(ctx, Tokens(e), e, []);
      assert Tokens(e) + [] == Tokens(e);
    }
    if Parse(ctx, Print(e)) == Ok(e) {
      ParseOrParsable(ctx, Tokens(e));
    }
  }

  /** A group of one term, which no text denotes, reads back as the term itself. */
  lemma OneTermUnwraps(ctx: Context, e: Expr)
    requires Parsable(ctx, e)
    ensures !Parsable(ctx, Or([e])) && Parse(ctx, Print(Or([e]))) == Ok(e)
    ensures !Parsable(ctx, And([e])) && Parse(ctx, Print(And([e]))) == Ok(e)
  {
    PrintedReads(ctx, e);
    OneTermTokens(e);
    var ts := [LParen] + Tokens(e) + [RParen];
    forall rest | Ends(rest)
      ensures ParseOr(ctx, Tokens(e) + rest) == Ok(Parsed(e, rest))
    {
      WholeReads(ctx, Tokens(e), e, rest);
    }
    GroupReads(ctx, Tokens(e), e);
    WholeReads(ctx, ts, e, []);
    assert ts + [] == ts;
  }

  lemma OneTermTokens(e: Expr)
    ensures Tokens(Or([e])) == Tokens(And([e])) == [LParen] + Tokens(e) + [RParen]
  {
    OrTokens([e]);
    AndTokens([e]);
    assert TokenLists([e]) == [Tokens(e)] && TokenLists([e])[1..] == [];
    assert Tokens(e) + [] == Tokens(e);
  }

  /** Whatever a text parses to, printing and parsing again gives the same. */
  lemma ParsePrintParse(ctx: Context, text: string)
    requires Parse(ctx, text).Ok?
    ensures Parse(ctx, Print(Parse(ctx, text).value)) == Parse(ctx, text)
  {
    ParseOrParsable(ctx, Tokenize(text));
    PrintParse(ctx, Parse(ctx, text).value);
  }

  /** Two parsable expressions print alike only if they are equal. */
  lemma PrintInjective(ctx: Context, a: Expr, b: Expr)
    requires Parsable(ctx, a) && Parsable(ctx, b) && Print(a) == Print(b)
    ensures a == b
  {
    PrintParse(ctx, a);
    PrintParse(ctx, b);
  }

  lemma {:induction false} ParsableBranches(ctx: Context, e: Expr)
    requires Parsable(ctx, e)
    ensures EnoughBranches(Membership(2), e)
  {
    match e
    case And(terms) =>
      forall t <- terms
        ensures EnoughBranches(Membership(2), t)
      {
        ParsableBranches(ctx, t);
      }
    case Or(branches) =>
      forall b <- branches
        ensures EnoughBranches(Membership(2), b)
      {
        ParsableBranches(ctx, b);
      }
    case _ =>
  }

  /**
    From text to TPM: the stream that a parsed policy compiles to passes every
    PolicyOR check of a TPM that wants at least two branches, and leaves the
    session at the digest the compiler reported.
   */
  lemma ParsedPolicyRuns(ctx: Context, text: string, h: Hash)
    requires Parse(ctx, text).Ok? && Emit(h, ctx, Parse(ctx, text).value).Ok?
    ensures var e := Parse(ctx, text).value;
            Replay(h, ctx, Membership(2), Emit(h, ctx, e).value, ZeroDigest(h))
            == Some(DigestOf(h, ctx, e, ZeroDigest(h)))
  {
    var e := Parse(ctx, text).value;
    ParseOrParsable(ctx, Tokenize(text));
    ParsableBranches(ctx, e);
    ReplayEmit(h, ctx, Membership(2), e, ZeroDigest(h));
  }
}
