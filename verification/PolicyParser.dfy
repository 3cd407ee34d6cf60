/** The lexer and the recursive-descent parser of the policy language. */
module PolicyParser {
  import opened Wrappers
  import opened Bytes
  import opened Text
  import opened WireTypes
  import opened PolicyAst
  import opened PolicyPcrText

  // ----- lexer -----

  datatype Token = TAnd | TOr | LParen | RParen | Comma | Ident(text: string)

  /** The characters Unicode calls white space. */
  predicate IsWhitespace(c: char) {
    var n := c as int;
    || 0x09 <= n <= 0x0D || n == 0x20 || n == 0x85 || n == 0xA0 || n == 0x1680 || 0x2000 <= n <= 0x200A
    || n == 0x2028 || n == 0x2029 || n == 0x202F || n == 0x205F || n == 0x3000
  }

  /** Characters that end an identifier. */
  predicate IsBreak(c: char) {
    IsWhitespace(c) || c == '(' || c == ')' || c == ','
  }

  /** The length of the identifier at the start of `s`. */
  function WordLen(s: string): (n: nat)
    ensures n <= |s| && forall i | 0 <= i < n :: !IsBreak(s[i])
    ensures n == |s| || IsBreak(s[n])
  {
    if s == [] || IsBreak(s[0]) then 0 else 1 + WordLen(s[1..])
  }

  function WordToken(word: string): Token {
    if word == "and" then TAnd else if word == "or" then TOr else Ident(word)
  }

  function Tokenize(s: string): seq<Token> {
    if s == [] then []
    else if s[0] == '(' then [LParen] + Tokenize(s[1..])
    else if s[0] == ')' then [RParen] + Tokenize(s[1..])
    else if s[0] == ',' then [Comma] + Tokenize(s[1..])
    else if IsWhitespace(s[0]) then Tokenize(s[1..])
    else [WordToken(s[..WordLen(s)])] + Tokenize(s[WordLen(s)..])
  }

  method Lex(input: string) returns (tokens: seq<Token>)
    ensures tokens == Tokenize(input)
  {
    tokens := [];
    var i := 0;
    ghost var all, left := Tokenize(input), Tokenize(input);
    assert input[0..] == input;
    while i < |input|
      invariant i <= |input| && left == Tokenize(input[i..]) && tokens + left == all
    {
      var taken, end := LexOne(input, i);
      assert tokens + (taken + Tokenize(input[end..])) == tokens + taken + Tokenize(input[end..]);
      tokens, i, left := tokens + taken, end, Tokenize(input[end..]);
    }
    assert left == [];
  }

  /** The token that starts at a character, if one does, and where lexing goes on. */
  method LexOne(input: string, i: nat) returns (taken: seq<Token>, end: nat)
    requires i < |input|
    ensures i < end <= |input| && Tokenize(input[i..]) == taken + Tokenize(input[end..])
  {
    var c := input[i];
    end := i + 1;
    assert input[i..][1..] == input[end..];
    if c == '(' {
      taken := [LParen];
    } else if c == ')' {
      taken := [RParen];
    } else if c == ',' {
      taken := [Comma];
    } else if IsWhitespace(c) {
      taken := [];
    } else {
      end := EndOfWord(input, i);
      WordStep(input, i, end);
      taken := [WordToken(input[i..end])];
    }
  }

  method EndOfWord(input: string, start: nat) returns (end: nat)
    requires start < |input| && !IsBreak(input[start])
    ensures start < end <= |input| && end - start == WordLen(input[start..])
  {
    end := start + 1;
    while end < |input| && !IsBreak(input[end])
      invariant start < end <= |input| && forall k | start <= k < end :: !IsBreak(input[k])
    {
      end := end + 1;
    }
    WordEnds(input[start..], end - start);
  }

  lemma WordStep(input: string, i: nat, end: nat)
    requires i < end <= |input| && !IsBreak(input[i]) && end - i == WordLen(input[i..])
    ensures Tokenize(input[i..]) == [WordToken(input[i..end])] + Tokenize(input[end..])
  {
    var rest := input[i..];
    assert rest[end - i..] == input[end..] && rest[..end - i] == input[i..end];
  }

  lemma {:induction false} WordEnds(s: string, n: nat)
    requires n <= |s| && (forall i | 0 <= i < n :: !IsBreak(s[i])) && (n == |s| || IsBreak(s[n]))
    ensures WordLen(s) == n
  {
    if n > 0 {
      WordEnds(s[1..], n - 1);
    }
  }

  // ----- parser -----

  /** An expression and the tokens after it. */
  datatype Parsed = Parsed(expr: Expr, rest: seq<Token>)

  type ParseResult = Result<Parsed, PolicyError>

  function CombineOr(lhs: Expr, rhs: Expr): Expr {
    if lhs.Or? then Or(lhs.branches + [rhs]) else Or([lhs, rhs])
  }

  function CombineAnd(lhs: Expr, rhs: Expr): Expr {
    if lhs.And? then And(lhs.terms + [rhs]) else And([lhs, rhs])
  }

  function ParseOr(ctx: Context, ts: seq<Token>): (r: ParseResult)
    ensures r.Ok? ==> |r.value.rest| < |ts|
    decreases |ts|, 3
  {
    match ParseAnd(ctx, ts)
    case Err(e) => Err(e)
    case Ok(p) => OrTail(ctx, p.expr, p.rest)
  }

  /** The further operands after `node`, folded in from the left. */
  function OrTail(ctx: Context, node: Expr, ts: seq<Token>): (r: ParseResult)
    ensures r.Ok? ==> |r.value.rest| <= |ts|
    decreases |ts|, 3
  {
    if ts == [] || ts[0] != TOr then Ok(Parsed(node, ts))
    else
      match ParseAnd(ctx, ts[1..])
      case Err(e) => Err(e)
      case Ok(p) => OrTail(ctx, CombineOr(node, p.expr), p.rest)
  }

  function ParseAnd(ctx: Context, ts: seq<Token>): (r: ParseResult)
    ensures r.Ok? ==> |r.value.rest| < |ts|
    decreases |ts|, 2
  {
    match ParsePrimary(ctx, ts)
    case Err(e) => Err(e)
    case Ok(p) => AndTail(ctx, p.expr, p.rest)
  }

  function AndTail(ctx: Context, node: Expr, ts: seq<Token>): (r: ParseResult)
    ensures r.Ok? ==> |r.value.rest| <= |ts|
    decreases |ts|, 2
  {
    if ts == [] || ts[0] != TAnd then Ok(Parsed(node, ts))
    else
      match ParsePrimary(ctx, ts[1..])
      case Err(e) => Err(e)
      case Ok(p) => AndTail(ctx, CombineAnd(node, p.expr), p.rest)
  }

  function ParsePrimary(ctx: Context, ts: seq<Token>): (r: ParseResult)
    ensures r.Ok? ==> |r.value.rest| < |ts|
    decreases |ts|, 1
  {
    if ts == [] then Err(UnexpectedEnd)
    else
      match ts[0]
      case LParen => Closing(ParseOr(ctx, ts[1..]))
      case Ident(name) =>
        if name == "pcr" then ParsePcrCall(ctx, ts[1..])
        else if name == "secret" then ParseSecretCall(ctx, ts[1..])
        else
          (match ParseLiteral(name)
           case Err(e) => Err(e)
           case Ok(h) => Ok(Parsed(h, ts[1..])))
      case _ => Err(InvalidToken)
  }

  /** The closing parenthesis of a parenthesized expression. */
  function Closing(p: ParseResult): (r: ParseResult)
    ensures r.Ok? ==> p.Ok? && |r.value.rest| < |p.value.rest|
  {
    if p.Err? then p
    else if p.value.rest == [] || p.value.rest[0] != RParen then Err(ParenthesisMismatch)
    else Ok(Parsed(p.value.expr, p.value.rest[1..]))
  }

  /** A handle: eight hexadecimal digits whose first byte is a handle type. */
  function ParseLiteral(s: string): Result<Expr, PolicyError> {
    if |s| != 8 then Err(InvalidToken)
    else
      match ParseUnsigned(s, 16, U32_COUNT)
      case None => Err(InvalidToken)
      case Some(raw) =>
        if HandleType(raw) !in HANDLE_TYPES then Err(InvalidHandleType(HandleType(raw))) else Ok(Handle(raw))
  }

  /** The opening parenthesis of a call. */
  function Opening(ts: seq<Token>): Result<seq<Token>, PolicyError> {
    if ts == [] then Err(UnexpectedEnd)
    else if ts[0] != LParen then Err(InvalidToken)
    else Ok(ts[1..])
  }

  datatype CallText = CallText(text: string, rest: seq<Token>)

  /** The text up to the closing parenthesis, with white space gone. */
  function PcrText(ts: seq<Token>): (r: Result<CallText, PolicyError>)
    ensures r.Ok? ==> |r.value.rest| < |ts|
  {
    if ts == [] then Err(UnexpectedEnd)
    else
      match ts[0]
      case RParen => Ok(CallText([], ts[1..]))
      case Ident(s) => Prefixed(s, PcrText(ts[1..]))
      case Comma => Prefixed(",", PcrText(ts[1..]))
      case _ => Err(InvalidToken)
  }

  function Prefixed(s: string, r: Result<CallText, PolicyError>): Result<CallText, PolicyError> {
    if r.Err? then r else Ok(CallText(s + r.value.text, r.value.rest))
  }

  /** A selection list with a digest after its last colon if that reads, else without one. */
  function PcrFromText(ctx: Context, text: string): Result<Expr, PolicyError> {
    var withDigest := PcrWithDigest(ctx, text);
    if withDigest.Some? then Ok(withDigest.value)
    else
      match ParseSelections(ctx, text)
      case Err(e) => Err(e)
      case Ok(sels) => Ok(Pcr(sels, None))
  }

  function PcrWithDigest(ctx: Context, text: string): Option<Expr> {
    match RSplitOnce(text, ':')
    case None => None
    case Some(p) =>
      var sels, bytes := ParseSelections(ctx, p.0), HexDecode(p.1);
      if sels.Err? || bytes.None? || |bytes.value| > MAX_DIGEST_SIZE then None
      else Some(Pcr(sels.value, Some(bytes.value)))
  }

  function ParsePcrCall(ctx: Context, ts: seq<Token>): (r: ParseResult)
    ensures r.Ok? ==> |r.value.rest| < |ts|
  {
    match Opening(ts)
    case Err(e) => Err(e)
    case Ok(body) =>
      match PcrText(body)
      case Err(e) => Err(e)
      case Ok(call) =>
        match PcrFromText(ctx, call.text)
        case Err(e) => Err(e)
        case Ok(expr) => Ok(Parsed(expr, call.rest))
  }

  /** The value of a `copy_ref:` argument; an empty one counts as absent. */
  function ParseCopyRef(s: string): Result<Option<Digest>, PolicyError> {
    match SplitOnce(s, ':')
    case None => Err(InvalidToken)
    case Some(p) =>
      if p.0 != "copy_ref" then Err(InvalidToken)
      else
        match HexDecode(p.1)
        case None => Err(InvalidToken)
        case Some(bytes) =>
          if bytes == [] then Ok(None)
          else if |bytes| > MAX_DIGEST_SIZE then Err(InvalidToken)
          else Ok(Some(bytes))
  }

  /** The rest of a secret call, after the handle expression. */
  function SecretEnd(auth: Expr, ts: seq<Token>): (r: ParseResult)
    ensures r.Ok? ==> |r.value.rest| < |ts|
  {
    if ts == [] then Err(UnexpectedEnd)
    else
      match ts[0]
      case RParen => Ok(Parsed(Secret(auth, None), ts[1..]))
      case Comma =>
        if |ts| == 1 then Err(UnexpectedEnd)
        else if !ts[1].Ident? then Err(InvalidToken)
        else
          (match ParseCopyRef(ts[1].text)
           case Err(e) => Err(e)
           case Ok(copyRef) =>
             if |ts| == 2 then Err(UnexpectedEnd)
             else if ts[2] != RParen then Err(InvalidToken)
             else Ok(Parsed(Secret(auth, copyRef), ts[3..])))
      case _ => Err(InvalidToken)
  }

  function ParseSecretCall(ctx: Context, ts: seq<Token>): (r: ParseResult)
    ensures r.Ok? ==> |r.value.rest| < |ts|
    decreases |ts|, 4
  {
    match Opening(ts)
    case Err(e) => Err(e)
    case Ok(body) =>
      match ParseOr(ctx, body)
      case Err(_) => Err(InvalidToken)
      case Ok(p) => SecretEnd(p.expr, p.rest)
  }

  function Parse(ctx: Context, input: string): Result<Expr, PolicyError> {
    match ParseOr(ctx, Tokenize(input))
    case Err(e) => Err(e)
    case Ok(p) => if p.rest != [] then Err(TrailingData) else Ok(p.expr)
  }

  // ----- the parser as it runs, on a cursor over the tokens -----

  class TokenCursor {
    const tokens: seq<Token>
    var pos: nat

    ghost predicate Valid()
      reads this
    {
      pos <= |tokens|
    }

    /** The tokens not yet taken. */
    ghost function Rest(): seq<Token>
      requires Valid()
      reads this
    {
      tokens[pos..]
    }

    constructor (tokens: seq<Token>)
      ensures Valid() && Rest() == tokens
    {
      this.tokens := tokens;
      pos := 0;
    }

    function Peek(): (t: Option<Token>)
      requires Valid()
      reads this
      ensures t == if Rest() == [] then None else Some(Rest()[0])
    {
      if pos == |tokens| then None else Some(tokens[pos])
    }

    method Next() returns (t: Option<Token>)
      requires Valid()
      modifies this
      ensures Valid()
      ensures old(Rest()) == [] ==> t == None && Rest() == []
      ensures old(Rest()) != [] ==> t == Some(old(Rest())[0]) && Rest() == old(Rest())[1..]
    {
      t := Peek();
      if pos < |tokens| {
        pos := pos + 1;
      }
    }

    /** A method that was to parse `spec` did: same error, or same expression and same tokens left. */
    ghost predicate Did(spec: ParseResult, r: Result<Expr, PolicyError>)
      requires Valid()
      reads this
    {
      match spec
      case Err(e) => r == Err(e)
      case Ok(p) => r == Ok(p.expr) && Rest() == p.rest
    }

    method ReadOr(ctx: Context) returns (r: Result<Expr, PolicyError>)
      requires Valid()
      modifies this
      ensures Valid() && Did(ParseOr(ctx, old(Rest())), r)
      decreases |Rest()|, 3
    {
      ghost var whole := ParseOr(ctx, Rest());
      r := ReadAnd(ctx);
      if r.Err? {
        return r;
      }
      var node := r.value;
      while Peek() == Some(TOr)
        invariant Valid() && |Rest()| < |old(Rest())|
        invariant whole == OrTail(ctx, node, Rest())
        decreases |Rest()|
      {
        var token := Next();
        r := ReadAnd(ctx);
        if r.Err? {
          return r;
        }
        node := CombineOr(node, r.value);
      }
      return Ok(node);
    }

    method ReadAnd(ctx: Context) returns (r: Result<Expr, PolicyError>)
      requires Valid()
      modifies this
      ensures Valid() && Did(ParseAnd(ctx, old(Rest())), r)
      decreases |Rest()|, 2
    {
      ghost var whole := ParseAnd(ctx, Rest());
      r := ReadPrimary(ctx);
      if r.Err? {
        return r;
      }
      var node := r.value;
      while Peek() == Some(TAnd)
        invariant Valid() && |Rest()| < |old(Rest())|
        invariant whole == AndTail(ctx, node, Rest())
        decreases |Rest()|
      {
        var token := Next();
        r := ReadPrimary(ctx);
        if r.Err? {
          return r;
        }
        node := CombineAnd(node, r.value);
      }
      return Ok(node);
    }

    method ReadPrimary(ctx: Context) returns (r: Result<Expr, PolicyError>)
      requires Valid()
      modifies this
      ensures Valid() && Did(ParsePrimary(ctx, old(Rest())), r)
      decreases |Rest()|, 1
    {
      var token := Next();
      match token
      case None => return Err(UnexpectedEnd);
      case Some(LParen) =>
        r := ReadOr(ctx);
        if r.Err? {
          return r;
        }
        var closing := Next();
        if closing != Some(RParen) {
          return Err(ParenthesisMismatch);
        }
      case Some(Ident(name)) =>
        if name == "pcr" {
          r := ReadPcrCall(ctx);
        } else if name == "secret" {
          r := ReadSecretCall(ctx);
        } else {
          r := ParseLiteral(name);
        }
      case Some(_) => return Err(InvalidToken);
    }

    method ReadPcrCall(ctx: Context) returns (r: Result<Expr, PolicyError>)
      requires Valid()
      modifies this
      ensures Valid() && Did(ParsePcrCall(ctx, old(Rest())), r)
    {
      var opening := Next();
      if opening.None? {
        return Err(UnexpectedEnd);
      }
      if opening.value != LParen {
        return Err(InvalidToken);
      }
      var buf := [];
      ghost var whole := PcrText(Rest());
      PrefixedNothing(whole);
      while true
        invariant Valid() && |Rest()| < |old(Rest())|
        invariant whole == Prefixed(buf, PcrText(Rest()))
        decreases |Rest()|
      {
        ghost var left := if Rest() == [] then [] else Rest()[1..];
        var token := Next();
        match token
        case Some(RParen) => break;
        case Some(Ident(s)) =>
          PrefixedTwice(buf, s, PcrText(left));
          buf := buf + s;
        case Some(Comma) =>
          PrefixedTwice(buf, ",", PcrText(left));
          buf := buf + ",";
        case Some(_) => return Err(InvalidToken);
        case None => return Err(UnexpectedEnd);
      }
      assert buf + [] == buf;
      var cut := RSplitOnce(buf, ':');
      if cut.Some? {
        var sels := ReadSelections(ctx, cut.value.0);
        var bytes := HexDecode(cut.value.1);
        if sels.Ok? && bytes.Some? && |bytes.value| <= MAX_DIGEST_SIZE {
          return Ok(Pcr(sels.value, Some(bytes.value)));
        }
      }
      var sels := ReadSelections(ctx, buf);
      if sels.Err? {
        return Err(sels.error);
      }
      return Ok(Pcr(sels.value, None));
    }

    method ReadSecretCall(ctx: Context) returns (r: Result<Expr, PolicyError>)
      requires Valid()
      modifies this
      ensures Valid() && Did(ParseSecretCall(ctx, old(Rest())), r)
      decreases |Rest()|, 4
    {
      var opening := Next();
      if opening.None? {
        return Err(UnexpectedEnd);
      }
      if opening.value != LParen {
        return Err(InvalidToken);
      }
      var auth := ReadOr(ctx);
      if auth.Err? {
        return Err(InvalidToken);
      }
      r := ReadSecretEnd(auth.value);
    }

    method ReadSecretEnd(auth: Expr) returns (r: Result<Expr, PolicyError>)
      requires Valid()
      modifies this
      ensures Valid() && Did(SecretEnd(auth, old(Rest())), r)
    {
      var copyRef: Option<Digest> := None;
      match Peek() {
        case None => return Err(UnexpectedEnd);
        case Some(RParen) =>
        case Some(Comma) =>
          var comma := Next();
          var argument := Next();
          if argument.None? {
            return Err(UnexpectedEnd);
          }
          if !argument.value.Ident? {
            return Err(InvalidToken);
          }
          var read := ParseCopyRef(argument.value.text);
          if read.Err? {
            return Err(read.error);
          }
          copyRef := read.value;
        case Some(_) => return Err(InvalidToken);
      }
      var closing := Next();
      if closing.None? {
        return Err(UnexpectedEnd);
      }
      if closing.value != RParen {
        return Err(InvalidToken);
      }
      return Ok(Secret(auth, copyRef));
    }
  }

  lemma PrefixedNothing(r: Result<CallText, PolicyError>)
    ensures Prefixed([], r) == r
  {
    if r.Ok? {
      assert [] + r.value.text == r.value.text;
    }
  }

  lemma PrefixedTwice(a: string, b: string, r: Result<CallText, PolicyError>)
    ensures Prefixed(a, Prefixed(b, r)) == Prefixed(a + b, r)
  {
    if r.Ok? {
      assert a + (b + r.value.text) == a + b + r.value.text;
    }
  }

  method ParseExpression(ctx: Context, input: string) returns (r: Result<Expr, PolicyError>)
    ensures r == Parse(ctx, input)
  {
    var tokens := Lex(input);
    var cursor := new TokenCursor(tokens);
    r := cursor.ReadOr(ctx);
    if r.Ok? && cursor.Peek().Some? {
      return Err(TrailingData);
    }
  }
}
