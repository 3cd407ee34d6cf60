/** Handle patterns: eight hexadecimal digits in which `?` stands for one digit and `*` for all that are missing. */
module HandlePattern {
  import opened Wrappers
  import opened Bytes
  import opened Bits
  import opened Text

  datatype HandleError =
    | HandleHasTooManyAsterisks
    | HandleTooShort
    | HandleTooLong
    | InvalidHandleCharacter(c: char)

  /** A handle matches when its bits under the mask are the value. */
  datatype Pattern = Pattern(mask: nat, value: nat) {
    predicate Matches(handle: u32) {
      BitAnd(handle, mask) == value
    }
  }

  // ----- parsing -----

  function Asterisks(s: string): (n: nat)
    ensures n <= |s|
  {
    if s == [] then 0 else (if s[0] == '*' then 1 else 0) + Asterisks(s[1..])
  }

  /** The length of the text in UTF-8. */
  function ByteLen(s: string): (n: nat)
    ensures n >= |s|
  {
    if s == [] then 0
    else
      var c := s[0] as int;
      (if c < 0x80 then 1 else if c < 0x800 then 2 else if c < 0x1_0000 then 3 else 4) + ByteLen(s[1..])
  }

  /** One position of a pattern: a digit, or any. */
  type Cell = Option<nat>

  function AnyCells(n: nat): (cells: seq<Cell>)
    ensures |cells| == n
  {
    seq(n, _ => None)
  }

  /** The positions the text describes, `*` standing for `padding` of them; the first bad character is reported. */
  function Cells(s: string, padding: nat): Result<seq<Cell>, HandleError> {
    if s == [] then Ok([])
    else if s[0] == '*' then Before(AnyCells(padding), Cells(s[1..], padding))
    else
      match DigitValue(s[0])
      case Some(v) => Before([Some(v)], Cells(s[1..], padding))
      case None => if s[0] == '?' then Before([None], Cells(s[1..], padding)) else Err(InvalidHandleCharacter(s[0]))
  }

  function Before(cells: seq<Cell>, rest: Result<seq<Cell>, HandleError>): Result<seq<Cell>, HandleError> {
    if rest.Err? then rest else Ok(cells + rest.value)
  }

  function MaskOf(cells: seq<Cell>): nat {
    if cells == [] then 0
    else 16 * MaskOf(cells[..|cells| - 1]) + if cells[|cells| - 1].Some? then 15 else 0
  }

  function ValueOf(cells: seq<Cell>): nat {
    if cells == [] then 0
    else 16 * ValueOf(cells[..|cells| - 1]) + if cells[|cells| - 1].Some? then cells[|cells| - 1].value else 0
  }

  /** Why a text of this length with this many asterisks is refused before its characters are looked at. */
  function LengthFault(s: string): Option<HandleError> {
    var stars := Asterisks(s);
    var explicit := ByteLen(s) - stars;
    if stars > 1 then Some(HandleHasTooManyAsterisks)
    else if stars == 0 && explicit < 8 then Some(HandleTooShort)
    else if explicit > 8 then Some(HandleTooLong)
    else None
  }

  function Parse(s: string): Result<Pattern, HandleError> {
    if s == "*" then Ok(Pattern(0, 0))
    else
      match LengthFault(s)
      case Some(e) => Err(e)
      case None =>
        match Cells(s, 8 - (ByteLen(s) - Asterisks(s)))
        case Err(e) => Err(e)
        case Ok(cells) => Ok(Pattern(MaskOf(cells), ValueOf(cells)))
  }

  // ----- the loop -----

  /** Digits placed at the front of eight. */
  function Shifted(n: nat, digits: nat): nat
    requires digits <= 8
  {
    ShiftLeft(n, 4 * (8 - digits))
  }

  /** Setting the next digit of a number whose later digits are clear. */
  lemma NextDigit(n: nat, digits: nat, d: nat)
    requires digits < 8 && d < 16
    ensures BitOr(Shifted(n, digits), ShiftLeft(d, 4 * (7 - digits))) == Shifted(16 * n + d, digits + 1)
  {
    var k := 4 * (7 - digits);
    assert Pow2(2) == 4 && Pow2(4) == 16;
    ShiftBound(d, 4, k);
    OrDisjoint(n, k + 4, ShiftLeft(d, k));
    ShiftDigit(n, k);
    ShiftSum(16 * n, d, k);
  }

  lemma SkipDigit(n: nat, digits: nat)
    requires digits < 8
    ensures Shifted(n, digits) == Shifted(16 * n, digits + 1)
  {
    ShiftDigit(n, 4 * (7 - digits));
  }

  lemma OneMore(done: seq<Cell>, cell: Cell)
    ensures MaskOf(done + [cell]) == 16 * MaskOf(done) + if cell.Some? then 15 else 0
    ensures ValueOf(done + [cell]) == 16 * ValueOf(done) + if cell.Some? then cell.value else 0
  {
    assert (done + [cell])[..|done|] == done;
  }

  lemma {:induction false} SkipDigits(done: seq<Cell>, padding: nat)
    requires |done| + padding <= 8
    ensures |done + AnyCells(padding)| == |done| + padding
    ensures Shifted(MaskOf(done + AnyCells(padding)), |done| + padding) == Shifted(MaskOf(done), |done|)
    ensures Shifted(ValueOf(done + AnyCells(padding)), |done| + padding) == Shifted(ValueOf(done), |done|)
  {
    if padding == 0 {
      assert done + AnyCells(0) == done;
    } else {
      var most := done + AnyCells(padding - 1);
      SkipDigits(done, padding - 1);
      assert done + AnyCells(padding) == most + [None];
      OneMore(most, None);
      SkipDigit(MaskOf(most), |most|);
      SkipDigit(ValueOf(most), |most|);
    }
  }

  /** The pattern bits of the positions filled so far. */
  ghost predicate Built(done: seq<Cell>, mask: nat, value: nat) {
    |done| <= 8 && mask == Shifted(MaskOf(done), |done|) && value == Shifted(ValueOf(done), |done|)
  }

  lemma BuiltDigit(done: seq<Cell>, mask: nat, value: nat, v: nat, shift: nat)
    requires Built(done, mask, value) && |done| < 8 && v < 16 && shift == 4 * (7 - |done|)
    ensures Built(done + [Some(v)], BitOr(mask, ShiftLeft(15, shift)), BitOr(value, ShiftLeft(v, shift)))
  {
    OneMore(done, Some(v));
    NextDigit(MaskOf(done), |done|, 15);
    NextDigit(ValueOf(done), |done|, v);
  }

  lemma BuiltAny(done: seq<Cell>, mask: nat, value: nat)
    requires Built(done, mask, value) && |done| < 8
    ensures Built(done + [None], mask, value)
  {
    OneMore(done, None);
    SkipDigit(MaskOf(done), |done|);
    SkipDigit(ValueOf(done), |done|);
  }

  lemma BuiltSkip(done: seq<Cell>, mask: nat, value: nat, padding: nat)
    requires Built(done, mask, value) && |done| + padding <= 8
    ensures Built(done + AnyCells(padding), mask, value)
  {
    SkipDigits(done, padding);
  }

  lemma BuiltAll(cells: seq<Cell>, mask: nat, value: nat)
    requires Built(cells, mask, value) && |cells| == 8
    ensures mask == MaskOf(cells) && value == ValueOf(cells)
  {
  }

  /** The positions that the rest of a text can still fill. */
  function Room(s: string, padding: nat): nat {
    |s| - Asterisks(s) + padding * Asterisks(s)
  }

  lemma RoomStep(s: string, padding: nat)
    requires s != []
    ensures Room(s, padding) == (if s[0] == '*' then padding else 1) + Room(s[1..], padding)
  {
    assert padding * (1 + Asterisks(s[1..])) == padding + padding * Asterisks(s[1..]);
  }

  lemma BeforeTwice(a: seq<Cell>, b: seq<Cell>, rest: Result<seq<Cell>, HandleError>)
    ensures Before(a, Before(b, rest)) == Before(a + b, rest) && Before([], rest) == rest
  {
    if rest.Ok? {
      assert a + (b + rest.value) == a + b + rest.value && [] + rest.value == rest.value;
    }
  }

  /** A text of valid characters has one byte each, and describes as many positions as there is room for. */
  lemma {:induction false} CellsCount(s: string, padding: nat)
    ensures Cells(s, padding).Ok? ==> ByteLen(s) == |s| && |Cells(s, padding).value| == Room(s, padding)
  {
    if s != [] {
      RoomStep(s, padding);
      CellsCount(s[1..], padding);
    }
  }

  method FromStr(s: string) returns (r: Result<Pattern, HandleError>)
    ensures r == Parse(s)
  {
    if s == "*" {
      return Ok(Pattern(0, 0));
    }
    var stars := Asterisks(s);
    if stars > 1 {
      return Err(HandleHasTooManyAsterisks);
    }
    var explicit := ByteLen(s) - stars;
    if stars == 0 {
      if explicit < 8 {
        return Err(HandleTooShort);
      }
      if explicit > 8 {
        return Err(HandleTooLong);
      }
    } else if explicit > 8 {
      return Err(HandleTooLong);
    }
    var padding := 8 - explicit;
    CellsCount(s, padding);
    r := ReadCells(s, padding);
  }

  /** Sets mask and value digit by digit, the most significant first. */
  method ReadCells(s: string, padding: nat) returns (r: Result<Pattern, HandleError>)
    requires Room(s, padding) <= 8
    requires Cells(s, padding).Ok? ==> Room(s, padding) == 8
    ensures r == match Cells(s, padding)
                 case Err(e) => Err(e)
                 case Ok(cells) => Ok(Pattern(MaskOf(cells), ValueOf(cells)))
  {
    var mask, value, nibble: int := 0, 0, 7;
    ghost var done: seq<Cell> := [];
    ghost var all := Cells(s, padding);
    BeforeTwice([], [], all);
    assert s[0..] == s;
    BuiltNone();
    var i := 0;
    while i < |s|
      invariant i <= |s| && |done| + Room(s[i..], padding) <= 8 && nibble == 7 - |done|
      invariant all == Before(done, Cells(s[i..], padding)) && Built(done, mask, value)
    {
      var c := s[i];
      CellsStep(s[i..], padding, done);
      assert s[i..][0] == c && s[i..][1..] == s[i + 1..];
      if c == '*' {
        BuiltSkip(done, mask, value, padding);
        done := done + AnyCells(padding);
        nibble := nibble - padding;
      } else {
        var digit := DigitValue(c);
        if digit.None? && c != '?' {
          return Err(InvalidHandleCharacter(c));
        }
        var shift := 4 * nibble;
        if digit.Some? {
          BuiltDigit(done, mask, value, digit.value, shift);
          mask, value := BitOr(mask, ShiftLeft(0xF, shift)), BitOr(value, ShiftLeft(digit.value, shift));
        } else {
          BuiltAny(done, mask, value);
        }
        done := done + [digit];
        nibble := nibble - 1;
      }
      i := i + 1;
    }
    assert s[i..] == [] && done + [] == done;
    CellsCount(s, padding);
    BuiltAll(done, mask, value);
    return Ok(Pattern(mask, value));
  }

  lemma {:induction false} ShiftZero(k: nat)
    ensures ShiftLeft(0, k) == 0
  {
    if k > 0 {
      ShiftZero(k - 1);
    }
  }

  lemma BuiltNone()
    ensures Built([], 0, 0)
  {
    ShiftZero(32);
  }

  /** What one character adds to the positions read so far. */
  lemma CellsStep(rest: string, padding: nat, done: seq<Cell>)
    requires rest != []
    ensures Room(rest, padding) == (if rest[0] == '*' then padding else 1) + Room(rest[1..], padding)
    ensures Before(done, Cells(rest, padding))
            == if rest[0] == '*' then Before(done + AnyCells(padding), Cells(rest[1..], padding))
               else if DigitValue(rest[0]).None? && rest[0] != '?' then Err(InvalidHandleCharacter(rest[0]))
               else Before(done + [DigitValue(rest[0])], Cells(rest[1..], padding))
  {
    RoomStep(rest, padding);
    BeforeTwice(done, AnyCells(padding), Cells(rest[1..], padding));
    BeforeTwice(done, [DigitValue(rest[0])], Cells(rest[1..], padding));
  }

  /** Exactly these texts are patterns: at most one asterisk, and eight digits or question marks where there is none. */
  lemma ParseAccepts(s: string)
    ensures Parse(s).Ok? <==>
              && Asterisks(s) <= 1
              && (if Asterisks(s) == 0 then |s| == 8 else |s| <= 9)
              && forall i | 0 <= i < |s| :: s[i] == '*' || s[i] == '?' || DigitValue(s[i]).Some?
  {
    var padding := if 8 <= ByteLen(s) - Asterisks(s) then 0 else 8 - (ByteLen(s) - Asterisks(s));
    CellsOk(s, padding);
    if Cells(s, padding).Ok? {
      CellsCount(s, padding);
    }
  }

  lemma {:induction false} CellsOk(s: string, padding: nat)
    ensures Cells(s, padding).Ok? <==> forall i | 0 <= i < |s| :: s[i] == '*' || s[i] == '?' || DigitValue(s[i]).Some?
  {
    if s != [] {
      CellsOk(s[1..], padding);
      assert forall i | 0 < i < |s| :: s[i] == s[1..][i - 1];
    }
  }

  // ----- matching is globbing -----

  /** The `n` low-order hexadecimal digits of a handle, most significant first. */
  function HexDigits(x: nat, n: nat): (ds: seq<nat>)
    ensures |ds| == n
  {
    if n == 0 then [] else HexDigits(x / 16, n - 1) + [x % 16]
  }

  /** Glob matching of a text against a list of digits. */
  ghost predicate Glob(p: string, ds: seq<nat>)
    decreases p
  {
    if p == [] then ds == []
    else if p[0] == '*' then exists k | 0 <= k <= |ds| :: Glob(p[1..], ds[k..])
    else ds != [] && (p[0] == '?' || IsHexDigit(p[0], ds[0])) && Glob(p[1..], ds[1..])
  }

  predicate Fits(cells: seq<Cell>, ds: seq<nat>) {
    |cells| == |ds| && forall i | 0 <= i < |cells| :: cells[i].Some? ==> cells[i].value == ds[i]
  }

  predicate HexCells(cells: seq<Cell>) {
    forall i | 0 <= i < |cells| :: cells[i].Some? ==> cells[i].value < 16
  }

  lemma AndDigit(x: nat, d: nat, m: nat)
    requires d < 16
    ensures BitAnd(16 * x + d, 16 * m + 15) == 16 * BitAnd(x, m) + d
    ensures BitAnd(16 * x + d, 16 * m) == 16 * BitAnd(x, m)
  {
    assert Pow2(2) == 4 && Pow2(4) == 16;
    ShiftDigit(x, 0);
    ShiftDigit(m, 0);
    ShiftDigit(BitAnd(x, m), 0);
    AndLowBits(x, d, m, 4);
  }

  /** Masking a number gives the value of the cells exactly when its digits fit them. */
  lemma {:induction false} MaskFits(cells: seq<Cell>, x: nat)
    requires HexCells(cells) && x < Pow16(|cells|)
    ensures BitAnd(x, MaskOf(cells)) == ValueOf(cells) <==> Fits(cells, HexDigits(x, |cells|))
  {
    if cells != [] {
      var n := |cells| - 1;
      var front, last := cells[..n], cells[n];
      MaskFits(front, x / 16);
      AndDigit(x / 16, x % 16, MaskOf(front));
      FitsLast(front, last, HexDigits(x / 16, n), x % 16);
      assert cells == front + [last];
    }
  }

  lemma FitsLast(front: seq<Cell>, last: Cell, ds: seq<nat>, d: nat)
    requires |front| == |ds|
    ensures Fits(front + [last], ds + [d]) <==> Fits(front, ds) && (last.Some? ==> last.value == d)
  {
    assert (front + [last])[|front|] == last && (ds + [d])[|ds|] == d;
    assert forall i | 0 <= i < |front| :: (front + [last])[i] == front[i] && (ds + [d])[i] == ds[i];
  }

  lemma {:induction false} CellsHex(s: string, padding: nat)
    requires Cells(s, padding).Ok?
    ensures HexCells(Cells(s, padding).value)
  {
    if s != [] {
      CellsHex(s[1..], padding);
    }
  }

  lemma {:induction false} GlobLength(p: string, ds: seq<nat>)
    requires Asterisks(p) == 0 && Glob(p, ds)
    ensures |ds| == |p|
  {
    if p != [] {
      GlobLength(p[1..], ds[1..]);
    }
  }

  lemma FitsFront(a: seq<Cell>, rest: seq<Cell>, ds: seq<nat>)
    requires |ds| == |a| + |rest|
    ensures Fits(a + rest, ds) <==> Fits(a, ds[..|a|]) && Fits(rest, ds[|a|..])
  {
    var cells := a + rest;
    assert forall i | 0 <= i < |a| :: cells[i] == a[i] && ds[i] == ds[..|a|][i];
    assert forall i | 0 <= i < |rest| :: cells[|a| + i] == rest[i] && ds[|a| + i] == ds[|a|..][i];
  }

  /** A text with at most one asterisk globs exactly the digits that fit its cells. */
  lemma {:induction false} GlobFits(p: string, padding: nat, ds: seq<nat>)
    requires Cells(p, padding).Ok? && Asterisks(p) <= 1 && |ds| == |Cells(p, padding).value|
    ensures Glob(p, ds) <==> Fits(Cells(p, padding).value, ds)
  {
    if p != [] {
      var rest := Cells(p[1..], padding).value;
      if p[0] == '*' {
        CellsCount(p[1..], padding);
        GlobFits(p[1..], padding, ds[padding..]);
        GlobStar(p, padding, ds);
        FitsFront(AnyCells(padding), rest, ds);
      } else {
        GlobFits(p[1..], padding, ds[1..]);
        FitsFront([DigitValue(p[0])], rest, ds);
        assert ds[..1] == [ds[0]];
        DigitTable(p[0], ds[0]);
      }
    }
  }

  /** An asterisk before a text without one stands for exactly the digits the text leaves over. */
  lemma GlobStar(p: string, padding: nat, ds: seq<nat>)
    requires p != [] && p[0] == '*' && Asterisks(p[1..]) == 0 && |ds| == padding + |p[1..]|
    ensures Glob(p, ds) <==> Glob(p[1..], ds[padding..])
  {
    forall k | 0 <= k <= |ds| && Glob(p[1..], ds[k..])
      ensures k == padding
    {
      GlobLength(p[1..], ds[k..]);
    }
  }

  lemma StarGlobsAll(ds: seq<nat>)
    ensures Glob("*", ds)
  {
    var p := "*";
    assert p[1..] == [] && ds[|ds|..] == [];
    assert Glob(p[1..], ds[|ds|..]);
  }

  /** A parsed pattern matches exactly the handles whose eight digits the text globs. */
  lemma PatternIsGlob(s: string, handle: u32)
    requires Parse(s).Ok?
    ensures Parse(s).value.Matches(handle) <==> Glob(s, HexDigits(handle, 8))
  {
    if s == "*" {
      AndZero(handle);
      StarGlobsAll(HexDigits(handle, 8));
    } else {
      var padding := 8 - (ByteLen(s) - Asterisks(s));
      CellsCount(s, padding);
      CellsGlob(s, padding, handle);
    }
  }

  lemma CellsGlob(s: string, padding: nat, handle: u32)
    requires Cells(s, padding).Ok? && Asterisks(s) <= 1 && Room(s, padding) == 8
    ensures BitAnd(handle, MaskOf(Cells(s, padding).value)) == ValueOf(Cells(s, padding).value)
            <==> Glob(s, HexDigits(handle, 8))
  {
    CellsCount(s, padding);
    CellsHex(s, padding);
    Pow16Values();
    MaskFits(Cells(s, padding).value, handle);
    GlobFits(s, padding, HexDigits(handle, 8));
  }

  // ----- printing -----

  /** The `n` low-order digits of a pattern, most significant first. */
  function PrintDigits(mask: nat, value: nat, n: nat): (s: string)
    ensures |s| == n
  {
    if n == 0 then []
    else PrintDigits(mask / 16, value / 16, n - 1) + [if mask % 16 == 15 then Digit(value % 16) else '?']
  }

  function Print(p: Pattern): string {
    if p.mask == 0 then "*" else PrintDigits(p.mask, p.value, 8)
  }

  lemma {:induction false} CellsAppend(s: string, c: char, cell: Cell)
    requires Asterisks(s) == 0 && Cells(s, 0).Ok? && c != '*'
    requires cell == DigitValue(c) && (cell.None? ==> c == '?')
    ensures Asterisks(s + [c]) == 0 && Cells(s + [c], 0) == Ok(Cells(s, 0).value + [cell])
  {
    var t := s + [c];
    if s == [] {
      assert t[1..] == [] && [cell] + [] == [] + [cell];
      assert Cells([], 0) == Ok([]) && Asterisks([]) == 0;
    } else {
      assert t[1..] == s[1..] + [c];
      CellsAppend(s[1..], c, cell);
      var first, rest := [DigitValue(s[0])], Cells(s[1..], 0).value;
      assert first + (rest + [cell]) == first + rest + [cell];
    }
  }

  /** The digits printed for a pattern of cells describe those cells again. */
  lemma {:induction false} PrintedCells(cells: seq<Cell>)
    requires HexCells(cells)
    ensures var s := PrintDigits(MaskOf(cells), ValueOf(cells), |cells|);
            Asterisks(s) == 0 && Cells(s, 0) == Ok(cells)
  {
    if cells != [] {
      var n := |cells| - 1;
      var front, last := cells[..n], cells[n];
      PrintedCells(front);
      assert cells == front + [last];
      PrintedDigit(MaskOf(front), ValueOf(front), last, n);
      CellsAppend(PrintDigits(MaskOf(front), ValueOf(front), n), CellChar(last), last);
    }
  }

  function CellChar(cell: Cell): char
    requires cell.Some? ==> cell.value < 16
  {
    if cell.Some? then Digit(cell.value) else '?'
  }

  lemma PrintedDigit(mask: nat, value: nat, cell: Cell, n: nat)
    requires cell.Some? ==> cell.value < 16
    ensures PrintDigits(16 * mask + if cell.Some? then 15 else 0,
                        16 * value + if cell.Some? then cell.value else 0, n + 1)
            == PrintDigits(mask, value, n) + [CellChar(cell)]
  {
    if cell.Some? {
      LastDigit(mask, 15);
      LastDigit(value, cell.value);
    } else {
      LastDigit(mask, 0);
      LastDigit(value, 0);
    }
  }

  lemma LastDigit(x: nat, d: nat)
    requires d < 16
    ensures (16 * x + d) / 16 == x && (16 * x + d) % 16 == d
  {
  }

  lemma {:induction false} MaskZero(cells: seq<Cell>)
    requires MaskOf(cells) == 0
    ensures ValueOf(cells) == 0
  {
    if cells != [] {
      MaskZero(cells[..|cells| - 1]);
    }
  }

  lemma PrintedParses(cells: seq<Cell>)
    requires |cells| == 8 && HexCells(cells)
    ensures Parse(PrintDigits(MaskOf(cells), ValueOf(cells), 8)) == Ok(Pattern(MaskOf(cells), ValueOf(cells)))
  {
    PrintedCells(cells);
    CellsCount(PrintDigits(MaskOf(cells), ValueOf(cells), 8), 0);
  }

  /** Parsing the printed form of a parsed pattern gives the same mask and value. */
  lemma PrintRoundTrip(s: string)
    requires Parse(s).Ok?
    ensures Parse(Print(Parse(s).value)) == Parse(s)
  {
    if s != "*" {
      var padding := 8 - (ByteLen(s) - Asterisks(s));
      var cells := Cells(s, padding).value;
      CellsCount(s, padding);
      CellsHex(s, padding);
      assert Parse(s) == Ok(Pattern(MaskOf(cells), ValueOf(cells))) && |cells| == 8;
      if MaskOf(cells) == 0 {
        MaskZero(cells);
      } else {
        PrintedParses(cells);
      }
    }
  }

  // ----- patterns written out -----

  /** The digits of a handle, the most significant first. */
  lemma DigitsExample()
    ensures HexDigits(0x8100_002A, 8) == [8, 1, 0, 0, 0, 0, 2, 10]
  {
  }

  lemma RefusedExamples()
    ensures Parse("8100000") == Err(HandleTooShort)
    ensures Parse("810000000") == Err(HandleTooLong)
    ensures Parse("8*0*") == Err(HandleHasTooManyAsterisks)
    ensures Parse("") == Err(HandleTooShort)
  {
  }

  lemma RefusedCharacter()
    ensures Parse("8100000g") == Err(InvalidHandleCharacter('g'))
  {
  }

  /** A printed digit is the value's where the mask has one, and a question mark elsewhere. */
  lemma {:induction false} PrintedDigitAt(mask: nat, value: nat, n: nat, k: nat)
    requires k < n
    ensures PrintDigits(mask, value, n)[k]
            == if HexDigits(mask, n)[k] == 15 then LOWER_DIGITS[HexDigits(value, n)[k] % 16] else '?'
  {
    if k == n - 1 {
      PrintedDigitTable(value % 16);
    } else {
      PrintedDigitAt(mask / 16, value / 16, n - 1, k);
    }
  }

  /** A pattern is printed as an asterisk if it fits every handle, and else digit by digit. */
  lemma Printed(p: Pattern, k: nat)
    requires k < 8
    ensures p.mask == 0 ==> Print(p) == "*"
    ensures p.mask != 0 ==> |Print(p)| == 8
                            && Print(p)[k] == if HexDigits(p.mask, 8)[k] == 15
                                              then LOWER_DIGITS[HexDigits(p.value, 8)[k] % 16] else '?'
  {
    PrintedDigitAt(p.mask, p.value, 8, k);
  }
}
