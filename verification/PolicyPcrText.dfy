/** The text of a PCR selection list, such as "sha1:0,1+sha256:7". */
module PolicyPcrText {
  import opened Wrappers
  import opened Bytes
  import opened Bits
  import opened Text
  import opened WireTypes
  import opened PolicyAst

  // ----- hash names -----

  function HashName(alg: AlgId): Option<string> {
    if alg == ALG_SHA1 then Some("sha1")
    else if alg == ALG_SHA256 then Some("sha256")
    else if alg == ALG_SHA384 then Some("sha384")
    else if alg == ALG_SHA512 then Some("sha512")
    else if alg == ALG_SM3_256 then Some("sm3-256")
    else if alg == ALG_SHA3_256 then Some("sha3-256")
    else if alg == ALG_SHA3_384 then Some("sha3-384")
    else if alg == ALG_SHA3_512 then Some("sha3-512")
    else if alg == ALG_SHAKE128 then Some("shake128")
    else if alg == ALG_SHAKE256 then Some("shake256")
    else None
  }

  function HashNamed(s: string): Option<AlgId> {
    if s == "sha1" then Some(ALG_SHA1)
    else if s == "sha256" then Some(ALG_SHA256)
    else if s == "sha384" then Some(ALG_SHA384)
    else if s == "sha512" then Some(ALG_SHA512)
    else if s == "sm3-256" then Some(ALG_SM3_256)
    else if s == "sha3-256" then Some(ALG_SHA3_256)
    else if s == "sha3-384" then Some(ALG_SHA3_384)
    else if s == "sha3-512" then Some(ALG_SHA3_512)
    else if s == "shake128" then Some(ALG_SHAKE128)
    else if s == "shake256" then Some(ALG_SHAKE256)
    else None
  }

  /** The text of an algorithm that is not a hash is its number, which no name reads back. */
  function AlgText(alg: AlgId): string {
    match HashName(alg)
    case Some(name) => name
    case None => "0x" + PrintPadded(alg, 4)
  }

  /** Characters of a printed PCR list. None of them is white space or a parenthesis, or occurs in "and" and "or". */
  predicate IsPcrChar(c: char) {
    IsDigit(c) || c in {'h', 'k', 'm', 's', 'x', '-', ':', ',', '+'}
  }

  predicate PcrChars(s: string) {
    forall i | 0 <= i < |s| :: IsPcrChar(s[i])
  }

  lemma HashNamesRead(alg: AlgId)
    ensures HashName(alg).Some? <==> alg in HASH_ALGS
    ensures HashName(alg).Some? ==> HashNamed(HashName(alg).value) == Some(alg)
  {
  }

  lemma HashNamedHash(s: string)
    ensures HashNamed(s).Some? ==> HashNamed(s).value in HASH_ALGS
  {
  }

  lemma AlgTextChars(alg: AlgId)
    ensures PcrChars(AlgText(alg)) && ':' !in AlgText(alg) && '+' !in AlgText(alg)
  {
    var s := AlgText(alg);
    if HashName(alg).None? {
      assert forall i | 0 <= i < |s| :: s[i] == 'x' || IsDigit(s[i]);
    }
  }

  // ----- printing -----

  function Numerals(indices: seq<nat>): (r: seq<string>)
    ensures |r| == |indices|
  {
    seq(|indices|, i requires 0 <= i < |indices| => PrintDecimal(indices[i]))
  }

  function PrintSelection(s: Selection): string {
    AlgText(s.hash) + ":" + Join(Numerals(SelectedFrom(s.select, 0)), ',')
  }

  function SelectionTexts(sels: seq<Selection>): (r: seq<string>)
    ensures |r| == |sels|
  {
    seq(|sels|, i requires 0 <= i < |sels| => PrintSelection(sels[i]))
  }

  function PrintSelections(sels: seq<Selection>): string {
    Join(SelectionTexts(sels), '+')
  }

  // ----- parsing -----

  function ReadNumbers(pieces: seq<string>): Option<seq<u32>> {
    if pieces == [] then Some([])
    else
      var first, rest := ParseUnsigned(pieces[0], 10, U32_COUNT), ReadNumbers(pieces[1..]);
      if first.None? || rest.None? then None else Some([first.value] + rest.value)
  }

  function SetRegister(select: seq<byte>, k: nat): (r: seq<byte>)
    requires k < 8 * |select|
    ensures |r| == |select|
  {
    OctetBound(select[k / 8], k % 8);
    select[k / 8 := BitOr(select[k / 8], Pow2(k % 8))]
  }

  lemma OctetBound(b: byte, i: nat)
    requires i < 8
    ensures BitOr(b, Pow2(i)) < 256
  {
    Pow2Grows(i, 8);
    assert Pow2(8) == 256 by {
      assert Pow2(2) == 4 && Pow2(4) == 16 && Pow2(6) == 64;
    }
    BitOrBound(b, Pow2(i), 8);
  }

  /** Sets the listed registers, all of which must be below `count`. */
  function SetRegisters(select: seq<byte>, indices: seq<nat>, count: nat): (r: Result<seq<byte>, PolicyError>)
    requires count <= 8 * |select|
    ensures r.Ok? ==> |r.value| == |select|
    decreases indices
  {
    if indices == [] then Ok(select)
    else if indices[0] >= count then Err(PcrIndexTooLarge)
    else SetRegisters(SetRegister(select, indices[0]), indices[1..], count)
  }

  function ParseSelection(ctx: Context, part: string): Result<Selection, PolicyError>
    requires BytesFor(ctx.pcrCount) <= PCR_SELECT_MAX
  {
    match SplitOnce(part, ':')
    case None => Err(InvalidPcrSelection)
    case Some(p) =>
      match HashNamed(p.0)
      case None => Err(InvalidPcrDigestAlgorithm)
      case Some(alg) =>
        if alg !in ctx.pcrs then Err(PcrBankNotAvailable(alg))
        else
          match ReadNumbers(Split(p.1, ','))
          case None => Err(InvalidPcrSelection)
          case Some(indices) =>
            match SetRegisters(Zeros(BytesFor(ctx.pcrCount)), indices, ctx.pcrCount)
            case Err(e) => Err(e)
            case Ok(select) => Ok(Selection(alg, select))
  }

  /** Reads one selection per part after `before` others; the list holds eight. */
  function ParseParts(ctx: Context, parts: seq<string>, before: nat): (r: Result<seq<Selection>, PolicyError>)
    requires BytesFor(ctx.pcrCount) <= PCR_SELECT_MAX
    ensures r.Ok? ==> |r.value| == |parts|
    ensures r.Ok? && parts != [] ==> before + |parts| <= SELECTIONS_MAX
  {
    if parts == [] then Ok([])
    else
      match ParseSelection(ctx, parts[0])
      case Err(e) => Err(e)
      case Ok(s) =>
        if before >= SELECTIONS_MAX then Err(PcrSelectionTooLarge)
        else ConsSelection(s, ParseParts(ctx, parts[1..], before + 1))
  }

  function ConsSelection(s: Selection, rest: Result<seq<Selection>, PolicyError>): Result<seq<Selection>, PolicyError> {
    if rest.Err? then rest else Ok([s] + rest.value)
  }

  function ParseSelections(ctx: Context, text: string): Result<Selections, PolicyError> {
    if BytesFor(ctx.pcrCount) > PCR_SELECT_MAX then Err(PcrSelectionTooLarge)
    else
      match ParseParts(ctx, Split(text, '+'), 0)
      case Err(e) => Err(e)
      case Ok(sels) => Ok(sels)
  }

  // ----- the loops -----

  method ReadSelection(ctx: Context, part: string) returns (r: Result<Selection, PolicyError>)
    requires BytesFor(ctx.pcrCount) <= PCR_SELECT_MAX
    ensures r == ParseSelection(ctx, part)
  {
    var split := SplitOnce(part, ':');
    if split.None? {
      return Err(InvalidPcrSelection);
    }
    var alg := HashNamed(split.value.0);
    if alg.None? {
      return Err(InvalidPcrDigestAlgorithm);
    }
    if alg.value !in ctx.pcrs {
      return Err(PcrBankNotAvailable(alg.value));
    }
    var numbers := ReadNumbers(Split(split.value.1, ','));
    if numbers.None? {
      return Err(InvalidPcrSelection);
    }
    var indices := numbers.value;
    var select: seq<byte> := Zeros(BytesFor(ctx.pcrCount));
    ghost var whole := SetRegisters(select, indices, ctx.pcrCount);
    var i := 0;
    assert indices[0..] == indices;
    while i < |indices|
      invariant i <= |indices| && |select| == BytesFor(ctx.pcrCount)
      invariant whole == SetRegisters(select, indices[i..], ctx.pcrCount)
    {
      assert indices[i..][0] == indices[i] && indices[i..][1..] == indices[i + 1..];
      var k := indices[i];
      if k >= ctx.pcrCount {
        return Err(PcrIndexTooLarge);
      }
      OctetBound(select[k / 8], k % 8);
      select := select[k / 8 := BitOr(select[k / 8], Pow2(k % 8))];
      i := i + 1;
    }
    return Ok(Selection(alg.value, select));
  }

  method ReadSelections(ctx: Context, text: string) returns (r: Result<Selections, PolicyError>)
    ensures r == ParseSelections(ctx, text)
  {
    if BytesFor(ctx.pcrCount) > PCR_SELECT_MAX {
      return Err(PcrSelectionTooLarge);
    }
    var parts := Split(text, '+');
    var list: seq<Selection>, i := [], 0;
    assert parts[0..] == parts;
    ghost var whole := ParseParts(ctx, parts, 0);
    PrependNothing(whole);
    while i < |parts|
      invariant i <= |parts| && |list| == i <= SELECTIONS_MAX
      invariant whole == Prepend(list, ParseParts(ctx, parts[i..], i))
    {
      assert parts[i..][0] == parts[i] && parts[i..][1..] == parts[i + 1..];
      var s := ReadSelection(ctx, parts[i]);
      if s.Err? {
        return Err(s.error);
      }
      if |list| == SELECTIONS_MAX {
        return Err(PcrSelectionTooLarge);
      }
      PrependCons(list, s.value, ParseParts(ctx, parts[i + 1..], i + 1));
      list := list + [s.value];
      i := i + 1;
    }
    assert list + [] == list;
    return Ok(list);
  }

  ghost function Prepend(list: seq<Selection>, rest: Result<seq<Selection>, PolicyError>)
    : Result<seq<Selection>, PolicyError>
  {
    if rest.Err? then rest else Ok(list + rest.value)
  }

  lemma PrependNothing(rest: Result<seq<Selection>, PolicyError>)
    ensures Prepend([], rest) == rest
  {
    if rest.Ok? {
      assert [] + rest.value == rest.value;
    }
  }

  lemma PrependCons(list: seq<Selection>, s: Selection, rest: Result<seq<Selection>, PolicyError>)
    ensures Prepend(list, ConsSelection(s, rest)) == Prepend(list + [s], rest)
  {
    if rest.Ok? {
      assert list + ([s] + rest.value) == list + [s] + rest.value;
    }
  }

  // ----- bitmaps and the registers they select -----

  lemma SetRegisterSelects(select: seq<byte>, j: nat, k: nat)
    requires j < 8 * |select|
    ensures Selected(SetRegister(select, j), k) <==> k == j || Selected(select, k)
  {
    if k / 8 == j / 8 {
      BitOrBits(select[j / 8], Pow2(j % 8), k % 8);
      Pow2Bits(j % 8, k % 8);
    }
  }

  lemma {:induction false} SetRegistersOk(select: seq<byte>, indices: seq<nat>, count: nat)
    requires count <= 8 * |select|
    ensures SetRegisters(select, indices, count).Ok? <==> forall i <- indices :: i < count
    decreases indices
  {
    if indices != [] {
      if indices[0] < count {
        SetRegistersOk(SetRegister(select, indices[0]), indices[1..], count);
        assert forall i :: i in indices <==> i == indices[0] || i in indices[1..];
      } else {
        assert indices[0] in indices;
      }
    }
  }

  /** Setting a list of registers selects them, besides what was selected before, and no others. */
  lemma {:induction false} SetRegistersSelect(select: seq<byte>, indices: seq<nat>, count: nat, k: nat)
    requires count <= 8 * |select| && SetRegisters(select, indices, count).Ok?
    ensures Selected(SetRegisters(select, indices, count).value, k) <==> k in indices || Selected(select, k)
    decreases indices
  {
    if indices != [] {
      SetRegisterSelects(select, indices[0], k);
      SetRegistersSelect(SetRegister(select, indices[0]), indices[1..], count, k);
      assert k in indices <==> k == indices[0] || k in indices[1..];
    }
  }

  lemma ZerosSelectNothing(n: nat, k: nat)
    ensures !Selected(Zeros(n), k)
  {
    BitOfZero(k % 8);
  }

  /** Setting the registers that a bitmap selects gives the bitmap. */
  lemma BitmapRoundTrip(select: seq<byte>, count: nat)
    requires count <= 8 * |select| && forall k <- SelectedFrom(select, 0) :: k < count
    ensures SetRegisters(Zeros(|select|), SelectedFrom(select, 0), count) == Ok(select)
  {
    var indices := SelectedFrom(select, 0);
    SetRegistersOk(Zeros(|select|), indices, count);
    var read := SetRegisters(Zeros(|select|), indices, count).value;
    forall k: nat
      ensures Selected(read, k) <==> Selected(select, k)
    {
      SetRegistersSelect(Zeros(|select|), indices, count, k);
      ZerosSelectNothing(|select|, k);
      SelectedFromMembers(select, 0, k);
    }
    SameSelection(read, select);
  }

  // ----- which selections a text can name -----

  /** A known hash with a bank, a bitmap of the right size, and at least one register, all in range. */
  predicate ParsableSelection(ctx: Context, s: Selection) {
    && s.hash in HASH_ALGS && s.hash in ctx.pcrs
    && |s.select| == BytesFor(ctx.pcrCount)
    && SelectedFrom(s.select, 0) != []
    && forall k <- SelectedFrom(s.select, 0) :: k < ctx.pcrCount
  }

  predicate ParsableSelections(ctx: Context, sels: seq<Selection>) {
    && BytesFor(ctx.pcrCount) <= PCR_SELECT_MAX
    && sels != []
    && forall s <- sels :: ParsableSelection(ctx, s)
  }

  lemma {:induction false} NumeralsRead(indices: seq<nat>)
    requires forall k <- indices :: k < U32_COUNT
    ensures ReadNumbers(Numerals(indices)) == Some(indices)
  {
    if indices != [] {
      assert indices[0] in indices && forall k <- indices[1..] :: k in indices;
      NumeralsRead(indices[1..]);
      DecimalRoundTrip(indices[0], U32_COUNT);
      assert Numerals(indices)[1..] == Numerals(indices[1..]);
      assert indices == [indices[0]] + indices[1..];
    }
  }

  lemma NumeralsSplit(indices: seq<nat>)
    requires indices != []
    ensures Split(Join(Numerals(indices), ','), ',') == Numerals(indices)
  {
    forall p <- Numerals(indices)
      ensures ',' !in p
    {
      assert AllDigits(p);
    }
    SplitJoin(Numerals(indices), ',');
  }

  lemma SelectionRoundTrip(ctx: Context, s: Selection)
    requires BytesFor(ctx.pcrCount) <= PCR_SELECT_MAX && ParsableSelection(ctx, s)
    ensures ParseSelection(ctx, PrintSelection(s)) == Ok(s)
  {
    var indices := SelectedFrom(s.select, 0);
    HashNamesRead(s.hash);
    AlgTextChars(s.hash);
    SplitOnceAt(AlgText(s.hash), Join(Numerals(indices), ','), ':');
    NumeralsSplit(indices);
    NumeralsRead(indices);
    BitmapRoundTrip(s.select, ctx.pcrCount);
  }

  /** Every selection that a part names is parsable. */
  lemma ParsedSelection(ctx: Context, part: string)
    requires BytesFor(ctx.pcrCount) <= PCR_SELECT_MAX && ParseSelection(ctx, part).Ok?
    ensures ParsableSelection(ctx, ParseSelection(ctx, part).value)
  {
    var text, s := SplitOnce(part, ':').value, ParseSelection(ctx, part).value;
    HashNamedHash(text.0);
    var pieces := Split(text.1, ',');
    var indices := ReadNumbers(pieces).value;
    assert indices != [];
    var size := BytesFor(ctx.pcrCount);
    forall k: nat
      ensures k in SelectedFrom(s.select, 0) <==> k in indices
    {
      SelectedFromMembers(s.select, 0, k);
      ZerosSelectNothing(size, k);
      SetRegistersSelect(Zeros(size), indices, ctx.pcrCount, k);
    }
    SetRegistersOk(Zeros(size), indices, ctx.pcrCount);
    assert indices[0] in indices && indices[0] in SelectedFrom(s.select, 0);
  }

  lemma PartsRoundTrip(ctx: Context, sels: seq<Selection>, before: nat)
    requires BytesFor(ctx.pcrCount) <= PCR_SELECT_MAX && before + |sels| <= SELECTIONS_MAX
    requires forall s <- sels :: ParsableSelection(ctx, s)
    ensures ParseParts(ctx, SelectionTexts(sels), before) == Ok(sels)
  {
    forall i | 0 <= i < |sels|
      ensures ParseSelection(ctx, SelectionTexts(sels)[i]) == Ok(sels[i])
    {
      SelectionTextAt(sels, i);
      SelectionRoundTrip(ctx, sels[i]);
    }
    PartsRead(ctx, SelectionTexts(sels), sels, before);
  }

  lemma {:induction false} SelectionTextAt(sels: seq<Selection>, i: nat)
    requires i < |sels|
    ensures SelectionTexts(sels)[i] == PrintSelection(sels[i])
  {
    if i > 0 {
      SelectionTextAt(sels[1..], i - 1);
    }
  }

  /** Parts that are read one by one are read as a list. */
  lemma {:induction false} PartsRead(ctx: Context, parts: seq<string>, sels: seq<Selection>, before: nat)
    requires BytesFor(ctx.pcrCount) <= PCR_SELECT_MAX && |parts| == |sels| && before + |sels| <= SELECTIONS_MAX
    requires forall i | 0 <= i < |sels| :: ParseSelection(ctx, parts[i]) == Ok(sels[i])
    ensures ParseParts(ctx, parts, before) == Ok(sels)
  {
    if sels != [] {
      PartsRead(ctx, parts[1..], sels[1..], before + 1);
      assert sels == [sels[0]] + sels[1..];
    }
  }

  lemma {:induction false} JoinChars(pieces: seq<string>, c: char)
    requires IsPcrChar(c) && forall p <- pieces :: PcrChars(p)
    ensures PcrChars(Join(pieces, c))
  {
    assert pieces != [] ==> pieces[0] in pieces;
    if |pieces| > 1 {
      JoinChars(pieces[1..], c);
    }
  }

  lemma {:induction false} JoinAvoids(pieces: seq<string>, c: char, d: char)
    requires c != d && forall p <- pieces :: d !in p
    ensures d !in Join(pieces, c)
  {
    if |pieces| > 1 {
      JoinAvoids(pieces[1..], c, d);
    }
  }

  lemma NumeralsChars(indices: seq<nat>)
    ensures PcrChars(Join(Numerals(indices), ','))
    ensures '+' !in Join(Numerals(indices), ',') && ':' !in Join(Numerals(indices), ',')
  {
    forall p <- Numerals(indices)
      ensures PcrChars(p) && '+' !in p && ':' !in p
    {
      assert AllDigits(p);
    }
    JoinChars(Numerals(indices), ',');
    JoinAvoids(Numerals(indices), ',', '+');
    JoinAvoids(Numerals(indices), ',', ':');
  }

  lemma SelectionChars(s: Selection)
    ensures PcrChars(PrintSelection(s)) && '+' !in PrintSelection(s)
  {
    AlgTextChars(s.hash);
    NumeralsChars(SelectedFrom(s.select, 0));
  }

  lemma SelectionsChars(sels: seq<Selection>)
    ensures PcrChars(PrintSelections(sels))
    ensures forall p <- SelectionTexts(sels) :: '+' !in p
  {
    forall p <- SelectionTexts(sels)
      ensures PcrChars(p) && '+' !in p
    {
      var i :| 0 <= i < |sels| && p == PrintSelection(sels[i]);
      SelectionChars(sels[i]);
    }
    JoinChars(SelectionTexts(sels), '+');
  }

  /** Reading a printed selection list gives it back. */
  lemma SelectionsRoundTrip(ctx: Context, sels: Selections)
    requires ParsableSelections(ctx, sels)
    ensures ParseSelections(ctx, PrintSelections(sels)) == Ok(sels)
  {
    SelectionsChars(sels);
    SplitJoin(SelectionTexts(sels), '+');
    PartsRoundTrip(ctx, sels, 0);
  }

  lemma {:induction false} ParsedParts(ctx: Context, parts: seq<string>, before: nat)
    requires BytesFor(ctx.pcrCount) <= PCR_SELECT_MAX && ParseParts(ctx, parts, before).Ok?
    ensures forall s <- ParseParts(ctx, parts, before).value :: ParsableSelection(ctx, s)
  {
    if parts != [] {
      ParsedSelection(ctx, parts[0]);
      ParsedParts(ctx, parts[1..], before + 1);
    }
  }

  /** Every selection list that a text names is parsable. */
  lemma ParsedSelections(ctx: Context, text: string)
    requires ParseSelections(ctx, text).Ok?
    ensures ParsableSelections(ctx, ParseSelections(ctx, text).value)
  {
    ParsedParts(ctx, Split(text, '+'), 0);
  }

  /** The last colon of a printed list follows the hash name of its last selection. */
  lemma LastColon(sels: Selections, last: nat)
    requires |sels| == last + 1
    ensures RSplitOnce(PrintSelections(sels), ':')
            == Some((FrontOf(SelectionTexts(sels)[..last], '+') + AlgText(sels[last].hash),
                     Join(Numerals(SelectedFrom(sels[last].select, 0)), ',')))
  {
    var front, name := FrontOf(SelectionTexts(sels)[..last], '+'), AlgText(sels[last].hash);
    var numbers := Join(Numerals(SelectedFrom(sels[last].select, 0)), ',');
    NumeralsChars(SelectedFrom(sels[last].select, 0));
    JoinLast(SelectionTexts(sels), '+');
    CutAfter(front, name, numbers);
  }

  lemma CutAfter(front: string, name: string, numbers: string)
    requires ':' !in numbers
    ensures RSplitOnce(front + (name + ":" + numbers), ':') == Some((front + name, numbers))
  {
    assert front + (name + ":" + numbers) == (front + name) + [':'] + numbers;
    RSplitOnceAt(front + name, numbers, ':');
  }

  /** A list cut off before its last colon is no list: the last part has lost its registers. */
  lemma CutSelectionsFail(ctx: Context, sels: Selections)
    requires sels != []
    ensures var cut := RSplitOnce(PrintSelections(sels), ':');
            cut.Some? && ParseSelections(ctx, cut.value.0).Err?
  {
    var last := |sels| - 1;
    var name, texts := AlgText(sels[last].hash), SelectionTexts(sels)[..last];
    LastColon(sels, last);
    if BytesFor(ctx.pcrCount) <= PCR_SELECT_MAX {
      AlgTextChars(sels[last].hash);
      SelectionsChars(sels);
      SplitFront(texts, name, '+');
      LastPartFails(ctx, texts + [name], 0);
    }
  }

  /** The pieces of a list that is to be continued, each with its delimiter. */
  ghost function FrontOf(pieces: seq<string>, c: char): string {
    if pieces == [] then [] else pieces[0] + [c] + FrontOf(pieces[1..], c)
  }

  lemma {:induction false} JoinLast(pieces: seq<string>, c: char)
    requires pieces != []
    ensures Join(pieces, c) == FrontOf(pieces[..|pieces| - 1], c) + pieces[|pieces| - 1]
  {
    if |pieces| > 1 {
      JoinLast(pieces[1..], c);
      assert pieces[1..][..|pieces| - 2] == pieces[..|pieces| - 1][1..];
    }
  }

  lemma {:induction false} SplitFront(pieces: seq<string>, last: string, c: char)
    requires c !in last && forall p <- pieces :: c !in p
    ensures Split(FrontOf(pieces, c) + last, c) == pieces + [last]
  {
    if pieces == [] {
      assert FrontOf(pieces, c) + last == last;
      SplitNone(last, c);
    } else {
      var tail := FrontOf(pieces[1..], c);
      SplitFront(pieces[1..], last, c);
      SplitPrefix(pieces[0], tail + last, c);
      assert FrontOf(pieces, c) == pieces[0] + [c] + tail;
      assert pieces[0] + [c] + tail + last == pieces[0] + [c] + (tail + last);
      assert pieces + [last] == [pieces[0]] + (pieces[1..] + [last]);
    }
  }

  lemma {:induction false} LastPartFails(ctx: Context, parts: seq<string>, before: nat)
    requires BytesFor(ctx.pcrCount) <= PCR_SELECT_MAX && parts != [] && ':' !in parts[|parts| - 1]
    ensures ParseParts(ctx, parts, before).Err?
  {
    if |parts| > 1 {
      LastPartFails(ctx, parts[1..], before + 1);
    }
  }
}
