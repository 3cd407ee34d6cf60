/** Reading every register of every active PCR bank from a device that answers a part at a time. */
module PcrReader {
  import opened Wrappers
  import opened Bytes
  import opened Bits
  import opened WireTypes
  import opened PolicyAst

  datatype ReadError =
    | CapacityExceeded
    | NoResponse(what: DeviceError)
    | InvalidAlgorithm(alg: AlgId)
    | DigestMissing

  /** Sending the command failed, or what came back is no response to it. */
  datatype DeviceError = TransmitFailed | UnmarshalFailed

  /** The registers a response covers, and their values. */
  datatype Response = Response(selections: Selections, values: seq<Digest>)

  type Bank = map<nat, Digest>
  type Banks = map<AlgId, Bank>

  // ----- storing a response -----

  datatype Stored = Stored(bank: Bank, rest: seq<Digest>)

  /** Gives each register the next value. */
  function StoreBank(bank: Bank, indices: seq<nat>, values: seq<Digest>): Result<Stored, ReadError>
    decreases indices
  {
    if indices == [] then Ok(Stored(bank, values))
    else if values == [] then Err(DigestMissing)
    else StoreBank(bank[indices[0] := values[0]], indices[1..], values[1..])
  }

  function StoreAll(banks: Banks, selections: seq<Selection>, values: seq<Digest>): Result<Banks, ReadError>
    decreases selections
  {
    if selections == [] then Ok(banks)
    else
      var s := selections[0];
      if s.hash !in banks then Err(InvalidAlgorithm(s.hash))
      else
        match StoreBank(banks[s.hash], SelectedFrom(s.select, 0), values)
        case Err(e) => Err(e)
        case Ok(stored) => StoreAll(banks[s.hash := stored.bank], selections[1..], stored.rest)
  }

  method StoreResponse(banks: Banks, response: Response) returns (r: Result<Banks, ReadError>)
    ensures r == StoreAll(banks, response.selections, response.values)
  {
    var results: Banks, values, i := banks, response.values, 0;
    var selections := response.selections;
    ghost var whole := StoreAll(banks, selections, values);
    assert selections[0..] == selections;
    while i < |selections|
      invariant i <= |selections| && whole == StoreAll(results, selections[i..], values)
    {
      assert selections[i..][0] == selections[i] && selections[i..][1..] == selections[i + 1..];
      var s := selections[i];
      if s.hash !in results {
        return Err(InvalidAlgorithm(s.hash));
      }
      var stored := StoreSelected(results[s.hash], s.select, values);
      if stored.Err? {
        return Err(stored.error);
      }
      results, values := results[s.hash := stored.value.bank], stored.value.rest;
      i := i + 1;
    }
    return Ok(results);
  }

  method StoreSelected(bank: Bank, select: PcrSelect, values: seq<Digest>) returns (r: Result<Stored, ReadError>)
    ensures r == StoreBank(bank, SelectedFrom(select, 0), values)
  {
    var stored: Bank, rest, index: nat := bank, values, 0;
    ghost var whole := StoreBank(bank, SelectedFrom(select, 0), values);
    while index < 8 * |select|
      invariant index <= 8 * |select|
      invariant whole == StoreBank(stored, SelectedFrom(select, index), rest)
    {
      var byteIndex, bitIndex := index / 8, index % 8;
      StoreStep(stored, select, index, rest);
      if Bit(select[byteIndex], bitIndex) {
        if rest == [] {
          return Err(DigestMissing);
        }
        stored, rest := stored[index := rest[0]], rest[1..];
      }
      index := index + 1;
    }
    return Ok(Stored(stored, rest));
  }

  lemma StoreStep(bank: Bank, select: seq<byte>, k: nat, values: seq<Digest>)
    requires k < 8 * |select|
    ensures StoreBank(bank, SelectedFrom(select, k), values)
            == if !Selected(select, k) then StoreBank(bank, SelectedFrom(select, k + 1), values)
               else if values == [] then Err(DigestMissing)
               else StoreBank(bank[k := values[0]], SelectedFrom(select, k + 1), values[1..])
  {
    var rest := SelectedFrom(select, k + 1);
    assert [] + rest == rest && ([k] + rest)[1..] == rest;
  }

  // ----- what remains to be read -----

  /** A bank takes values in turn, one for each register, if there are enough; what is over is left. */
  lemma {:induction false} BankTakes(bank: Bank, indices: seq<nat>, values: seq<Digest>)
    ensures var r := StoreBank(bank, indices, values);
            if |values| < |indices| then r == Err(DigestMissing)
            else && r.Ok? && r.value.rest == values[|indices|..]
                 && (forall k: nat :: k in r.value.bank <==> k in bank || k in indices)
                 && (forall k <- bank | k !in indices :: r.value.bank[k] == bank[k])
                 && forall i | 0 <= i < |indices| && indices[i] !in indices[i + 1..] ::
                      r.value.bank[indices[i]] == values[i]
    decreases indices
  {
    if indices != [] && values != [] {
      var first, rest, next := indices[0], indices[1..], bank[indices[0] := values[0]];
      BankTakes(next, rest, values[1..]);
      assert indices == [first] + rest;
      if |values| >= |indices| {
        var r := StoreBank(next, rest, values[1..]).value;
        assert values[1..][|rest|..] == values[|indices|..];
        forall i | 0 <= i < |indices| && indices[i] !in indices[i + 1..]
          ensures r.bank[indices[i]] == values[i]
        {
          if i > 0 {
            assert rest[i - 1] == indices[i] && rest[i..] == indices[i + 1..];
          }
        }
      }
    }
  }

  /** The first entry for the same bank, if there is one. */
  function EntryFor(read: seq<Selection>, hash: AlgId): Option<Selection> {
    if read == [] then None else if read[0].hash == hash then Some(read[0]) else EntryFor(read[1..], hash)
  }

  function ClearByte(mask: byte, read: byte): byte {
    AndNotBound(mask, read);
    AndNot(mask, read)
  }

  /** `select` with the bits of `read` cleared. */
  function Cleared(select: PcrSelect, read: seq<byte>): (r: PcrSelect)
    ensures |r| == |select|
  {
    seq(|select|, i requires 0 <= i < |select| => if i < |read| then ClearByte(select[i], read[i]) else select[i])
  }

  function StillToRead(s: Selection, read: seq<Selection>): Selection {
    var entry := EntryFor(read, s.hash);
    if entry.Some? then s.(select := Cleared(s.select, entry.value.select)) else s
  }

  function Remaining(request: seq<Selection>, read: seq<Selection>): (r: seq<Selection>)
    ensures |r| == |request|
  {
    if request == [] then [] else [StillToRead(request[0], read)] + Remaining(request[1..], read)
  }

  method UpdateRemaining(request: Selections, read: Selections) returns (r: Selections)
    ensures r == Remaining(request, read)
  {
    var list: Selections, i := [], 0;
    assert request[0..] == request;
    while i < |request|
      invariant i == |list| <= |request| && list + Remaining(request[i..], read) == Remaining(request, read)
    {
      assert request[i..][0] == request[i] && request[i..][1..] == request[i + 1..];
      var target := request[i];
      var mask := target.select;
      var entry := FindEntry(read, target.hash);
      if entry.Some? {
        mask := ClearBits(target.select, entry.value.select);
      }
      ghost var rest := Remaining(request[i + 1..], read);
      var next := Selection(target.hash, mask);
      assert next == StillToRead(target, read);
      assert list + ([next] + rest) == list + [next] + rest;
      list := list + [next];
      i := i + 1;
    }
    return list;
  }

  method FindEntry(read: seq<Selection>, hash: AlgId) returns (entry: Option<Selection>)
    ensures entry == EntryFor(read, hash)
  {
    var i := 0;
    assert read[0..] == read;
    while i < |read|
      invariant i <= |read| && EntryFor(read, hash) == EntryFor(read[i..], hash)
    {
      assert read[i..][0] == read[i] && read[i..][1..] == read[i + 1..];
      if read[i].hash == hash {
        return Some(read[i]);
      }
      i := i + 1;
    }
    return None;
  }

  /** Clears bits of a copy of the mask in place, byte by byte. */
  method ClearBits(select: PcrSelect, read: PcrSelect) returns (r: PcrSelect)
    ensures r == Cleared(select, read)
  {
    var mask := new byte[|select|](i requires 0 <= i < |select| => select[i]);
    var i := 0;
    while i < |read|
      invariant i <= |read|
      invariant forall k | 0 <= k < |select| :: mask[k] == if k < i then Cleared(select, read)[k] else select[k]
    {
      if i < mask.Length {
        AndNotBound(mask[i], read[i]);
        mask[i] := AndNot(mask[i], read[i]);
      }
      i := i + 1;
    }
    return mask[..];
  }

  /** Some byte of some bank is not zero. */
  predicate AnyLeft(request: seq<Selection>) {
    exists i | 0 <= i < |request| :: exists j | 0 <= j < |request[i].select| :: request[i].select[j] != 0
  }

  /** The number of registers a request covers. */
  function Count(request: seq<Selection>): nat {
    if request == [] then 0 else |SelectedFrom(request[0].select, 0)| + Count(request[1..])
  }

  /** A response is stored if its banks were asked for and it has a value for each of its registers. */
  lemma {:induction false} StoredIff(banks: Banks, selections: seq<Selection>, values: seq<Digest>)
    ensures var r := StoreAll(banks, selections, values);
            && (r.Ok? <==> Count(selections) <= |values| && forall s <- selections :: s.hash in banks)
            && (r == Err(DigestMissing) ==> |values| < Count(selections))
            && (r.Err? ==> r == Err(DigestMissing)
                           || exists s <- selections :: s.hash !in banks && r == Err(InvalidAlgorithm(s.hash)))
    decreases selections
  {
    if selections != [] {
      var s, rest := selections[0], selections[1..];
      assert selections == [s] + rest;
      if s.hash in banks {
        var indices := SelectedFrom(s.select, 0);
        BankTakes(banks[s.hash], indices, values);
        if |indices| <= |values| {
          var next := banks[s.hash := StoreBank(banks[s.hash], indices, values).value.bank];
          assert next.Keys == banks.Keys;
          StoredIff(next, rest, values[|indices|..]);
        }
      }
    }
  }

  // ----- the loop -----

  /** A device answers a request, or fails; the round number stands for whatever else that depends on. */
  type Device = (nat, Selections) -> Result<Response, DeviceError>

  /** How far reading has come: what is stored, and what is still asked for. */
  datatype Progress = Progress(banks: Banks, request: Selections)

  function InitialRequest(algs: seq<AlgId>, mask: PcrSelect): (r: seq<Selection>)
    ensures |r| == |algs|
  {
    seq(|algs|, i requires 0 <= i < |algs| => Selection(algs[i], mask))
  }

  function NoBanks(algs: seq<AlgId>): Banks {
    map alg | alg in algs :: map[]
  }

  function Start(algs: seq<AlgId>, mask: PcrSelect): Progress
    requires |algs| <= SELECTIONS_MAX
  {
    Progress(NoBanks(algs), InitialRequest(algs, mask))
  }

  /** The answer stored, and what it covers no longer asked for. */
  function Taken(at: Progress, response: Response): Result<Progress, ReadError> {
    match StoreAll(at.banks, response.selections, response.values)
    case Err(e) => Err(e)
    case Ok(stored) => Ok(Progress(stored, Remaining(at.request, response.selections)))
  }

  /** One round. */
  function Advance(device: Device, round: nat, at: Progress): Result<Progress, ReadError> {
    match device(round, at.request)
    case Err(e) => Err(NoResponse(e))
    case Ok(response) => Taken(at, response)
  }

  /** What reading comes to within `rounds` rounds, if it ends by then: the banks, or the first error. */
  function Reading(device: Device, round: nat, at: Progress, rounds: nat): Option<Result<Banks, ReadError>>
    decreases rounds
  {
    if !AnyLeft(at.request) then Some(Ok(at.banks))
    else if rounds == 0 then None
    else
      match Advance(device, round, at)
      case Err(e) => Some(Err(e))
      case Ok(next) => Reading(device, round + 1, next, rounds - 1)
  }

  /** Reads until nothing is left to read; the device must let this end, after `limit` rounds at most. */
  method ReadAllPcrs(algs: seq<AlgId>, mask: PcrSelect, device: Device, ghost limit: nat)
    returns (r: Result<Banks, ReadError>)
    requires |algs| <= SELECTIONS_MAX ==> Reading(device, 0, Start(algs, mask), limit).Some?
    ensures |algs| > SELECTIONS_MAX ==> r == Err(CapacityExceeded)
    ensures |algs| <= SELECTIONS_MAX ==> Some(r) == Reading(device, 0, Start(algs, mask), limit)
  {
    if |algs| > SELECTIONS_MAX {
      return Err(CapacityExceeded);
    }
    var remaining: Selections := InitialRequest(algs, mask);
    var results: Banks, round: nat := NoBanks(algs), 0;
    ghost var left := limit;
    ghost var whole := Reading(device, 0, Start(algs, mask), limit);
    while AnyLeft(remaining)
      invariant whole.Some? && whole == Reading(device, round, Progress(results, remaining), left)
      decreases left
    {
      var answer := device(round, remaining);
      if answer.Err? {
        return Err(NoResponse(answer.error));
      }
      var response := answer.value;
      var stored := StoreResponse(results, response);
      if stored.Err? {
        return Err(stored.error);
      }
      results := stored.value;
      remaining := UpdateRemaining(remaining, response.selections);
      round, left := round + 1, left - 1;
    }
    return Ok(results);
  }

  // ----- reading ends -----

  /** The banks can take the answer: it names no other bank, and has a value for each register. */
  predicate Storable(algs: seq<AlgId>, response: Response) {
    StoreAll(NoBanks(algs), response.selections, response.values).Ok?
  }

  /** A request that reading can make: the banks it was given, in order, and registers of the mask. */
  ghost predicate Asks(request: seq<Selection>, algs: seq<AlgId>, mask: PcrSelect) {
    && |request| == |algs|
    && forall i | 0 <= i < |request| ::
         && request[i].hash == algs[i] && |request[i].select| == |mask|
         && forall k: nat :: Selected(request[i].select, k) ==> Selected(mask, k)
  }

  /** Such a request that asks for something. */
  ghost predicate CanAsk(request: seq<Selection>, algs: seq<AlgId>, mask: PcrSelect) {
    Asks(request, algs, mask) && AnyLeft(request)
  }

  lemma StillToReadFewer(s: Selection, read: seq<Selection>)
    ensures forall k: nat :: Selected(StillToRead(s, read).select, k) ==> Selected(s.select, k)
  {
    var entry := EntryFor(read, s.hash);
    if entry.Some? {
      forall k: nat
        ensures Selected(StillToRead(s, read).select, k) ==> Selected(s.select, k)
      {
        ClearedSelects(s.select, entry.value.select, k);
      }
    }
  }

  lemma AsksRemaining(request: seq<Selection>, read: seq<Selection>, algs: seq<AlgId>, mask: PcrSelect)
    requires Asks(request, algs, mask)
    ensures Asks(Remaining(request, read), algs, mask)
  {
    forall i | 0 <= i < |request|
      ensures Remaining(request, read)[i].hash == algs[i] && |Remaining(request, read)[i].select| == |mask|
      ensures forall k: nat :: Selected(Remaining(request, read)[i].select, k) ==> Selected(mask, k)
    {
      RemainingAt(request, read, i);
      StillToReadFewer(request[i], read);
    }
  }

  /** Every answer to a request that reading can make, if it can be stored, leaves less to ask for. */
  ghost predicate MakesProgress(device: Device, algs: seq<AlgId>, mask: PcrSelect) {
    forall round: nat, request: Selections | CanAsk(request, algs, mask) && device(round, request).Ok? ::
      var response := device(round, request).value;
      Storable(algs, response) ==> Count(Remaining(request, response.selections)) < Count(request)
  }

  lemma {:induction false} StoreBankValues(a: Bank, b: Bank, indices: seq<nat>, values: seq<Digest>)
    ensures StoreBank(a, indices, values).Ok? <==> StoreBank(b, indices, values).Ok?
    ensures StoreBank(a, indices, values).Ok? ==>
              StoreBank(a, indices, values).value.rest == StoreBank(b, indices, values).value.rest
    decreases indices
  {
    if indices != [] && values != [] {
      StoreBankValues(a[indices[0] := values[0]], b[indices[0] := values[0]], indices[1..], values[1..]);
    }
  }

  /** Whether an answer can be stored does not depend on what was stored before. */
  lemma {:induction false} StoreAllKeys(a: Banks, b: Banks, selections: seq<Selection>, values: seq<Digest>)
    requires a.Keys == b.Keys
    ensures StoreAll(a, selections, values).Ok? <==> StoreAll(b, selections, values).Ok?
    ensures StoreAll(a, selections, values).Ok? ==> StoreAll(a, selections, values).value.Keys == a.Keys
    decreases selections
  {
    if selections != [] && selections[0].hash in a {
      var h, indices := selections[0].hash, SelectedFrom(selections[0].select, 0);
      assert h in a.Keys && h in b.Keys;
      StoreBankValues(a[h], b[h], indices, values);
      var x, y := StoreBank(a[h], indices, values), StoreBank(b[h], indices, values);
      if x.Ok? {
        StoreAllKeys(a[h := x.value.bank], b[h := y.value.bank], selections[1..], x.value.rest);
      }
    } else if selections != [] {
      assert selections[0].hash !in a.Keys && selections[0].hash !in b.Keys;
    }
  }

  /** A device that makes progress is read in at most one round for each register asked for. */
  lemma {:induction false} ProgressEnds(device: Device, algs: seq<AlgId>, mask: PcrSelect, round: nat, at: Progress,
      rounds: nat)
    requires MakesProgress(device, algs, mask) && Asks(at.request, algs, mask)
    requires at.banks.Keys == NoBanks(algs).Keys && Count(at.request) <= rounds
    ensures Reading(device, round, at, rounds).Some?
    decreases rounds
  {
    if rounds == 0 {
      NothingLeft(at.request);
    } else if AnyLeft(at.request) && Advance(device, round, at).Ok? {
      var response := device(round, at.request).value;
      StoreAllKeys(at.banks, NoBanks(algs), response.selections, response.values);
      AsksRemaining(at.request, response.selections, algs, mask);
      ProgressEnds(device, algs, mask, round + 1, Advance(device, round, at).value, rounds - 1);
    }
  }

  /** A device that answers the same request in the same way, with nothing that was asked for, is never read. */
  lemma {:induction false} SilentNeverRead(device: Device, round: nat, at: Progress, response: Response, rounds: nat)
    requires AnyLeft(at.request) && forall n: nat :: device(n, at.request) == Ok(response)
    requires StoreAll(at.banks, response.selections, response.values).Ok?
    requires Remaining(at.request, response.selections) == at.request
    ensures Reading(device, round, at, rounds) == None
    decreases rounds
  {
    if rounds > 0 {
      var next := Advance(device, round, at).value;
      StoreAllKeys(at.banks, at.banks, response.selections, response.values);
      StoreAllKeys(next.banks, at.banks, response.selections, response.values);
      SilentNeverRead(device, round + 1, next, response, rounds - 1);
    }
  }

  /** A request that counts no register asks for none. */
  lemma {:induction false} NothingLeft(request: seq<Selection>)
    requires Count(request) == 0
    ensures !AnyLeft(request)
  {
    if request != [] {
      NothingLeft(request[1..]);
      EmptySelection(request[0].select);
      forall i | 0 <= i < |request|
        ensures forall j | 0 <= j < |request[i].select| :: request[i].select[j] == 0
      {
        if i > 0 {
          assert request[i] == request[1..][i - 1];
        }
      }
    }
  }

  lemma EmptySelection(select: PcrSelect)
    requires SelectedFrom(select, 0) == []
    ensures forall j | 0 <= j < |select| :: select[j] == 0
  {
    forall k: nat
      ensures !Selected(select, k)
    {
      SelectedFromMembers(select, 0, k);
    }
    forall k: nat
      ensures !Selected(Zeros(|select|), k)
    {
      if k / 8 < |select| {
        BitOfZero(k % 8);
      }
    }
    SameSelection(select, Zeros(|select|));
  }

  // ----- steady devices -----

  /** Answers depend on nothing but the request. */
  ghost predicate Steady(device: Device) {
    forall m: nat, n: nat, request: Selections :: device(m, request) == device(n, request)
  }

  lemma ClearedSame(select: PcrSelect, read: seq<byte>)
    requires forall k: nat :: !(Selected(select, k) && Selected(read, k))
    ensures Cleared(select, read) == select
  {
    forall k: nat
      ensures Selected(Cleared(select, read), k) <==> Selected(select, k)
    {
      ClearedSelects(select, read, k);
    }
    SameSelection(Cleared(select, read), select);
  }

  /** An answer that leaves as many registers as were asked for leaves the request as it was. */
  lemma SameCountSameRequest(request: seq<Selection>, read: seq<Selection>)
    requires Count(Remaining(request, read)) == Count(request)
    ensures Remaining(request, read) == request
  {
    forall i | 0 <= i < |request|
      ensures Remaining(request, read)[i] == request[i]
    {
      RemainingAt(request, read, i);
      var entry := EntryFor(read, request[i].hash);
      if entry.Some? {
        if k: nat :| Selected(request[i].select, k) && Selected(entry.value.select, k) {
          CountDrops(request, read, i, k);
        } else {
          ClearedSame(request[i].select, entry.value.select);
        }
      }
    }
  }

  /** A steady device that is not read in one round for each register is never read. */
  lemma {:induction false} InTimeOrNever(device: Device, round: nat, at: Progress, rounds: nat)
    requires Steady(device) && Reading(device, round, at, rounds).Some?
    ensures Reading(device, round, at, Count(at.request)) == Reading(device, round, at, rounds)
    decreases rounds
  {
    if AnyLeft(at.request) {
      if Count(at.request) == 0 {
        NothingLeft(at.request);
      }
      if Advance(device, round, at).Ok? {
        var response, next := device(round, at.request).value, Advance(device, round, at).value;
        CountFalls(at.request, response.selections);
        if Count(next.request) == Count(at.request) {
          SameCountSameRequest(at.request, response.selections);
          SilentNeverRead(device, round, at, response, rounds);
        } else {
          InTimeOrNever(device, round + 1, next, rounds - 1);
          MoreRounds(device, round + 1, next, Count(next.request), Count(at.request) - 1);
        }
      }
    }
  }

  /** Reading that has ended stays as it is. */
  lemma {:induction false} MoreRounds(device: Device, round: nat, at: Progress, fewer: nat, more: nat)
    requires fewer <= more && Reading(device, round, at, fewer).Some?
    ensures Reading(device, round, at, more) == Reading(device, round, at, fewer)
    decreases fewer
  {
    if AnyLeft(at.request) && Advance(device, round, at).Ok? {
      MoreRounds(device, round + 1, Advance(device, round, at).value, fewer - 1, more - 1);
    }
  }

  /** What reading has come to after `n` rounds, unless it has ended before. */
  function After(device: Device, round: nat, at: Progress, n: nat): Option<Progress>
    decreases n
  {
    if n == 0 then Some(at)
    else if !AnyLeft(at.request) then None
    else
      match Advance(device, round, at)
      case Err(_) => None
      case Ok(next) => After(device, round + 1, next, n - 1)
  }

  /** Something is asked for, and the answer is one that can be stored and leaves the request as it is. */
  predicate Stuck(device: Device, at: Progress) {
    && AnyLeft(at.request) && Advance(device, 0, at).Ok?
    && Advance(device, 0, at).value.request == at.request
  }

  /** Reading gets stuck at some request it reaches. */
  ghost predicate GetsStuck(device: Device, round: nat, at: Progress) {
    exists n: nat :: StuckAfter(device, round, at, n)
  }

  ghost predicate StuckAfter(device: Device, round: nat, at: Progress, n: nat) {
    After(device, round, at, n).Some? && Stuck(device, After(device, round, at, n).value)
  }

  ghost predicate Ends(device: Device, round: nat, at: Progress) {
    exists rounds: nat :: Reading(device, round, at, rounds).Some?
  }

  /** Reading a steady device ends exactly when no answer on the way covers nothing of what was asked for. */
  lemma EndsUnlessStuck(device: Device, round: nat, at: Progress)
    requires Steady(device)
    ensures Ends(device, round, at) <==> !GetsStuck(device, round, at)
  {
    if n: nat :| StuckAfter(device, round, at, n) {
      forall rounds: nat
        ensures Reading(device, round, at, rounds) == None
      {
        StuckNeverRead(device, round, at, n, rounds);
      }
    } else {
      UnstuckEnds(device, round, at);
    }
  }

  lemma {:induction false} StuckNeverRead(device: Device, round: nat, at: Progress, n: nat, rounds: nat)
    requires Steady(device) && StuckAfter(device, round, at, n)
    ensures Reading(device, round, at, rounds) == None
    decreases n
  {
    if n == 0 {
      SilentNeverRead(device, round, at, device(0, at.request).value, rounds);
    } else if rounds > 0 {
      StuckNeverRead(device, round + 1, Advance(device, round, at).value, n - 1, rounds - 1);
    }
  }

  lemma {:induction false} UnstuckEnds(device: Device, round: nat, at: Progress)
    requires Steady(device) && !GetsStuck(device, round, at)
    ensures Ends(device, round, at)
    decreases Count(at.request)
  {
    if AnyLeft(at.request) && Advance(device, round, at).Ok? {
      var response, next := device(round, at.request).value, Advance(device, round, at).value;
      assert After(device, round, at, 0) == Some(at) && !StuckAfter(device, round, at, 0);
      assert device(round, at.request) == device(0, at.request);
      CountFalls(at.request, response.selections);
      if Count(next.request) == Count(at.request) {
        SameCountSameRequest(at.request, response.selections);
      }
      var later := round + 1;
      if n: nat :| StuckAfter(device, later, next, n) {
        assert After(device, round, at, n + 1) == After(device, later, next, n);
        assert StuckAfter(device, round, at, n + 1);
      }
      UnstuckEnds(device, round + 1, next);
      var rounds: nat :| Reading(device, round + 1, next, rounds).Some?;
      assert Reading(device, round, at, rounds + 1).Some?;
    } else {
      assert Reading(device, round, at, 1).Some?;
    }
  }

  const EMPTY_ANSWERS: Device := (_, _) => Ok(Response([], []))

  /** A device that always answers with nothing is never read, if anything is selected. */
  lemma EmptyAnswersNeverEnd(algs: seq<AlgId>, mask: PcrSelect)
    requires |algs| <= SELECTIONS_MAX && AnyLeft(InitialRequest(algs, mask))
    ensures !Ends(EMPTY_ANSWERS, 0, Start(algs, mask))
  {
    NothingRead(InitialRequest(algs, mask));
    forall rounds: nat
      ensures Reading(EMPTY_ANSWERS, 0, Start(algs, mask), rounds) == None
    {
      SilentNeverRead(EMPTY_ANSWERS, 0, Start(algs, mask), Response([], []), rounds);
    }
  }

  lemma {:induction false} NothingRead(request: seq<Selection>)
    ensures Remaining(request, []) == request
  {
    if request != [] {
      NothingRead(request[1..]);
      assert request == [request[0]] + request[1..];
    }
  }

  // ----- honest devices -----

  ghost predicate NoRepeats(algs: seq<AlgId>) {
    forall i, j | 0 <= i < j < |algs| :: algs[i] != algs[j]
  }

  /** The values of the listed registers of a bank, in order. */
  ghost function Values(value: (AlgId, nat) -> Digest, alg: AlgId, indices: seq<nat>): seq<Digest> {
    if indices == [] then [] else [value(alg, indices[0])] + Values(value, alg, indices[1..])
  }

  ghost function ValuesOf(value: (AlgId, nat) -> Digest, selections: seq<Selection>): seq<Digest> {
    if selections == [] then []
    else Values(value, selections[0].hash, SelectedFrom(selections[0].select, 0)) + ValuesOf(value, selections[1..])
  }

  /** Every bank of the answer was asked for, once, with no register that was not; the values are theirs, in order. */
  ghost predicate HonestAnswer(request: seq<Selection>, response: Response, value: (AlgId, nat) -> Digest) {
    && (forall i | 0 <= i < |response.selections| :: AskedFor(request, response.selections[i]))
    && (forall i, j | 0 <= i < j < |response.selections| ::
          response.selections[i].hash != response.selections[j].hash)
    && response.values == ValuesOf(value, response.selections)
  }

  ghost predicate AskedFor(request: seq<Selection>, s: Selection) {
    exists i | 0 <= i < |request| ::
      request[i].hash == s.hash && forall k: nat :: Selected(s.select, k) ==> Selected(request[i].select, k)
  }

  /** The answer is honest, if the device does not fail. */
  ghost predicate HonestOrFails(device: Device, value: (AlgId, nat) -> Digest, round: nat, request: Selections) {
    device(round, request).Ok? ==> HonestAnswer(request, device(round, request).value, value)
  }

  /** So is each answer to a request that reading can make. */
  ghost predicate Honest(device: Device, algs: seq<AlgId>, mask: PcrSelect, value: (AlgId, nat) -> Digest) {
    forall round: nat, request: Selections | CanAsk(request, algs, mask) :: HonestOrFails(device, value, round, request)
  }

  /** Each bank holds exactly the masked registers, with the device's values. */
  ghost predicate AllRead(banks: Banks, algs: seq<AlgId>, mask: PcrSelect, value: (AlgId, nat) -> Digest) {
    && (forall alg: AlgId :: alg in banks <==> alg in algs)
    && forall alg <- banks ::
         && (forall k: nat :: k in banks[alg] <==> Selected(mask, k))
         && forall k <- banks[alg] :: banks[alg][k] == value(alg, k)
  }

  // ----- one round -----

  lemma {:induction false} StoreBankHonest(
      bank: Bank, indices: seq<nat>, value: (AlgId, nat) -> Digest, alg: AlgId, more: seq<Digest>)
    ensures var r := StoreBank(bank, indices, Values(value, alg, indices) + more);
            && r.Ok? && r.value.rest == more
            && (forall k: nat :: k in r.value.bank <==> k in bank || k in indices)
            && forall k <- r.value.bank :: r.value.bank[k] == if k in indices then value(alg, k) else bank[k]
    decreases indices
  {
    var values := Values(value, alg, indices) + more;
    if indices == [] {
      assert values == more;
    } else {
      var v := value(alg, indices[0]);
      assert values[1..] == Values(value, alg, indices[1..]) + more;
      StoreBankHonest(bank[indices[0] := v], indices[1..], value, alg, more);
      assert forall k :: k in indices <==> k == indices[0] || k in indices[1..];
    }
  }

  ghost predicate DistinctBanks(selections: seq<Selection>) {
    forall i, j | 0 <= i < j < |selections| :: selections[i].hash != selections[j].hash
  }

  /** What storing does to one bank: the registers of its entry get the device's values, the others stay. */
  ghost predicate Updated(
    before: Bank, after: Bank, entry: Option<Selection>, value: (AlgId, nat) -> Digest, alg: AlgId)
  {
    match entry
    case None => after == before
    case Some(s) =>
      && (forall k: nat :: k in after <==> k in before || Selected(s.select, k))
      && forall k <- after :: after[k] == if Selected(s.select, k) then value(alg, k) else before[k]
  }

  lemma {:induction false} NoEntry(selections: seq<Selection>, hash: AlgId)
    requires forall i | 0 <= i < |selections| :: selections[i].hash != hash
    ensures EntryFor(selections, hash).None?
  {
    if selections != [] {
      NoEntry(selections[1..], hash);
    }
  }

  lemma {:induction false} EntryAt(selections: seq<Selection>, hash: AlgId) returns (i: nat)
    requires EntryFor(selections, hash).Some?
    ensures i < |selections| && selections[i] == EntryFor(selections, hash).value && selections[i].hash == hash
    ensures forall j | 0 <= j < i :: selections[j].hash != hash
  {
    if selections[0].hash == hash {
      i := 0;
    } else {
      var j := EntryAt(selections[1..], hash);
      i := j + 1;
    }
  }

  lemma HeadStored(banks: Banks, s: Selection, value: (AlgId, nat) -> Digest, more: seq<Digest>)
    requires s.hash in banks
    ensures var r := StoreBank(banks[s.hash], SelectedFrom(s.select, 0),
                               Values(value, s.hash, SelectedFrom(s.select, 0)) + more);
            r.Ok? && r.value.rest == more && Updated(banks[s.hash], r.value.bank, Some(s), value, s.hash)
  {
    var indices := SelectedFrom(s.select, 0);
    StoreBankHonest(banks[s.hash], indices, value, s.hash, more);
    forall k: nat
      ensures k in indices <==> Selected(s.select, k)
    {
      SelectedFromMembers(s.select, 0, k);
    }
  }

  /** Storing an honest answer succeeds and updates each bank by its entry. */
  lemma {:induction false} StoreAllHonest(
      banks: Banks, selections: seq<Selection>, value: (AlgId, nat) -> Digest, alg: AlgId)
    requires DistinctBanks(selections) && alg in banks
    requires forall i | 0 <= i < |selections| :: selections[i].hash in banks
    ensures var r := StoreAll(banks, selections, ValuesOf(value, selections));
            && r.Ok? && r.value.Keys == banks.Keys
            && Updated(banks[alg], r.value[alg], EntryFor(selections, alg), value, alg)
    decreases selections
  {
    if selections != [] {
      var s, tail := selections[0], selections[1..];
      var indices := SelectedFrom(s.select, 0);
      HeadStored(banks, s, value, ValuesOf(value, tail));
      var stored := StoreBank(banks[s.hash], indices,
                              Values(value, s.hash, indices) + ValuesOf(value, tail)).value.bank;
      var next := banks[s.hash := stored];
      assert forall i | 0 <= i < |tail| :: tail[i] == selections[i + 1];
      StoreAllHonest(next, tail, value, alg);
      if alg == s.hash {
        NoEntry(tail, alg);
      }
    }
  }

  lemma ClearedSelects(select: PcrSelect, read: seq<byte>, k: nat)
    ensures Selected(Cleared(select, read), k) <==> Selected(select, k) && !Selected(read, k)
  {
    if k / 8 < |select| && k / 8 < |read| {
      AndNotBits(select[k / 8], read[k / 8], k % 8);
    }
  }

  /** A bank holds right values, and the masked registers are those it holds and those still to read. */
  ghost predicate CoveredBank(bank: Bank, left: Selection, alg: AlgId, mask: PcrSelect, value: (AlgId, nat) -> Digest) {
    && left.hash == alg && |left.select| == |mask|
    && (forall k: nat :: Selected(mask, k) <==> k in bank || Selected(left.select, k))
    && forall k <- bank :: bank[k] == value(alg, k)
  }

  ghost predicate Covered(
    banks: Banks, remaining: seq<Selection>, algs: seq<AlgId>, mask: PcrSelect, value: (AlgId, nat) -> Digest)
  {
    && |remaining| == |algs| && (forall alg <- banks :: alg in algs)
    && forall i | 0 <= i < |algs| :: algs[i] in banks && CoveredBank(banks[algs[i]], remaining[i], algs[i], mask, value)
  }

  /** What is still to be read is a request that reading can make. */
  lemma CoveredAsks(
      banks: Banks, remaining: seq<Selection>, algs: seq<AlgId>, mask: PcrSelect, value: (AlgId, nat) -> Digest)
    requires Covered(banks, remaining, algs, mask, value)
    ensures Asks(remaining, algs, mask)
  {
    forall i | 0 <= i < |algs|
      ensures remaining[i].hash == algs[i] && |remaining[i].select| == |mask|
      ensures forall k: nat :: Selected(remaining[i].select, k) ==> Selected(mask, k)
    {
      assert CoveredBank(banks[algs[i]], remaining[i], algs[i], mask, value);
    }
  }

  lemma ReadStarts(banks: Banks, algs: seq<AlgId>, mask: PcrSelect, value: (AlgId, nat) -> Digest)
    requires banks == map alg | alg in algs :: map[]
    ensures Covered(banks, InitialRequest(algs, mask), algs, mask, value)
  {
  }

  lemma BankRound(
      before: Bank, after: Bank, left: Selection, read: seq<Selection>, alg: AlgId, mask: PcrSelect,
      value: (AlgId, nat) -> Digest)
    requires CoveredBank(before, left, alg, mask, value) && Updated(before, after, EntryFor(read, alg), value, alg)
    requires EntryFor(read, alg).Some? ==>
               forall k: nat :: Selected(EntryFor(read, alg).value.select, k) ==> Selected(left.select, k)
    ensures CoveredBank(after, StillToRead(left, read), alg, mask, value)
  {
    if EntryFor(read, alg).Some? {
      var entry := EntryFor(read, alg).value.select;
      forall k: nat
        ensures Selected(mask, k) <==> k in after || Selected(StillToRead(left, read).select, k)
      {
        ClearedSelects(left.select, entry, k);
      }
    }
  }

  lemma {:induction false} RemainingAt(request: seq<Selection>, read: seq<Selection>, i: nat)
    requires i < |request|
    ensures Remaining(request, read)[i] == StillToRead(request[i], read)
  {
    if i > 0 {
      RemainingAt(request[1..], read, i - 1);
    }
  }

  /** An entry of an honest answer asks no more of its bank than the request did. */
  lemma EntryAsked(
      banks: Banks, request: seq<Selection>, algs: seq<AlgId>, mask: PcrSelect, value: (AlgId, nat) -> Digest,
      response: Response, i: nat)
    requires NoRepeats(algs) && Covered(banks, request, algs, mask, value) && HonestAnswer(request, response, value)
    requires i < |algs| && EntryFor(response.selections, algs[i]).Some?
    ensures forall k: nat ::
              Selected(EntryFor(response.selections, algs[i]).value.select, k) ==> Selected(request[i].select, k)
  {
    var j := EntryAt(response.selections, algs[i]);
    var s := response.selections[j];
    assert AskedFor(request, s);
    var m :| 0 <= m < |request| && request[m].hash == s.hash
             && forall k: nat :: Selected(s.select, k) ==> Selected(request[m].select, k);
    assert CoveredBank(banks[algs[m]], request[m], algs[m], mask, value);
    assert m == i;
  }

  lemma EntriesKnown(
      banks: Banks, request: seq<Selection>, algs: seq<AlgId>, mask: PcrSelect, value: (AlgId, nat) -> Digest,
      response: Response)
    requires Covered(banks, request, algs, mask, value) && HonestAnswer(request, response, value)
    ensures forall i | 0 <= i < |response.selections| :: response.selections[i].hash in banks
  {
    forall i | 0 <= i < |response.selections|
      ensures response.selections[i].hash in banks
    {
      assert AskedFor(request, response.selections[i]);
      var m :| 0 <= m < |request| && request[m].hash == response.selections[i].hash;
      assert CoveredBank(banks[algs[m]], request[m], algs[m], mask, value);
      assert algs[m] in algs;
    }
  }

  /** Storing an honest answer and clearing what it covered keeps every masked register accounted for. */
  lemma RoundReads(
      banks: Banks, request: seq<Selection>, algs: seq<AlgId>, mask: PcrSelect, value: (AlgId, nat) -> Digest,
      response: Response)
    requires NoRepeats(algs) && Covered(banks, request, algs, mask, value) && HonestAnswer(request, response, value)
    ensures StoreAll(banks, response.selections, response.values).Ok? || algs == []
    ensures StoreAll(banks, response.selections, response.values).Ok? ==>
              Covered(StoreAll(banks, response.selections, response.values).value,
                      Remaining(request, response.selections), algs, mask, value)
  {
    EntriesKnown(banks, request, algs, mask, value, response);
    var r := StoreAll(banks, response.selections, response.values);
    forall i | 0 <= i < |algs|
      ensures r.Ok? && r.value.Keys == banks.Keys
      ensures CoveredBank(r.value[algs[i]], Remaining(request, response.selections)[i], algs[i], mask, value)
    {
      assert algs[i] in algs;
      StoreAllHonest(banks, response.selections, value, algs[i]);
      if EntryFor(response.selections, algs[i]).Some? {
        EntryAsked(banks, request, algs, mask, value, response, i);
      }
      RemainingAt(request, response.selections, i);
      assert CoveredBank(banks[algs[i]], request[i], algs[i], mask, value);
      BankRound(banks[algs[i]], r.value[algs[i]], request[i], response.selections, algs[i], mask, value);
    }
    if algs != [] {
      assert CoveredBank(r.value[algs[0]], Remaining(request, response.selections)[0], algs[0], mask, value);
    }
  }

  lemma NothingSelected(s: Selection, k: nat)
    requires forall j | 0 <= j < |s.select| :: s.select[j] == 0
    ensures !Selected(s.select, k)
  {
    BitOfZero(k % 8);
  }

  lemma ReadEnds(
      banks: Banks, remaining: seq<Selection>, algs: seq<AlgId>, mask: PcrSelect, value: (AlgId, nat) -> Digest)
    requires Covered(banks, remaining, algs, mask, value) && !AnyLeft(remaining)
    ensures AllRead(banks, algs, mask, value)
  {
    forall alg <- banks
      ensures forall k: nat :: k in banks[alg] <==> Selected(mask, k)
      ensures forall k <- banks[alg] :: banks[alg][k] == value(alg, k)
    {
      var i :| 0 <= i < |algs| && algs[i] == alg;
      assert CoveredBank(banks[alg], remaining[i], alg, mask, value);
      forall k: nat
        ensures !Selected(remaining[i].select, k)
      {
        NothingSelected(remaining[i], k);
      }
    }
  }

  // ----- honest devices make progress -----

  lemma {:induction false} FewerSelected(a: seq<byte>, b: seq<byte>, from: nat)
    requires |a| == |b| && forall k: nat :: Selected(a, k) ==> Selected(b, k)
    ensures |SelectedFrom(a, from)| <= |SelectedFrom(b, from)|
    decreases 8 * |a| - from
  {
    if from < 8 * |a| {
      FewerSelected(a, b, from + 1);
    }
  }

  lemma SelectedCount(select: seq<byte>, from: nat)
    requires from < 8 * |select|
    ensures |SelectedFrom(select, from)| == (if Selected(select, from) then 1 else 0) + |SelectedFrom(select, from + 1)|
  {
  }

  lemma {:induction false} OneFewerSelected(a: seq<byte>, b: seq<byte>, from: nat, k: nat)
    requires |a| == |b| && forall j: nat :: Selected(a, j) ==> Selected(b, j)
    requires from <= k < 8 * |a| && Selected(b, k) && !Selected(a, k)
    ensures |SelectedFrom(a, from)| < |SelectedFrom(b, from)|
    decreases 8 * |a| - from
  {
    SelectedCount(a, from);
    SelectedCount(b, from);
    if from == k {
      FewerSelected(a, b, from + 1);
    } else {
      OneFewerSelected(a, b, from + 1, k);
    }
  }

  lemma ClearedFewer(select: PcrSelect, read: seq<byte>)
    ensures |SelectedFrom(Cleared(select, read), 0)| <= |SelectedFrom(select, 0)|
    ensures (exists k: nat :: Selected(select, k) && Selected(read, k)) ==>
              |SelectedFrom(Cleared(select, read), 0)| < |SelectedFrom(select, 0)|
  {
    forall k: nat
      ensures Selected(Cleared(select, read), k) <==> Selected(select, k) && !Selected(read, k)
    {
      ClearedSelects(select, read, k);
    }
    FewerSelected(Cleared(select, read), select, 0);
    if k: nat :| Selected(select, k) && Selected(read, k) {
      OneFewerSelected(Cleared(select, read), select, 0, k);
    }
  }

  lemma {:induction false} CountFalls(request: seq<Selection>, read: seq<Selection>)
    ensures Count(Remaining(request, read)) <= Count(request)
  {
    if request != [] {
      CountFalls(request[1..], read);
      var entry := EntryFor(read, request[0].hash);
      if entry.Some? {
        ClearedFewer(request[0].select, entry.value.select);
      }
    }
  }

  /** Clearing a register that was asked for leaves fewer to read. */
  lemma {:induction false} CountDrops(request: seq<Selection>, read: seq<Selection>, i: nat, k: nat)
    requires i < |request| && Selected(request[i].select, k)
    requires EntryFor(read, request[i].hash).Some? && Selected(EntryFor(read, request[i].hash).value.select, k)
    ensures Count(Remaining(request, read)) < Count(request)
  {
    if i == 0 {
      CountFalls(request[1..], read);
      ClearedFewer(request[0].select, EntryFor(read, request[0].hash).value.select);
    } else {
      CountDrops(request[1..], read, i - 1, k);
      var entry := EntryFor(read, request[0].hash);
      if entry.Some? {
        ClearedFewer(request[0].select, entry.value.select);
      }
    }
  }

  lemma {:induction false} FirstEntry(selections: seq<Selection>, i: nat)
    requires DistinctBanks(selections) && i < |selections|
    ensures EntryFor(selections, selections[i].hash) == Some(selections[i])
  {
    if i > 0 {
      assert selections[0].hash != selections[i].hash;
      assert forall a, b | 0 <= a < b < |selections[1..]| ::
          selections[1..][a].hash == selections[a + 1].hash && selections[1..][b].hash == selections[b + 1].hash;
      FirstEntry(selections[1..], i - 1);
    }
  }

  /** The answer covers at least one register. */
  ghost predicate AnswersSomething(response: Response) {
    exists i, k: nat | 0 <= i < |response.selections| :: Selected(response.selections[i].select, k)
  }

  /** An honest answer to a request that covers some register leaves less to ask for. */
  lemma HonestAnswerDrops(request: seq<Selection>, response: Response, value: (AlgId, nat) -> Digest)
    requires HonestAnswer(request, response, value) && AnswersSomething(response)
    ensures Count(Remaining(request, response.selections)) < Count(request)
  {
    var i, k: nat :| 0 <= i < |response.selections| && Selected(response.selections[i].select, k);
    assert AskedFor(request, response.selections[i]);
    var m :| 0 <= m < |request| && request[m].hash == response.selections[i].hash
             && forall k: nat :: Selected(response.selections[i].select, k) ==> Selected(request[m].select, k);
    FirstEntry(response.selections, i);
    CountDrops(request, response.selections, m, k);
  }

  /** The device never fails, and never answers with nothing, when reading asks it for something. */
  ghost predicate Answers(device: Device, algs: seq<AlgId>, mask: PcrSelect) {
    forall round: nat, request: Selections | CanAsk(request, algs, mask) ::
      device(round, request).Ok? && AnswersSomething(device(round, request).value)
  }

  /** A device whose every answer is honest and covers some register makes progress, so reading it ends. */
  lemma HonestMakesProgress(device: Device, algs: seq<AlgId>, mask: PcrSelect, value: (AlgId, nat) -> Digest)
    requires Honest(device, algs, mask, value) && Answers(device, algs, mask)
    ensures MakesProgress(device, algs, mask)
  {
    forall round: nat, request: Selections | CanAsk(request, algs, mask)
      ensures Count(Remaining(request, device(round, request).value.selections)) < Count(request)
    {
      assert HonestOrFails(device, value, round, request);
      HonestAnswerDrops(request, device(round, request).value, value);
    }
  }

  lemma HonestRound(
      device: Device, algs: seq<AlgId>, mask: PcrSelect, value: (AlgId, nat) -> Digest, round: nat, at: Progress)
      returns (next: Progress)
    requires NoRepeats(algs) && Honest(device, algs, mask, value) && AnyLeft(at.request)
    requires Covered(at.banks, at.request, algs, mask, value) && device(round, at.request).Ok?
    ensures Advance(device, round, at) == Ok(next) && Covered(next.banks, next.request, algs, mask, value)
  {
    var response := device(round, at.request).value;
    CoveredAsks(at.banks, at.request, algs, mask, value);
    assert HonestOrFails(device, value, round, at.request);
    RoundReads(at.banks, at.request, algs, mask, value, response);
    next := Advance(device, round, at).value;
  }

  /** The error is one that the device fails with, at a request that reading can make. */
  ghost predicate FailsWith(device: Device, algs: seq<AlgId>, mask: PcrSelect, error: ReadError) {
    && error.NoResponse?
    && exists round: nat, request: Selections ::
         CanAsk(request, algs, mask) && device(round, request) == Err(error.what)
  }

  ghost predicate ReadOrFailed(
    result: Result<Banks, ReadError>, device: Device, algs: seq<AlgId>, mask: PcrSelect, value: (AlgId, nat) -> Digest)
  {
    match result
    case Ok(banks) => AllRead(banks, algs, mask, value)
    case Err(e) => FailsWith(device, algs, mask, e)
  }

  /** Where reading ends, everything is read, or the device has failed. */
  lemma LastRound(
      device: Device, algs: seq<AlgId>, mask: PcrSelect, value: (AlgId, nat) -> Digest, round: nat, at: Progress)
    requires Covered(at.banks, at.request, algs, mask, value)
    ensures !AnyLeft(at.request) ==> ReadOrFailed(Ok(at.banks), device, algs, mask, value)
    ensures AnyLeft(at.request) && device(round, at.request).Err? ==>
              ReadOrFailed(Err(NoResponse(device(round, at.request).error)), device, algs, mask, value)
  {
    if AnyLeft(at.request) {
      CoveredAsks(at.banks, at.request, algs, mask, value);
    } else {
      ReadEnds(at.banks, at.request, algs, mask, value);
    }
  }

  /**
    From an honest device, reading that ends brings all that is selected, and nothing
    else, unless the device fails.
   */
  lemma {:induction false} HonestReads(
      device: Device, algs: seq<AlgId>, mask: PcrSelect, value: (AlgId, nat) -> Digest,
      round: nat, at: Progress, rounds: nat, r: Result<Banks, ReadError>)
    requires NoRepeats(algs) && Honest(device, algs, mask, value)
    requires Covered(at.banks, at.request, algs, mask, value) && Reading(device, round, at, rounds) == Some(r)
    ensures ReadOrFailed(r, device, algs, mask, value)
    decreases rounds
  {
    LastRound(device, algs, mask, value, round, at);
    if AnyLeft(at.request) && device(round, at.request).Ok? {
      var next := HonestRound(device, algs, mask, value, round, at);
      HonestReads(device, algs, mask, value, round + 1, next, rounds - 1, r);
    }
  }

  /**
    A device that answers what reading asks for honestly, and never with nothing, is read
    in at most one round for each selected register, and all of it is read.
   */
  lemma AllReadInTime(device: Device, algs: seq<AlgId>, mask: PcrSelect, value: (AlgId, nat) -> Digest)
    requires |algs| <= SELECTIONS_MAX && NoRepeats(algs)
    requires Honest(device, algs, mask, value) && Answers(device, algs, mask)
    ensures var r := Reading(device, 0, Start(algs, mask), Count(InitialRequest(algs, mask)));
            r.Some? && r.value.Ok? && AllRead(r.value.value, algs, mask, value)
  {
    var at := Start(algs, mask);
    HonestMakesProgress(device, algs, mask, value);
    ProgressEnds(device, algs, mask, 0, at, Count(at.request));
    ReadStarts(NoBanks(algs), algs, mask, value);
    var r := Reading(device, 0, at, Count(at.request)).value;
    HonestReads(device, algs, mask, value, 0, at, Count(at.request), r);
  }

  // ----- a device that answers a part at a time -----

  /** The first byte from `j` on that is not zero. */
  function FirstByte(select: seq<byte>, j: nat): (r: Option<nat>)
    requires j <= |select|
    ensures r.Some? ==> r.value < |select| && select[r.value] != 0
    ensures r.None? ==> forall i | j <= i < |select| :: select[i] == 0
    decreases |select| - j
  {
    if j == |select| then None else if select[j] != 0 then Some(j) else FirstByte(select, j + 1)
  }

  /** `select` without all but one of its bytes. */
  function OnlyByte(select: PcrSelect, j: nat): PcrSelect {
    seq(|select|, i requires 0 <= i < |select| => if i == j then select[i] else 0)
  }

  /** The first byte of the first bank that is asked for: eight registers at most. */
  function FirstPart(request: seq<Selection>): (r: seq<Selection>)
    ensures |r| <= 1
  {
    if request == [] then []
    else
      match FirstByte(request[0].select, 0)
      case Some(j) => [Selection(request[0].hash, OnlyByte(request[0].select, j))]
      case None => FirstPart(request[1..])
  }

  /** Answers with the first part of a request alone, as a device does whose responses hold eight digests. */
  ghost function Bytewise(value: (AlgId, nat) -> Digest): Device {
    (_, request) => Ok(Response(FirstPart(request), ValuesOf(value, FirstPart(request))))
  }

  lemma {:induction false} FirstPartAsked(request: seq<Selection>)
    requires AnyLeft(request)
    ensures |FirstPart(request)| == 1 && AskedFor(request, FirstPart(request)[0])
    ensures exists k: nat :: Selected(FirstPart(request)[0].select, k)
  {
    var select := request[0].select;
    match FirstByte(select, 0)
    case Some(j) => OnlyByteSelects(request[0], j);
    case None =>
      var i, j :| 0 <= i < |request| && 0 <= j < |request[i].select| && request[i].select[j] != 0;
      assert request[1..][i - 1] == request[i];
      FirstPartAsked(request[1..]);
      var m :| 0 <= m < |request[1..]| && request[1..][m].hash == FirstPart(request)[0].hash
               && forall k: nat :: Selected(FirstPart(request)[0].select, k) ==> Selected(request[1..][m].select, k);
      assert request[m + 1] == request[1..][m];
  }

  lemma NonzeroSelects(select: PcrSelect, j: nat)
    requires j < |select| && select[j] != 0
    ensures exists k: nat :: Selected(select, k)
  {
    var indices := SelectedFrom(select, 0);
    if indices == [] {
      EmptySelection(select);
    } else {
      SelectedFromMembers(select, 0, indices[0]);
    }
  }

  lemma OnlyByteSelects(s: Selection, j: nat)
    requires j < |s.select| && s.select[j] != 0
    ensures forall k: nat :: Selected(OnlyByte(s.select, j), k) ==> Selected(s.select, k)
    ensures exists k: nat :: Selected(OnlyByte(s.select, j), k)
  {
    var only := OnlyByte(s.select, j);
    forall k: nat | Selected(only, k)
      ensures Selected(s.select, k)
    {
      if k / 8 != j {
        BitOfZero(k % 8);
      }
    }
    NonzeroSelects(only, j);
  }

  lemma BytewiseAnswer(request: Selections, value: (AlgId, nat) -> Digest)
    requires AnyLeft(request)
    ensures var response := Response(FirstPart(request), ValuesOf(value, FirstPart(request)));
            HonestAnswer(request, response, value) && AnswersSomething(response)
  {
    FirstPartAsked(request);
  }

  /** A mask whose only byte is byte `j` selects eight registers at most. */
  lemma {:induction false} OneByteSelects(select: seq<byte>, j: nat, from: nat)
    requires forall i | 0 <= i < |select| :: i != j ==> select[i] == 0
    ensures |SelectedFrom(select, from)|
            <= if from >= 8 * j + 8 then 0 else if from > 8 * j then 8 * j + 8 - from else 8
    decreases 8 * |select| - from
  {
    if from < 8 * |select| {
      OneByteSelects(select, j, from + 1);
      if from / 8 != j {
        BitOfZero(from % 8);
      }
    }
  }

  lemma {:induction false} ValuesCount(value: (AlgId, nat) -> Digest, alg: AlgId, indices: seq<nat>)
    ensures |Values(value, alg, indices)| == |indices|
  {
    if indices != [] {
      ValuesCount(value, alg, indices[1..]);
    }
  }

  lemma {:induction false} FirstPartSmall(request: seq<Selection>, value: (AlgId, nat) -> Digest)
    ensures |ValuesOf(value, FirstPart(request))| <= 8
  {
    if request != [] {
      match FirstByte(request[0].select, 0)
      case Some(j) =>
        var s := FirstPart(request)[0];
        OneByteSelects(s.select, j, 0);
        ValuesCount(value, s.hash, SelectedFrom(s.select, 0));
        assert FirstPart(request)[1..] == [];
      case None => FirstPartSmall(request[1..], value);
    }
  }

  /** Such a device meets what reading in time asks for, so all of it is read. */
  lemma BytewiseRead(algs: seq<AlgId>, mask: PcrSelect, value: (AlgId, nat) -> Digest)
    requires |algs| <= SELECTIONS_MAX && NoRepeats(algs)
    ensures forall round: nat, request: Selections :: |Bytewise(value)(round, request).value.values| <= 8
    ensures Honest(Bytewise(value), algs, mask, value) && Answers(Bytewise(value), algs, mask)
    ensures var r := Reading(Bytewise(value), 0, Start(algs, mask), Count(InitialRequest(algs, mask)));
            r.Some? && r.value.Ok? && AllRead(r.value.value, algs, mask, value)
  {
    forall round: nat, request: Selections
      ensures |Bytewise(value)(round, request).value.values| <= 8
    {
      FirstPartSmall(request, value);
    }
    forall request: Selections | AnyLeft(request)
      ensures var response := Bytewise(value)(0, request).value;
              HonestAnswer(request, response, value) && AnswersSomething(response)
    {
      BytewiseAnswer(request, value);
    }
    AllReadInTime(Bytewise(value), algs, mask, value);
  }
}
