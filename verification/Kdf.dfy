/** The counter-mode key derivation functions KDFa (SP 800-108) and KDFe (SP 800-56A). */
module Kdf {
  import opened Wrappers
  import opened Bytes
  import opened Sequences

  datatype KdfError =
    | KeyIsEmpty
    | InvalidKdfKeyBits(bits: nat)
    | BufferTooSmall(expected: nat, actual: nat)

  /** The blocks of a key stream, one per counter value, all of one size. */
  datatype Blocks = Blocks(size: nat, block: nat -> seq<byte>)

  ghost predicate EvenBlocks(b: Blocks) {
    0 < b.size && forall n: nat :: |b.block(n)| == b.size
  }

  /** The first `len` bytes of block `counter` and those after it. */
  ghost function Stream(b: Blocks, counter: nat, len: nat): (s: seq<byte>)
    requires EvenBlocks(b)
    ensures |s| == len
    decreases len
  {
    if len <= b.size then b.block(counter)[..len] else b.block(counter) + Stream(b, counter + 1, len - b.size)
  }

  /** A shorter stream is a prefix of a longer one. */
  lemma {:induction false} StreamPrefix(b: Blocks, counter: nat, m: nat, n: nat)
    requires EvenBlocks(b) && m <= n
    ensures Stream(b, counter, m) == Stream(b, counter, n)[..m]
    decreases n
  {
    if n > b.size && m > b.size {
      StreamPrefix(b, counter + 1, m - b.size, n - b.size);
    }
  }

  /** Byte `r` of the block `q` places after the first lies at position `q * size + r` of the stream. */
  lemma {:induction false} StreamAt(b: Blocks, counter: nat, len: nat, q: nat, r: nat)
    requires EvenBlocks(b) && r < b.size && q * b.size + r < len
    ensures Stream(b, counter, len)[q * b.size + r] == b.block(counter + q)[r]
    decreases q
  {
    if q > 0 {
      assert q * b.size == (q - 1) * b.size + b.size;
      StreamAt(b, counter + 1, len - b.size, q - 1, r);
    }
  }

  // ----- labels -----

  /** The label with its terminator: none is added after a label that ends in NUL. */
  function Terminated(labelBytes: seq<byte>): seq<byte> {
    if labelBytes != [] && labelBytes[|labelBytes| - 1] == 0 then labelBytes else labelBytes + [0]
  }

  /** A trailing NUL makes no difference exactly when the label does not end in one already. */
  lemma TrailingNul(labelBytes: seq<byte>)
    ensures Terminated(labelBytes + [0]) == Terminated(labelBytes)
            <==> labelBytes == [] || labelBytes[|labelBytes| - 1] != 0
  {
    assert Terminated(labelBytes + [0]) == labelBytes + [0];
    if labelBytes != [] && labelBytes[|labelBytes| - 1] == 0 {
      assert |labelBytes + [0]| != |labelBytes|;
    }
  }

  // ----- payloads -----

  function KdfaPayload(labelBytes: seq<byte>, contextA: seq<byte>, contextB: seq<byte>, bits: u32,
      counter: nat): seq<byte> {
    BigEndian(4, counter) + Terminated(labelBytes) + contextA + contextB + BigEndian(4, bits)
  }

  function KdfePayload(z: seq<byte>, labelBytes: seq<byte>, contextU: seq<byte>, contextV: seq<byte>,
      counter: nat): seq<byte> {
    BigEndian(4, counter) + z + Terminated(labelBytes) + contextU + contextV
  }

  /** The stream KDFa draws on: it depends on the number of bits asked for. */
  function KdfaBlocks(
    size: nat, hmac: (seq<byte>, seq<byte>) -> seq<byte>, key: seq<byte>,
    labelBytes: seq<byte>, contextA: seq<byte>, contextB: seq<byte>, bits: u32): (b: Blocks)
    requires 0 < size && forall k, x :: |hmac(k, x)| == size
    ensures EvenBlocks(b)
  {
    var block := (n: nat) => hmac(key, KdfaPayload(labelBytes, contextA, contextB, bits, n));
    assert forall n: nat :: |block(n)| == size by {
      forall n: nat
        ensures |block(n)| == size
      {
        var payload := KdfaPayload(labelBytes, contextA, contextB, bits, n);
        assert |hmac(key, payload)| == size;
      }
    }
    Blocks(size, block)
  }

  /** The stream KDFe draws on: it does not. */
  function KdfeBlocks(
    size: nat, hash: seq<byte> -> seq<byte>,
    z: seq<byte>, labelBytes: seq<byte>, contextU: seq<byte>, contextV: seq<byte>): (b: Blocks)
    requires 0 < size && forall x :: |hash(x)| == size
    ensures EvenBlocks(b)
  {
    var block := (n: nat) => hash(KdfePayload(z, labelBytes, contextU, contextV, n));
    assert forall n: nat :: |block(n)| == size by {
      forall n: nat
        ensures |block(n)| == size
      {
        var payload := KdfePayload(z, labelBytes, contextU, contextV, n);
        assert |hash(payload)| == size;
      }
    }
    Blocks(size, block)
  }

  // ----- what a byte of output is made from -----

  /** A block of KDFa: the HMAC of the counter, label, NUL, both contexts and number of bits. */
  lemma KdfaBlock(
      size: nat, hmac: (seq<byte>, seq<byte>) -> seq<byte>, key: seq<byte>, labelBytes: seq<byte>,
      contextA: seq<byte>, contextB: seq<byte>, bits: u32, n: nat)
    requires 0 < size && forall k, x :: |hmac(k, x)| == size
    requires labelBytes == [] || labelBytes[|labelBytes| - 1] != 0
    ensures KdfaBlocks(size, hmac, key, labelBytes, contextA, contextB, bits).block(n)
            == hmac(key, BigEndian(4, n) + labelBytes + [0] + contextA + contextB + BigEndian(4, bits))
  {
    Associate(BigEndian(4, n), labelBytes, [0]);
    assert KdfaPayload(labelBytes, contextA, contextB, bits, n)
        == BigEndian(4, n) + labelBytes + [0] + contextA + contextB + BigEndian(4, bits);
  }

  /** A block of KDFe: the hash of the counter, shared secret, label, NUL and both contexts. */
  lemma KdfeBlock(
      size: nat, hash: seq<byte> -> seq<byte>, z: seq<byte>, labelBytes: seq<byte>,
      contextU: seq<byte>, contextV: seq<byte>, n: nat)
    requires 0 < size && forall x :: |hash(x)| == size
    requires labelBytes == [] || labelBytes[|labelBytes| - 1] != 0
    ensures KdfeBlocks(size, hash, z, labelBytes, contextU, contextV).block(n)
            == hash(BigEndian(4, n) + z + labelBytes + [0] + contextU + contextV)
  {
    Associate(BigEndian(4, n) + z, labelBytes, [0]);
    assert KdfePayload(z, labelBytes, contextU, contextV, n)
        == BigEndian(4, n) + z + labelBytes + [0] + contextU + contextV;
  }

  /** The first block's message for a label of one byte, 256 bits, and contexts of two bytes and one. */
  lemma PayloadLiterals()
    ensures KdfaPayload([0x41], [1, 2], [3], 256, 1) == [0, 0, 0, 1, 0x41, 0, 1, 2, 3, 0, 0, 1, 0]
    ensures KdfePayload([9], [0x41], [1, 2], [3], 1) == [0, 0, 0, 1, 9, 0x41, 0, 1, 2, 3]
  {
    BigEndianFour(1);
    BigEndianFour(256);
  }

  // ----- the loops -----

  method Copy(output: array<byte>, offset: nat, bytes: seq<byte>)
    requires offset + |bytes| <= output.Length
    modifies output
    ensures output[..] == old(output[..offset]) + bytes + old(output[offset + |bytes|..])
  {
    forall i | 0 <= i < |bytes| {
      output[offset + i] := bytes[i];
    }
  }

  /** Fills the front of `output` from blocks 1, 2, ...; the counter fits its four bytes throughout. */
  method Fill(b: Blocks, keyBytes: nat, output: array<byte>)
    requires EvenBlocks(b) && keyBytes <= output.Length && keyBytes < U32_COUNT - 1
    modifies output
    ensures output[..keyBytes] == Stream(b, 1, keyBytes)
    ensures output[keyBytes..] == old(output[keyBytes..])
  {
    var offset, counter: u32 := 0, 1;
    ghost var all, start := Stream(b, 1, keyBytes), output[..];
    assert all[0..] == all;
    while offset < keyBytes
      invariant offset <= keyBytes && counter <= offset + 1
      invariant Filled(b, counter, all, output[..], start, offset)
    {
      var block := b.block(counter);
      var remaining := keyBytes - offset;
      var taken := if remaining < |block| then remaining else |block|;
      ghost var before := output[..];
      Copy(output, offset, block[..taken]);
      FilledStep(b, counter, all, before, output[..], start, offset, taken);
      offset, counter := offset + taken, counter + 1;
    }
    assert all[..keyBytes] == all;
  }

  /** The front of the buffer holds the stream so far, the part beyond the key what it held before. */
  ghost predicate Filled(b: Blocks, counter: nat, all: seq<byte>, output: seq<byte>, start: seq<byte>, offset: nat)
    requires EvenBlocks(b)
  {
    && offset <= |all| <= |output| == |start|
    && output[..offset] == all[..offset] && all[offset..] == Stream(b, counter, |all| - offset)
    && output[|all|..] == start[|all|..]
  }

  lemma FilledStep(
      b: Blocks, counter: nat, all: seq<byte>, before: seq<byte>, after: seq<byte>, start: seq<byte>,
      offset: nat, taken: nat)
    requires EvenBlocks(b) && Filled(b, counter, all, before, start, offset)
    requires taken == if |all| - offset < b.size then |all| - offset else b.size
    requires after == before[..offset] + b.block(counter)[..taken] + before[offset + taken..]
    ensures Filled(b, counter + 1, all, after, start, offset + taken)
  {
    var rest, block := all[offset..], b.block(counter)[..taken];
    assert rest == block + Stream(b, counter + 1, |rest| - taken);
    assert all[offset + taken..] == rest[taken..] && all[..offset + taken] == all[..offset] + rest[..taken];
    assert after[..offset + taken] == before[..offset] + block;
  }

  method KdfaInto(
    size: nat, hmac: (seq<byte>, seq<byte>) -> seq<byte>, key: seq<byte>,
    labelBytes: seq<byte>, contextA: seq<byte>, contextB: seq<byte>, bits: nat, output: array<byte>)
    returns (r: Result<nat, KdfError>)
    requires 0 < size && forall k, x :: |hmac(k, x)| == size
    modifies output
    ensures r == if key == [] then Err(KeyIsEmpty)
                 else if bits >= U32_COUNT then Err(InvalidKdfKeyBits(bits))
                 else if output.Length < BytesFor(bits) then Err(BufferTooSmall(BytesFor(bits), output.Length))
                 else Ok(BytesFor(bits))
    ensures r.Err? ==> output[..] == old(output[..])
    ensures r.Ok? ==> output[..r.value]
                         == Stream(KdfaBlocks(size, hmac, key, labelBytes, contextA, contextB, bits), 1, r.value)
    ensures r.Ok? ==> output[r.value..] == old(output[r.value..])
  {
    if key == [] {
      return Err(KeyIsEmpty);
    }
    if bits >= U32_COUNT {
      return Err(InvalidKdfKeyBits(bits));
    }
    var keyBytes := BytesFor(bits);
    if output.Length < keyBytes {
      return Err(BufferTooSmall(keyBytes, output.Length));
    }
    Fill(KdfaBlocks(size, hmac, key, labelBytes, contextA, contextB, bits), keyBytes, output);
    return Ok(keyBytes);
  }

  method KdfeInto(
    size: nat, hash: seq<byte> -> seq<byte>,
    z: seq<byte>, labelBytes: seq<byte>, contextU: seq<byte>, contextV: seq<byte>, bits: nat, output: array<byte>)
    returns (r: Result<nat, KdfError>)
    requires 0 < size && forall x :: |hash(x)| == size
    modifies output
    ensures r == if bits >= U32_COUNT then Err(InvalidKdfKeyBits(bits))
                 else if output.Length < BytesFor(bits) then Err(BufferTooSmall(BytesFor(bits), output.Length))
                 else Ok(BytesFor(bits))
    ensures r.Err? ==> output[..] == old(output[..])
    ensures r.Ok? ==> output[..r.value] == Stream(KdfeBlocks(size, hash, z, labelBytes, contextU, contextV), 1, r.value)
    ensures r.Ok? ==> output[r.value..] == old(output[r.value..])
  {
    if bits >= U32_COUNT {
      return Err(InvalidKdfKeyBits(bits));
    }
    var keyBytes := BytesFor(bits);
    if output.Length < keyBytes {
      return Err(BufferTooSmall(keyBytes, output.Length));
    }
    Fill(KdfeBlocks(size, hash, z, labelBytes, contextU, contextV), keyBytes, output);
    return Ok(keyBytes);
  }

  /** KDFe into a buffer of its own. */
  method Kdfe(
    size: nat, hash: seq<byte> -> seq<byte>,
    z: seq<byte>, labelBytes: seq<byte>, contextU: seq<byte>, contextV: seq<byte>, bits: nat)
    returns (r: Result<seq<byte>, KdfError>)
    requires 0 < size && forall x :: |hash(x)| == size
    ensures bits >= U32_COUNT ==> r == Err(InvalidKdfKeyBits(bits))
    ensures bits < U32_COUNT ==>
              r == Ok(Stream(KdfeBlocks(size, hash, z, labelBytes, contextU, contextV), 1, BytesFor(bits)))
  {
    if bits >= U32_COUNT {
      return Err(InvalidKdfKeyBits(bits));
    }
    var keyStream := new byte[BytesFor(bits)];
    var len := KdfeInto(size, hash, z, labelBytes, contextU, contextV, bits, keyStream);
    return Ok(keyStream[..len.value]);
  }

  /** Asking KDFe for fewer bits gives a prefix of what asking for more gives. */
  lemma KdfePrefix(
      size: nat, hash: seq<byte> -> seq<byte>,
      z: seq<byte>, labelBytes: seq<byte>, contextU: seq<byte>, contextV: seq<byte>,
      fewer: nat, more: nat)
    requires 0 < size && (forall x :: |hash(x)| == size) && fewer <= more
    ensures BytesFor(fewer) <= BytesFor(more)
    ensures var b := KdfeBlocks(size, hash, z, labelBytes, contextU, contextV);
            Stream(b, 1, BytesFor(fewer)) == Stream(b, 1, BytesFor(more))[..BytesFor(fewer)]
  {
    StreamPrefix(KdfeBlocks(size, hash, z, labelBytes, contextU, contextV), 1, BytesFor(fewer), BytesFor(more));
  }

  lemma {:induction false} SameBlocksSameStream(b: Blocks, c: Blocks, counter: nat, len: nat)
    requires EvenBlocks(b) && EvenBlocks(c) && b.size == c.size && forall n: nat :: b.block(n) == c.block(n)
    ensures Stream(b, counter, len) == Stream(c, counter, len)
    decreases len
  {
    if len > b.size {
      SameBlocksSameStream(b, c, counter + 1, len - b.size);
    }
  }

  /** KDFa and KDFe read a label with or without its trailing NUL alike. */
  lemma LabelsAlike(
      size: nat, hmac: (seq<byte>, seq<byte>) -> seq<byte>, hash: seq<byte> -> seq<byte>, key: seq<byte>, z: seq<byte>,
      labelBytes: seq<byte>, x: seq<byte>, y: seq<byte>, bits: u32, len: nat)
    requires 0 < size && (forall k, d :: |hmac(k, d)| == size) && forall d :: |hash(d)| == size
    requires labelBytes == [] || labelBytes[|labelBytes| - 1] != 0
    ensures Stream(KdfaBlocks(size, hmac, key, labelBytes + [0], x, y, bits), 1, len)
            == Stream(KdfaBlocks(size, hmac, key, labelBytes, x, y, bits), 1, len)
    ensures Stream(KdfeBlocks(size, hash, z, labelBytes + [0], x, y), 1, len)
            == Stream(KdfeBlocks(size, hash, z, labelBytes, x, y), 1, len)
  {
    TrailingNul(labelBytes);
    var longer := labelBytes + [0];
    var a, b := KdfaBlocks(size, hmac, key, longer, x, y, bits), KdfaBlocks(size, hmac, key, labelBytes, x, y, bits);
    forall n: nat
      ensures a.block(n) == b.block(n)
    {
      assert KdfaPayload(longer, x, y, bits, n) == KdfaPayload(labelBytes, x, y, bits, n);
    }
    SameBlocksSameStream(a, b, 1, len);
    var c, d := KdfeBlocks(size, hash, z, longer, x, y), KdfeBlocks(size, hash, z, labelBytes, x, y);
    forall n: nat
      ensures c.block(n) == d.block(n)
    {
      assert KdfePayload(z, longer, x, y, n) == KdfePayload(z, labelBytes, x, y, n);
    }
    SameBlocksSameStream(c, d, 1, len);
  }
}
