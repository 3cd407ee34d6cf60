/**
  A schema language for TPM wire types. The protocol crate generates one codec
  per type by macro; here each macro is one constructor, and each wire type is
  one schema.
 */
module WireSchema {
  import opened Bytes

  datatype Schema =
    | Empty
    | UInt(width: nat)                        // tpm_int, tpm_bitflags
    | Bool                                    // tpm_bool
    | Enum(width: nat, values: set<nat>)      // tpm_enum
    | Raw(length: nat)                        // digest whose size its tag fixes (TpmuHa)
    | Buffer(sizeWidth: nat, capacity: nat)   // TPM2B (two-byte size), PCR bitmap (one-byte size)
    | List(item: Schema, capacity: nat)       // TPML
    | Pair(first: Schema, second: Schema)     // tpm_struct: fields in order
    | Sized(inner: Schema, limit: nat)        // tpm2b_struct
    | Tagged(width: nat, values: set<nat>, nulls: NullRule, body: Schema)
    | Union(select: map<nat, nat>, variants: seq<Schema>)   // tpmu_view: which variant each tag selects

  /** TPMT_SYM_DEF writes nothing after a null tag, and reads `details` back. */
  datatype NullRule = NoNull | NullTag(tag: nat, details: Value)

  datatype Value =
    | Unit
    | Num(n: nat)
    | Octets(bytes: seq<byte>)
    | Items(items: seq<Value>)
    | Both(first: Value, second: Value)
    | WithTag(tag: nat, body: Value)
    | Variant(id: nat, payload: Value)

  datatype TpmError =
    | UnexpectedEnd
    | VariantNotAvailable
    | InvalidBoolean
    | TooManyItems
    | TooManyBytes
    | TrailingData
    | IntegerTooLarge
    | BufferOverflow
    | InvalidTag
    | InvalidCc
    | InvalidRc

  /** `tag` selects variant `id` (`matches_tag`). */
  predicate Selects(select: map<nat, nat>, tag: nat, id: nat) {
    tag in select && select[tag] == id
  }

  /** Values the Rust type of the schema can hold, whatever their tags say. */
  predicate Typed(s: Schema, v: Value) {
    match s
    case Empty => v.Unit?
    case UInt(w) => v.Num? && v.n < Pow256(w)
    case Bool => v.Num? && v.n < 2
    case Enum(_, values) => v.Num? && v.n in values
    case Raw(n) => v.Octets? && |v.bytes| == n
    case Buffer(w, cap) => v.Octets? && |v.bytes| <= cap
    case List(item, cap) => v.Items? && |v.items| <= cap && forall x <- v.items :: Typed(item, x)
    case Pair(a, b) => v.Both? && Typed(a, v.first) && Typed(b, v.second)
    case Sized(inner, _) => Typed(inner, v)
    case Tagged(_, values, _, body) => v.WithTag? && v.tag in values && Typed(body, v.body)
    case Union(_, variants) => v.Variant? && v.id < |variants| && Typed(variants[v.id], v.payload)
  }

  /** The longest encoding of any value of the schema. */
  function MaxLen(s: Schema): nat {
    match s
    case Empty => 0
    case UInt(w) => w
    case Bool => 1
    case Enum(w, _) => w
    case Raw(n) => n
    case Buffer(w, cap) => w + cap
    case List(item, cap) => 4 + cap * MaxLen(item)
    case Pair(a, b) => MaxLen(a) + MaxLen(b)
    case Sized(inner, _) => 2 + MaxLen(inner)
    case Tagged(w, _, _, body) => w + MaxLen(body)
    case Union(_, variants) => MaxVariant(variants)
  }

  function MaxVariant(variants: seq<Schema>): (m: nat)
    ensures forall i :: 0 <= i < |variants| ==> MaxLen(variants[i]) <= m
    ensures m == 0 || exists i :: 0 <= i < |variants| && m == MaxLen(variants[i])
  {
    if variants == [] then 0
    else
      var m, r := MaxLen(variants[0]), MaxVariant(variants[1..]);
      if m > r then m else r
  }

  /** Schemas that describe real wire types. */
  predicate WellFormed(s: Schema) {
    match s
    case Empty => true
    case UInt(_) => true
    case Bool => true
    case Enum(w, values) => forall x <- values :: x < Pow256(w)
    case Raw(_) => true
    case Buffer(w, cap) => cap < Pow256(w)
    case List(item, cap) => cap < Pow256(4) && WellFormed(item)
    case Pair(a, b) => WellFormed(a) && WellFormed(b)
    case Sized(inner, limit) => MaxLen(inner) <= limit < Pow256(2) && WellFormed(inner)
    case Tagged(w, values, nulls, body) =>
      && (forall x <- values :: x < Pow256(w))
      && (nulls.NullTag? ==> Typed(body, nulls.details) && Canon(body, nulls.details) == nulls.details)
      && WellFormed(body)
    case Union(select, variants) =>
      && (forall t <- select :: select[t] < |variants|)
      && (forall x <- variants :: WellFormed(x))
  }

  /** The value that survives on the wire: details under a null tag are dropped. */
  function Canon(s: Schema, v: Value): Value
    decreases s, 0
  {
    match s
    case List(item, _) => if v.Items? then Items(CanonItems(item, v.items)) else v
    case Pair(a, b) => if v.Both? then Both(Canon(a, v.first), Canon(b, v.second)) else v
    case Sized(inner, _) => Canon(inner, v)
    case Tagged(_, _, nulls, body) =>
      if v.WithTag? then
        if nulls.NullTag? && v.tag == nulls.tag then WithTag(v.tag, nulls.details)
        else WithTag(v.tag, Canon(body, v.body))
      else v
    case Union(_, variants) =>
      if v.Variant? && v.id < |variants| then Variant(v.id, Canon(variants[v.id], v.payload)) else v
    case _ => v
  }

  function CanonItems(item: Schema, vs: seq<Value>): (r: seq<Value>)
    ensures |r| == |vs|
    decreases item, |vs| + 1
  {
    if vs == [] then [] else [Canon(item, vs[0])] + CanonItems(item, vs[1..])
  }
}
