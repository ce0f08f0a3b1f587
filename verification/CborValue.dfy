/**
 The CBOR codec of `cbor.rs`: the part of RFC 8949 that CTAP2 speaks, written
 in CTAP2's canonical form and read back from bytes nobody vouches for.

 `Encode` and `ReadValue` say what the encoder and the decoder compute;
 `Output` and `Reader` are the buffer and the cursor that compute it.
 */
module CborValue {

  type Byte = b: int | 0 <= b < 256
  type Bytes = seq<Byte>

  const MAX_DEPTH: nat := 16
  const U64_END: nat := 0x1_0000_0000_0000_0000
  const I64_END: int := 0x8000_0000_0000_0000

  /** A data item. `Text` holds the bytes of the string. */
  datatype Value =
    | Int(n: int)
    | Bstr(bytes: Bytes)
    | Text(text: Bytes)
    | Array(items: seq<Value>)
    | Map(entries: seq<Entry>)
    | Bool(b: bool)
    | Null

  datatype Entry = Entry(key: Value, value: Value)

  function Max(a: nat, b: nat): nat {
    if a < b then b else a
  }

  /** How many levels a value takes: one for itself, and its deepest child's. */
  function Levels(v: Value): (r: nat)
    ensures r >= 1
    decreases v, 1
  {
    match v
    case Array(items) => 1 + ItemLevels(items)
    case Map(entries) => 1 + EntryLevels(entries)
    case _ => 1
  }

  function ItemLevels(items: seq<Value>): nat
    decreases items, 0
  {
    if items == [] then 0 else Max(Levels(items[0]), ItemLevels(items[1..]))
  }

  function EntryLevels(entries: seq<Entry>): nat
    decreases entries, 0
  {
    if entries == [] then 0
    else
      var e := entries[0];
      assert e.key < e && e.value < e;
      Max(Max(Levels(e.key), Levels(e.value)), EntryLevels(entries[1..]))
  }

  /** How many data items a value is made of, itself included. */
  function Count(v: Value): (r: nat)
    ensures r >= 1
    decreases v, 1
  {
    match v
    case Array(items) => 1 + CountItems(items)
    case Map(entries) => 1 + CountEntries(entries)
    case _ => 1
  }

  function CountItems(items: seq<Value>): nat
    decreases items, 0
  {
    if items == [] then 0 else Count(items[0]) + CountItems(items[1..])
  }

  function CountEntries(entries: seq<Entry>): nat
    decreases entries, 0
  {
    if entries == [] then 0
    else
      var e := entries[0];
      assert e.key < e && e.value < e;
      Count(e.key) + Count(e.value) + CountEntries(entries[1..])
  }

  /** The length in bytes of the well-formed UTF-8 sequence (RFC 3629) that
      `b` starts with, or 0 when it starts with none. */
  function Utf8Unit(b: Bytes): (k: nat)
    ensures k <= |b|
  {
    if b == [] then 0
    else if b[0] < 0x80 then 1
    else if |b| >= 2 && 0xC2 <= b[0] <= 0xDF && Continues(b[1]) then 2
    else if |b| >= 3 && 0xE0 <= b[0] <= 0xEF && Continues(b[1]) && Continues(b[2])
            && (b[0] == 0xE0 ==> b[1] >= 0xA0) && (b[0] == 0xED ==> b[1] < 0xA0) then 3
    else if |b| >= 4 && 0xF0 <= b[0] <= 0xF4 && Continues(b[1]) && Continues(b[2]) && Continues(b[3])
            && (b[0] == 0xF0 ==> b[1] >= 0x90) && (b[0] == 0xF4 ==> b[1] < 0x90) then 4
    else 0
  }

  predicate Continues(b: Byte) {
    0x80 <= b < 0xC0
  }

  predicate IsUtf8(b: Bytes) {
    b == [] || (Utf8Unit(b) > 0 && IsUtf8(b[Utf8Unit(b)..]))
  }

  /** What the source's types already say of a value: integers are `i64`,
      text is UTF-8, and no length reaches 2^64. */
  predicate Typed(v: Value)
    decreases v, 1
  {
    match v
    case Int(n) => -I64_END <= n < I64_END
    case Bstr(b) => |b| < U64_END
    case Text(t) => |t| < U64_END && IsUtf8(t)
    case Array(items) => |items| < U64_END && TypedItems(items)
    case Map(entries) => |entries| < U64_END && TypedEntries(entries)
    case _ => true
  }

  predicate TypedItems(items: seq<Value>)
    decreases items, 0
  {
    items == [] || (Typed(items[0]) && TypedItems(items[1..]))
  }

  predicate TypedEntries(entries: seq<Entry>)
    decreases entries, 0
  {
    entries == [] ||
    (var e := entries[0];
     assert e.key < e && e.value < e;
     Typed(e.key) && Typed(e.value) && TypedEntries(entries[1..]))
  }
}
