/** What the encoder and the decoder compute. */
module CborCodec {
  import opened CborValue
  import opened KeyOrder

  /** `n` big-endian in `width` bytes. */
  function ToBe(n: nat, width: nat): (b: Bytes)
    ensures |b| == width
  {
    if width == 0 then [] else ToBe(n / 256, width - 1) + [n % 256]
  }

  function FromBe(b: Bytes): nat {
    if b == [] then 0 else 256 * FromBe(b[..|b| - 1]) + b[|b| - 1]
  }

  function Pow256(width: nat): nat {
    if width == 0 then 1 else 256 * Pow256(width - 1)
  }

  lemma {:induction false} BigEndian(n: nat, width: nat)
    requires n < Pow256(width)
    ensures FromBe(ToBe(n, width)) == n
  {
    if width != 0 {
      BigEndian(n / 256, width - 1);
      var b := ToBe(n, width);
      assert b[..|b| - 1] == ToBe(n / 256, width - 1);
    }
  }

  lemma {:induction false} FromBeBound(b: Bytes)
    ensures FromBe(b) < Pow256(|b|)
  {
    if b != [] {
      FromBeBound(b[..|b| - 1]);
    }
  }

  lemma {:induction false} Powers()
    ensures Pow256(1) == 0x100 && Pow256(2) == 0x1_0000 && Pow256(4) == 0x1_0000_0000 && Pow256(8) == U64_END
  {
    assert Pow256(3) == 0x100_0000 && Pow256(4) == 0x1_0000_0000 && Pow256(5) == 0x100_0000_0000;
    assert Pow256(6) == 0x1_0000_0000_0000 && Pow256(7) == 0x100_0000_0000_0000;
  }

  /** The major type and the shortest form of its argument. */
  function Head(major: nat, n: nat): (b: Bytes)
    requires major < 8 && n < U64_END
    ensures b != []
  {
    if n < 24 then [32 * major + n]
    else if n <= 0xff then [32 * major + 24, n]
    else if n <= 0xffff then [32 * major + 25] + ToBe(n, 2)
    else if n <= 0xffff_ffff then [32 * major + 26] + ToBe(n, 4)
    else [32 * major + 27] + ToBe(n, 8)
  }

  datatype Pair = Pair(key: Bytes, value: Bytes)

  function PairKey(p: Pair): Bytes {
    p.key
  }

  function Flatten(pairs: seq<Pair>): Bytes {
    if pairs == [] then [] else pairs[0].key + pairs[0].value + Flatten(pairs[1..])
  }

  /** The canonical encoding. */
  function Encode(v: Value): (b: Bytes)
    requires Typed(v)
    ensures b != []
    decreases v, 1
  {
    match v
    case Int(n) => if n >= 0 then Head(0, n) else Head(1, -1 - n)
    case Bstr(b) => Head(2, |b|) + b
    case Text(t) => Head(3, |t|) + t
    case Array(items) => Head(4, |items|) + EncodeItems(items)
    case Map(entries) => Head(5, |entries|) + Flatten(Sort(EncodePairs(entries), PairKey))
    case Bool(b) => [if b then 0xf5 else 0xf4]
    case Null => [0xf6]
  }

  function EncodeItems(items: seq<Value>): Bytes
    requires TypedItems(items)
    decreases items, 0
  {
    if items == [] then [] else Encode(items[0]) + EncodeItems(items[1..])
  }

  function EncodePairs(entries: seq<Entry>): (r: seq<Pair>)
    requires TypedEntries(entries)
    ensures |r| == |entries|
    decreases entries, 0
  {
    if entries == [] then []
    else
      var e := entries[0];
      assert e.key < e && e.value < e;
      [Pair(Encode(e.key), Encode(e.value))] + EncodePairs(entries[1..])
  }

  // --- reading --------------------------------------------------------------

  datatype Error =
    | Truncated
    | ReservedLength
    | TooDeep
    | IntegerOutOfRange
    | NotUtf8
    | Tag
    | FloatOrSimple
    | TrailingBytes

  /** What reading from the front of some bytes gives: a value and what is
      left, or why there is none. */
  datatype Read<+T> = Done(value: T, rest: Bytes) | Failed(error: Error)

  /** `usize::try_from` and the comparison both answer `Truncated`. */
  function Take(s: Bytes, n: nat): Read<Bytes> {
    if n > |s| then Failed(Truncated) else Done(s[..n], s[n..])
  }

  function ArgumentWidth(info: nat): nat
    requires 24 <= info <= 27
  {
    if info == 24 then 1 else if info == 25 then 2 else if info == 26 then 4 else 8
  }

  function Argument(s: Bytes, info: nat): Read<nat> {
    if info < 24 then Done(info, s)
    else if info > 27 then Failed(ReservedLength)
    else match Take(s, ArgumentWidth(info))
         case Failed(e) => Failed(e)
         case Done(b, rest) => Done(FromBe(b), rest)
  }

  /** A count of items of at least a byte each, or of pairs of them.
      `checked_mul` fails only above any length there is. */
  function CountOf(s: Bytes, info: nat, pairs: bool): Read<nat> {
    match Argument(s, info)
    case Failed(e) => Failed(e)
    case Done(n, rest) => if (if pairs then 2 * n else n) <= |rest| then Done(n, rest) else Failed(Truncated)
  }

  /** One data item from the front of `s`, `depth` levels down. The decoder starts at
      zero; starting lower leaves room for that many levels more. */
  function ReadValue(s: Bytes, depth: int): Read<Value>
    decreases MAX_DEPTH + 1 - depth, 0
  {
    if depth > MAX_DEPTH then Failed(TooDeep)
    else if s == [] then Failed(Truncated)
    else ReadBody(s[1..], s[0] / 32, s[0] % 32, depth)
  }

  /** The item whose initial byte said `major` and `info`. */
  function ReadBody(s: Bytes, major: nat, info: nat, depth: int): Read<Value>
    requires depth <= MAX_DEPTH
    decreases MAX_DEPTH - depth, 2
  {
    if major == 4 then
      match CountOf(s, info, false)
      case Failed(e) => Failed(e)
      case Done(n, rest) =>
        (match ReadItems(rest, depth + 1, n)
         case Failed(e) => Failed(e)
         case Done(items, rest') => Done(Array(items), rest'))
    else if major == 5 then
      match CountOf(s, info, true)
      case Failed(e) => Failed(e)
      case Done(n, rest) =>
        (match ReadEntries(rest, depth + 1, n)
         case Failed(e) => Failed(e)
         case Done(entries, rest') => Done(Map(entries), rest'))
    else ReadScalar(s, major, info)
  }

  function ReadScalar(s: Bytes, major: nat, info: nat): Read<Value> {
    if major == 0 || major == 1 then
      match Argument(s, info)
      case Failed(e) => Failed(e)
      case Done(n, rest) =>
        if n >= I64_END then Failed(IntegerOutOfRange) else Done(Int(if major == 0 then n else -1 - n), rest)
    else if major == 2 || major == 3 then
      match ReadString(s, info)
      case Failed(e) => Failed(e)
      case Done(b, rest) =>
        if major == 2 then Done(Bstr(b), rest)
        else if IsUtf8(b) then Done(Text(b), rest)
        else Failed(NotUtf8)
    else if major == 6 then Failed(Tag)
    else if info == 20 then Done(Bool(false), s)
    else if info == 21 then Done(Bool(true), s)
    else if info == 22 then Done(Null, s)
    else Failed(FloatOrSimple)
  }

  function ReadString(s: Bytes, info: nat): Read<Bytes> {
    match Argument(s, info)
    case Failed(e) => Failed(e)
    case Done(n, rest) => Take(rest, n)
  }

  function ReadItems(s: Bytes, depth: int, n: nat): Read<seq<Value>>
    requires depth <= MAX_DEPTH + 1
    decreases MAX_DEPTH + 1 - depth, 1, n
  {
    if n == 0 then Done([], s)
    else match ReadValue(s, depth)
         case Failed(e) => Failed(e)
         case Done(v, rest) =>
           (match ReadItems(rest, depth, n - 1)
            case Failed(e) => Failed(e)
            case Done(vs, rest') => Done([v] + vs, rest'))
  }

  function ReadEntries(s: Bytes, depth: int, n: nat): Read<seq<Entry>>
    requires depth <= MAX_DEPTH + 1
    decreases MAX_DEPTH + 1 - depth, 1, n
  {
    if n == 0 then Done([], s)
    else match ReadValue(s, depth)
         case Failed(e) => Failed(e)
         case Done(k, rest) =>
           (match ReadValue(rest, depth)
            case Failed(e) => Failed(e)
            case Done(v, rest') =>
              (match ReadEntries(rest', depth, n - 1)
               case Failed(e) => Failed(e)
               case Done(es, rest'') => Done([Entry(k, v)] + es, rest'')))
  }
}
