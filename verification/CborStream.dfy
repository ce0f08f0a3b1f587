/**
 The encoder as it pushes into its buffer and the decoder as it moves its
 cursor, each shown to compute what `CborCodec` says.
 */
module CborStream {
  import opened Wrappers
  import opened CborValue
  import opened KeyOrder
  import opened CborCodec
  import opened CborTheorems

  /** The vector `write` and `head` push into. */
  class Output {
    var bytes: Bytes

    constructor ()
      ensures bytes == []
    {
      bytes := [];
    }

    method Head(major: nat, n: nat)
      requires major < 8 && n < U64_END
      modifies this
      ensures bytes == old(bytes) + CborCodec.Head(major, n)
    {
      var m := 32 * major;
      if n < 24 {
        bytes := bytes + [m + n];
      } else if n <= 0xff {
        bytes := bytes + [m + 24, n];
      } else if n <= 0xffff {
        bytes := bytes + [m + 25];
        bytes := bytes + ToBe(n, 2);
      } else if n <= 0xffff_ffff {
        bytes := bytes + [m + 26];
        bytes := bytes + ToBe(n, 4);
      } else {
        bytes := bytes + [m + 27];
        bytes := bytes + ToBe(n, 8);
      }
    }

    method Write(v: Value)
      requires Typed(v)
      modifies this
      ensures bytes == old(bytes) + Encode(v)
      decreases v, 1
    {
      match v
      case Int(n) =>
        if n >= 0 {
          Head(0, n);
        } else {
          Head(1, -1 - n);
        }
      case Bstr(b) =>
        Head(2, |b|);
        bytes := bytes + b;
      case Text(t) =>
        Head(3, |t|);
        bytes := bytes + t;
      case Array(items) =>
        Head(4, |items|);
        WriteItems(items);
      case Map(entries) =>
        var encoded := EncodeEach(entries);
        Head(5, |encoded|);
        WritePairs(Sort(encoded, PairKey));
      case Bool(b) =>
        bytes := bytes + [if b then 0xf5 else 0xf4];
      case Null =>
        bytes := bytes + [0xf6];
    }

    /** The loop over an array's items. */
    method WriteItems(items: seq<Value>)
      requires TypedItems(items)
      modifies this
      ensures bytes == old(bytes) + EncodeItems(items)
      decreases items, 0
    {
      var i := 0;
      while i < |items|
        invariant i <= |items| && TypedItems(items[i..])
        invariant old(bytes) + EncodeItems(items) == bytes + EncodeItems(items[i..])
      {
        var item := items[i..][0];
        assert item == items[i] && items[i..][1..] == items[i + 1..];
        ghost var before := bytes;
        Write(items[i]);
        assert before + EncodeItems(items[i..]) == bytes + EncodeItems(items[i + 1..]);
        i := i + 1;
      }
    }

    /** The loop over a map's sorted pairs. */
    method WritePairs(pairs: seq<Pair>)
      modifies this
      ensures bytes == old(bytes) + Flatten(pairs)
    {
      var i := 0;
      while i < |pairs|
        invariant i <= |pairs|
        invariant old(bytes) + Flatten(pairs) == bytes + Flatten(pairs[i..])
      {
        assert pairs[i..][0] == pairs[i] && pairs[i..][1..] == pairs[i + 1..];
        ghost var before := bytes;
        bytes := bytes + pairs[i].key;
        bytes := bytes + pairs[i].value;
        assert before + Flatten(pairs[i..]) == bytes + Flatten(pairs[i + 1..]);
        i := i + 1;
      }
    }
  }

  /** `Value::encode`: a fresh buffer, written. */
  method EncodeValue(v: Value) returns (b: Bytes)
    requires Typed(v)
    ensures b == Encode(v)
    decreases v, 2
  {
    var out := new Output();
    out.Write(v);
    b := out.bytes;
  }

  /** Every key and value of a map, each encoded on its own. */
  method EncodeEach(entries: seq<Entry>) returns (pairs: seq<Pair>)
    requires TypedEntries(entries)
    ensures pairs == EncodePairs(entries)
    decreases entries, 0
  {
    pairs := [];
    var i := 0;
    while i < |entries|
      invariant i <= |entries| && TypedEntries(entries[i..])
      invariant EncodePairs(entries) == pairs + EncodePairs(entries[i..])
    {
      var e := entries[i..][0];
      assert e == entries[i] && entries[i..][1..] == entries[i + 1..];
      assert e.key < e && e.value < e;
      var k := EncodeValue(entries[i].key);
      var v := EncodeValue(entries[i].value);
      assert EncodePairs(entries[i..]) == [Pair(k, v)] + EncodePairs(entries[i + 1..]);
      pairs := pairs + [Pair(k, v)];
      i := i + 1;
    }
  }

  /** The cursor over the input. */
  class Reader {
    const input: Bytes
    var pos: nat

    constructor (input: Bytes)
      ensures this.input == input && pos == 0
    {
      this.input := input;
      pos := 0;
    }

    ghost predicate Valid()
      reads this
    {
      pos <= |input|
    }

    /** What has not been read yet. */
    ghost function Rest(): Bytes
      requires Valid()
      reads this
    {
      input[pos..]
    }

    method Take(n: nat) returns (r: Result<Bytes, Error>)
      requires Valid()
      modifies this
      ensures Valid() && Follows(r, CborCodec.Take(old(Rest()), n), Rest())
      ensures r.Err? ==> pos == old(pos)
    {
      if n > |input| - pos {
        return Err(Truncated);
      }
      var out := input[pos..pos + n];
      assert out == input[pos..][..n] && input[pos..][n..] == input[pos + n..];
      pos := pos + n;
      return Ok(out);
    }

    method Argument(info: nat) returns (r: Result<nat, Error>)
      requires Valid()
      modifies this
      ensures Valid() && Follows(r, CborCodec.Argument(old(Rest()), info), Rest())
      ensures r.Err? ==> pos == old(pos)
    {
      if info < 24 {
        return Ok(info);
      } else if info > 27 {
        return Err(ReservedLength);
      }
      var taken := Take(ArgumentWidth(info));
      match taken
      case Err(e) => return Err(e);
      case Ok(b) => return Ok(FromBe(b));
    }

    method Count(info: nat, pairs: bool) returns (r: Result<nat, Error>)
      requires Valid()
      modifies this
      ensures Valid() && Follows(r, CountOf(old(Rest()), info, pairs), Rest())
      // No forged count makes an allocation larger than what is left.
      ensures r.Ok? ==> (if pairs then 2 * r.value else r.value) <= |Rest()|
    {
      var n := Argument(info);
      match n
      case Err(e) => return Err(e);
      case Ok(n) =>
        if (if pairs then 2 * n else n) <= |input| - pos {
          return Ok(n);
        }
        return Err(Truncated);
    }

    /** One data item, `depth` levels down. */
    method Value(depth: nat) returns (r: Result<Value, Error>)
      requires Valid()
      modifies this
      ensures Valid() && Follows(r, ReadValue(old(Rest()), depth), Rest())
      decreases MAX_DEPTH + 1 - depth, 0
    {
      if depth > MAX_DEPTH {
        return Err(TooDeep);
      }
      ghost var s := Rest();
      var initial := Take(1);
      if initial.Err? {
        return Err(initial.error);
      }
      var major, info := initial.value[0] / 32, initial.value[0] % 32;
      assert ReadValue(s, depth) == ReadBody(Rest(), major, info, depth);
      if major == 4 {
        r := ArrayBody(info, depth);
      } else if major == 5 {
        r := MapBody(info, depth);
      } else {
        r := Scalar(major, info);
      }
    }

    method Scalar(major: nat, info: nat) returns (r: Result<Value, Error>)
      requires Valid()
      modifies this
      ensures Valid() && Follows(r, ReadScalar(old(Rest()), major, info), Rest())
    {
      if major < 4 {
        var argument := Argument(info);
        if argument.Err? {
          return Err(argument.error);
        }
        var n := argument.value;
        if major == 0 || major == 1 {
          if n >= I64_END {
            return Err(IntegerOutOfRange);
          }
          return Ok(Int(if major == 0 then n else -1 - n));
        }
        var bytes := Take(n);
        if bytes.Err? {
          return Err(bytes.error);
        }
        if major == 2 {
          return Ok(Bstr(bytes.value));
        }
        if !IsUtf8(bytes.value) {
          return Err(NotUtf8);
        }
        return Ok(Text(bytes.value));
      }
      if major == 6 {
        return Err(Tag);
      }
      match info
      case 20 => return Ok(Bool(false));
      case 21 => return Ok(Bool(true));
      case 22 => return Ok(Null);
      case _ => return Err(FloatOrSimple);
    }

    method ArrayBody(info: nat, depth: nat) returns (r: Result<Value, Error>)
      requires Valid() && depth <= MAX_DEPTH
      modifies this
      ensures Valid() && Follows(r, ReadBody(old(Rest()), 4, info, depth), Rest())
      decreases MAX_DEPTH - depth, 2
    {
      var count := Count(info, false);
      if count.Err? {
        return Err(count.error);
      }
      var items := Items(count.value, depth + 1);
      match items
      case Err(e) => return Err(e);
      case Ok(items) => return Ok(Array(items));
    }

    method MapBody(info: nat, depth: nat) returns (r: Result<Value, Error>)
      requires Valid() && depth <= MAX_DEPTH
      modifies this
      ensures Valid() && Follows(r, ReadBody(old(Rest()), 5, info, depth), Rest())
      decreases MAX_DEPTH - depth, 2
    {
      var count := Count(info, true);
      if count.Err? {
        return Err(count.error);
      }
      var entries := Entries(count.value, depth + 1);
      match entries
      case Err(e) => return Err(e);
      case Ok(entries) => return Ok(Map(entries));
    }

    /** The loop that fills an array. */
    method Items(n: nat, depth: nat) returns (r: Result<seq<Value>, Error>)
      requires Valid() && depth <= MAX_DEPTH + 1
      modifies this
      ensures Valid() && Follows(r, ReadItems(old(Rest()), depth, n), Rest())
      decreases MAX_DEPTH + 1 - depth, 1
    {
      ghost var all := ReadItems(Rest(), depth, n);
      var items: seq<CborValue.Value> := [];
      assert all.Done? ==> items + all.value == all.value;
      var i := 0;
      while i < n
        invariant Valid() && i <= n
        invariant all == Prepended(items, ReadItems(Rest(), depth, n - i))
      {
        ghost var s := Rest();
        var item := Value(depth);
        if item.Err? {
          return Err(item.error);
        }
        ghost var tail := ReadItems(Rest(), depth, n - i - 1);
        assert ReadItems(s, depth, n - i) == Prepended([item.value], tail);
        PrependedTwice(items, item.value, tail);
        items := items + [item.value];
        i := i + 1;
      }
      assert items + [] == items;
      return Ok(items);
    }

    /** The loop that fills a map. */
    method Entries(n: nat, depth: nat) returns (r: Result<seq<Entry>, Error>)
      requires Valid() && depth <= MAX_DEPTH + 1
      modifies this
      ensures Valid() && Follows(r, ReadEntries(old(Rest()), depth, n), Rest())
      decreases MAX_DEPTH + 1 - depth, 1
    {
      ghost var all := ReadEntries(Rest(), depth, n);
      var entries: seq<Entry> := [];
      assert all.Done? ==> entries + all.value == all.value;
      var i := 0;
      while i < n
        invariant Valid() && i <= n
        invariant all == Prepended(entries, ReadEntries(Rest(), depth, n - i))
      {
        ghost var s := Rest();
        var k := Value(depth);
        if k.Err? {
          return Err(k.error);
        }
        var v := Value(depth);
        if v.Err? {
          return Err(v.error);
        }
        ghost var tail := ReadEntries(Rest(), depth, n - i - 1);
        assert ReadEntries(s, depth, n - i) == Prepended([Entry(k.value, v.value)], tail);
        PrependedTwice(entries, Entry(k.value, v.value), tail);
        entries := entries + [Entry(k.value, v.value)];
        i := i + 1;
      }
      assert entries + [] == entries;
      return Ok(entries);
    }
  }

  /** `r` is the outcome `read` describes, with the cursor before `rest`. */
  ghost predicate Follows<T>(r: Result<T, Error>, read: Read<T>, rest: Bytes) {
    match read
    case Done(value, left) => r == Ok(value) && rest == left
    case Failed(e) => r == Err(e)
  }

  ghost function Prepended<T>(xs: seq<T>, read: Read<seq<T>>): Read<seq<T>> {
    match read
    case Done(ys, rest) => Done(xs + ys, rest)
    case Failed(e) => Failed(e)
  }

  lemma {:induction false} PrependedTwice<T>(xs: seq<T>, x: T, read: Read<seq<T>>)
    ensures Prepended(xs, Prepended([x], read)) == Prepended(xs + [x], read)
  {
    if read.Done? {
      assert xs + ([x] + read.value) == (xs + [x]) + read.value;
    }
  }

  /** The data item at the start of `input`, and how many bytes it took. What
      is accepted is typed, at most sixteen levels below its own deep, of no
      more items than bytes taken, and no longer in canonical form. */
  method DecodePrefix(input: Bytes) returns (r: Result<(Value, nat), Error>)
    ensures match ReadValue(input, 0)
            case Done(v, rest) => r.Ok? && r.value.0 == v && r.value.1 <= |input| && rest == input[r.value.1..]
            case Failed(e) => r == Err(e)
    ensures r.Ok? ==> Fits(r.value.0, 0, r.value.1)
  {
    var reader := new Reader(input);
    assert reader.Rest() == input;
    var value := reader.Value(0);
    ReadFits(input, 0);
    match value
    case Err(e) => return Err(e);
    case Ok(v) => return Ok((v, reader.pos));
  }

  /** Exactly one data item, with nothing after it: what is accepted is what
      reads to the end, and the encoding of any value not too deep is. */
  method Decode(input: Bytes) returns (r: Result<Value, Error>)
    ensures r.Ok? <==> ReadValue(input, 0).Done? && ReadValue(input, 0).rest == []
    ensures r.Ok? ==> r.value == ReadValue(input, 0).value && Fits(r.value, 0, |input|)
    ensures r.Err? ==> r.error == if ReadValue(input, 0).Done? then TrailingBytes else ReadValue(input, 0).error
    ensures forall v | Typed(v) && Encode(v) == input && Levels(v) <= MAX_DEPTH + 1 :: r == Ok(Canon(v))
  {
    var prefix := DecodePrefix(input);
    forall v | Typed(v) && Encode(v) == input && Levels(v) <= MAX_DEPTH + 1
      ensures ReadValue(input, 0) == Done(Canon(v), [])
    {
      RoundTrip(v, []);
      assert Encode(v) + [] == input;
    }
    if prefix.Err? {
      return Err(prefix.error);
    }
    var (value, used) := prefix.value;
    if used != |input| {
      assert input[used..] != [];
      return Err(TrailingBytes);
    }
    return Ok(value);
  }
}
