/** What the codec promises of every value and of every input. */
module CborTheorems {
  import opened CborValue
  import opened KeyOrder
  import opened CborCodec

  // --- the canonical form of a value ----------------------------------------

  function EntryKey(e: Entry): Bytes {
    if Typed(e.key) then Encode(e.key) else []
  }

  /** `v` with every map in it, however deep, sorted by its keys' encodings. */
  function Canon(v: Value): Value
    decreases v, 1
  {
    match v
    case Array(items) => Array(CanonItems(items))
    case Map(entries) => Map(Sort(CanonEntries(entries), EntryKey))
    case _ => v
  }

  function CanonItems(items: seq<Value>): (r: seq<Value>)
    ensures |r| == |items|
    decreases items, 0
  {
    if items == [] then [] else [Canon(items[0])] + CanonItems(items[1..])
  }

  function CanonEntries(entries: seq<Entry>): (r: seq<Entry>)
    ensures |r| == |entries|
    decreases entries, 0
  {
    if entries == [] then []
    else
      var e := entries[0];
      assert e.key < e && e.value < e;
      [Entry(Canon(e.key), Canon(e.value))] + CanonEntries(entries[1..])
  }

  /** Every map in `v` lists its keys in the canonical order. */
  ghost predicate MapsSorted(v: Value)
    decreases v, 1
  {
    match v
    case Array(items) => forall x | x in items :: MapsSorted(x)
    case Map(entries) => Sorted(entries, EntryKey) && EntriesSorted(entries)
    case _ => true
  }

  ghost predicate EntriesSorted(entries: seq<Entry>)
    decreases entries, 0
  {
    forall e | e in entries :: assert e.key < e && e.value < e; MapsSorted(e.key) && MapsSorted(e.value)
  }

  // --- sorting entries and sorting their encodings are the same thing ---------

  lemma {:induction false} InsertEntry(e: Entry, es: seq<Entry>)
    requires Typed(e.key) && Typed(e.value) && TypedEntries(es)
    ensures var r := Insert(e, es, EntryKey);
            && TypedEntries(r)
            && EncodePairs(r) == Insert(Pair(Encode(e.key), Encode(e.value)), EncodePairs(es), PairKey)
            && EntryLevels(r) == EntryLevels([e] + es)
  {
    assert ([e] + es)[1..] == es;
    if es != [] && !KeyLeq(EntryKey(e), EntryKey(es[0])) {
      InsertEntry(e, es[1..]);
      var r := Insert(e, es[1..], EntryKey);
      assert ([es[0]] + r)[1..] == r;
      assert ([e] + es[1..])[1..] == es[1..];
      assert EncodePairs(es)[1..] == EncodePairs(es[1..]);
    }
  }

  lemma {:induction false} SortEntries(es: seq<Entry>)
    requires TypedEntries(es)
    ensures var r := Sort(es, EntryKey);
            && TypedEntries(r)
            && EncodePairs(r) == Sort(EncodePairs(es), PairKey)
            && EntryLevels(r) == EntryLevels(es)
  {
    if es != [] {
      SortEntries(es[1..]);
      InsertEntry(es[0], Sort(es[1..], EntryKey));
      assert ([es[0]] + Sort(es[1..], EntryKey))[1..] == Sort(es[1..], EntryKey);
      assert EncodePairs(es)[1..] == EncodePairs(es[1..]);
    }
  }

  /** The encoding sees a value only through its canonical form. */
  lemma {:induction false} EncodeCanon(v: Value)
    requires Typed(v)
    ensures Typed(Canon(v)) && Levels(Canon(v)) == Levels(v)
    ensures Encode(Canon(v)) == Encode(v)
    decreases v, 1
  {
    match v
    case Array(items) => EncodeCanonItems(items);
    case Map(entries) =>
      EncodeCanonEntries(entries);
      var ces := CanonEntries(entries);
      SortEntries(ces);
      SortIsStable(EncodePairs(ces), PairKey, []);
      SortOfSorted(Sort(EncodePairs(ces), PairKey), PairKey);
    case _ =>
  }

  lemma {:induction false} EncodeCanonItems(items: seq<Value>)
    requires TypedItems(items)
    ensures TypedItems(CanonItems(items)) && ItemLevels(CanonItems(items)) == ItemLevels(items)
    ensures EncodeItems(CanonItems(items)) == EncodeItems(items)
    decreases items, 0
  {
    if items != [] {
      EncodeCanon(items[0]);
      EncodeCanonItems(items[1..]);
      assert CanonItems(items)[1..] == CanonItems(items[1..]);
    }
  }

  lemma {:induction false} EncodeCanonEntries(entries: seq<Entry>)
    requires TypedEntries(entries)
    ensures TypedEntries(CanonEntries(entries)) && EntryLevels(CanonEntries(entries)) == EntryLevels(entries)
    ensures EncodePairs(CanonEntries(entries)) == EncodePairs(entries)
    decreases entries, 0
  {
    if entries != [] {
      var e := entries[0];
      assert e.key < e && e.value < e;
      EncodeCanon(e.key);
      EncodeCanon(e.value);
      EncodeCanonEntries(entries[1..]);
      assert CanonEntries(entries)[1..] == CanonEntries(entries[1..]);
    }
  }

  // --- reading back what was written ------------------------------------------

  lemma {:induction false} InitialByte(major: nat, info: nat)
    requires info < 32
    ensures (32 * major + info) / 32 == major && (32 * major + info) % 32 == info
  {
  }

  lemma {:induction false} ReadWide(n: nat, info: nat, t: Bytes)
    requires 24 <= info <= 27 && n < Pow256(ArgumentWidth(info))
    ensures Argument(ToBe(n, ArgumentWidth(info)) + t, info) == Done(n, t)
  {
    var b := ToBe(n, ArgumentWidth(info));
    BigEndian(n, |b|);
    assert (b + t)[..|b|] == b && (b + t)[|b|..] == t;
  }

  /** How a head's argument is given after its initial byte. */
  lemma {:induction false} HeadForm(major: nat, n: nat) returns (info: nat)
    requires major < 8 && n < U64_END
    ensures info < 24 ==> n == info && Head(major, n) == [32 * major + info]
    ensures info >= 24 ==>
              && info <= 27 && n < Pow256(ArgumentWidth(info))
              && Head(major, n) == [32 * major + info] + ToBe(n, ArgumentWidth(info))
  {
    Powers();
    info := if n < 24 then n else if n <= 0xff then 24 else if n <= 0xffff then 25 else if n <= 0xffff_ffff then 26 else 27;
    if info == 24 {
      assert ToBe(n / 256, 0) == [];
      assert ToBe(n, 1) == [n];
    }
  }

  lemma {:induction false} ReadArgument(major: nat, n: nat, t: Bytes)
    requires major < 8 && n < U64_END
    ensures var h := Head(major, n);
            h[0] / 32 == major && Argument(h[1..] + t, h[0] % 32) == Done(n, t)
  {
    var h := Head(major, n);
    var info := HeadForm(major, n);
    InitialByte(major, info);
    if info < 24 {
      assert h[1..] + t == t;
    } else {
      ReadWide(n, info, t);
      assert h[1..] == ToBe(n, ArgumentWidth(info));
    }
  }

  lemma {:induction false} ThreeParts(a: Bytes, b: Bytes, c: Bytes)
    ensures (a + b) + c == a + (b + c)
  {
  }

  /** Reading the encoding of `x`, whatever follows it, gives `x` back, or
      says that it is too deep. */
  ghost predicate ReadsBack(x: Value, depth: int)
    requires Typed(x)
  {
    forall t: Bytes ::
      ReadValue(Encode(x) + t, depth) ==
      if depth + Levels(x) <= MAX_DEPTH + 1 then Done(x, t) else Failed(TooDeep)
  }

  ghost predicate EntriesReadBack(es: seq<Entry>, depth: int)
    requires TypedEntries(es)
  {
    es == [] || (ReadsBack(es[0].key, depth) && ReadsBack(es[0].value, depth) && EntriesReadBack(es[1..], depth))
  }

  lemma {:induction false} CanonReadsBack(v: Value, depth: int)
    requires Typed(v) && depth <= MAX_DEPTH + 1
    ensures Typed(Canon(v)) && ReadsBack(Canon(v), depth)
    decreases v, 1
  {
    EncodeCanon(v);
    if depth <= MAX_DEPTH {
      if v.Array? {
        ArrayReadsBack(v.items, depth);
      } else if v.Map? {
        MapReadsBack(v.entries, depth);
      } else {
        forall t: Bytes ensures ReadValue(Encode(v) + t, depth) == Done(v, t) {
          ScalarReadsBack(v, depth, t);
        }
      }
    }
  }

  function Expected(x: Value, depth: int, t: Bytes): Read<Value> {
    if depth + Levels(x) <= MAX_DEPTH + 1 then Done(x, t) else Failed(TooDeep)
  }

  lemma {:induction false} ReadFromHead(h: Bytes, body: Bytes, depth: int)
    requires depth <= MAX_DEPTH && h != []
    ensures ReadValue(h + body, depth) == ReadBody(h[1..] + body, h[0] / 32, h[0] % 32, depth)
  {
    assert (h + body)[1..] == h[1..] + body;
  }

  lemma {:induction false} IntReadsBack(n: int, depth: int, t: Bytes)
    requires -I64_END <= n < I64_END && depth <= MAX_DEPTH
    ensures ReadValue(Encode(Int(n)) + t, depth) == Done(Int(n), t)
  {
    var major, m := if n >= 0 then 0 else 1, if n >= 0 then n else -1 - n;
    ReadArgument(major, m, t);
    ReadFromHead(Head(major, m), t, depth);
  }

  lemma {:induction false} ReadStringBody(s: Bytes, info: nat, text: bool, b: Bytes, t: Bytes, depth: int)
    requires depth <= MAX_DEPTH && Argument(s, info) == Done(|b|, b + t) && (text ==> IsUtf8(b))
    ensures ReadBody(s, if text then 3 else 2, info, depth) == Done(if text then Text(b) else Bstr(b), t)
  {
    assert (b + t)[..|b|] == b && (b + t)[|b|..] == t;
  }

  lemma {:induction false} StringReadsBack(b: Bytes, text: bool, depth: int, t: Bytes)
    requires |b| < U64_END && (text ==> IsUtf8(b)) && depth <= MAX_DEPTH
    ensures var v := if text then Text(b) else Bstr(b); ReadValue(Encode(v) + t, depth) == Done(v, t)
  {
    var v, major := if text then Text(b) else Bstr(b), if text then 3 else 2;
    var h := Head(major, |b|);
    ReadArgument(major, |b|, b + t);
    ReadFromHead(h, b + t, depth);
    ReadStringBody(h[1..] + (b + t), h[0] % 32, text, b, t, depth);
    ThreeParts(h, b, t);
  }

  lemma {:induction false} ScalarReadsBack(v: Value, depth: int, t: Bytes)
    requires Typed(v) && depth <= MAX_DEPTH && !v.Array? && !v.Map?
    ensures ReadValue(Encode(v) + t, depth) == Done(v, t)
  {
    if v.Int? {
      IntReadsBack(v.n, depth, t);
    } else if v.Bstr? {
      StringReadsBack(v.bytes, false, depth, t);
    } else if v.Text? {
      StringReadsBack(v.text, true, depth, t);
    } else {
      ReadFromHead(Encode(v), t, depth);
      assert Encode(v)[1..] + t == t;
    }
  }

  lemma {:induction false} ArrayReadsBack(items: seq<Value>, depth: int)
    requires Typed(Array(items)) && depth <= MAX_DEPTH
    ensures TypedItems(CanonItems(items)) && ReadsBack(Array(CanonItems(items)), depth)
    decreases items, 1
  {
    EncodeCanonItems(items);
    var cs := CanonItems(items);
    forall t: Bytes ensures ReadValue(Encode(Array(cs)) + t, depth) == Expected(Array(cs), depth, t) {
      CanonItemsReadBack(items, depth + 1, t);
      ReadArray(cs, depth, t);
    }
  }

  lemma {:induction false} MapReadsBack(entries: seq<Entry>, depth: int)
    requires Typed(Map(entries)) && depth <= MAX_DEPTH
    ensures Typed(Canon(Map(entries))) && ReadsBack(Canon(Map(entries)), depth)
    decreases entries, 1
  {
    EncodeCanonEntries(entries);
    CanonEntriesReadBack(entries, depth + 1);
    var ces := CanonEntries(entries);
    SortReadsBack(ces, depth + 1);
    SortEntries(ces);
    SortIsStable(EncodePairs(ces), PairKey, []);
    SortedMapReadsBack(Sort(ces, EntryKey), depth);
  }

  lemma {:induction false} SortedMapReadsBack(es: seq<Entry>, depth: int)
    requires Typed(Map(es)) && depth <= MAX_DEPTH
    requires EntriesReadBack(es, depth + 1) && Sorted(EncodePairs(es), PairKey)
    ensures ReadsBack(Map(es), depth)
  {
    EncodeSortedMap(es);
    forall t: Bytes ensures ReadValue(Encode(Map(es)) + t, depth) == Expected(Map(es), depth, t) {
      ReadEntriesBack(es, depth + 1, t);
      ReadMap(es, depth, t);
    }
  }

  function ArrayOf(r: Read<seq<Value>>): Read<Value> {
    match r
    case Failed(e) => Failed(e)
    case Done(items, rest) => Done(Array(items), rest)
  }

  function MapOf(r: Read<seq<Entry>>): Read<Value> {
    match r
    case Failed(e) => Failed(e)
    case Done(entries, rest) => Done(Map(entries), rest)
  }

  lemma {:induction false} ReadCounted(s: Bytes, info: nat, n: nat, body: Bytes, depth: int)
    requires depth <= MAX_DEPTH && Argument(s, info) == Done(n, body)
    ensures n <= |body| ==> ReadBody(s, 4, info, depth) == ArrayOf(ReadItems(body, depth + 1, n))
    ensures 2 * n <= |body| ==> ReadBody(s, 5, info, depth) == MapOf(ReadEntries(body, depth + 1, n))
  {
  }

  lemma {:induction false} ReadAfterHead(major: nat, n: nat, body: Bytes, depth: int)
    requires major in {4, 5} && n < U64_END && depth <= MAX_DEPTH
    ensures major == 4 && n <= |body| ==>
              ReadValue(Head(major, n) + body, depth) == ArrayOf(ReadItems(body, depth + 1, n))
    ensures major == 5 && 2 * n <= |body| ==>
              ReadValue(Head(major, n) + body, depth) == MapOf(ReadEntries(body, depth + 1, n))
  {
    var h := Head(major, n);
    ReadArgument(major, n, body);
    ReadFromHead(h, body, depth);
    ReadCounted(h[1..] + body, h[0] % 32, n, body, depth);
  }

  lemma {:induction false} ReadArray(cs: seq<Value>, depth: int, t: Bytes)
    requires Typed(Array(cs)) && depth <= MAX_DEPTH
    requires ReadItems(EncodeItems(cs) + t, depth + 1, |cs|) ==
             if depth + 1 + ItemLevels(cs) <= MAX_DEPTH + 1 then Done(cs, t) else Failed(TooDeep)
    ensures ReadValue(Encode(Array(cs)) + t, depth) == Expected(Array(cs), depth, t)
  {
    ItemsLongEnough(cs);
    ReadAfterHead(4, |cs|, EncodeItems(cs) + t, depth);
    ThreeParts(Head(4, |cs|), EncodeItems(cs), t);
  }

  lemma {:induction false} CanonItemsReadBack(items: seq<Value>, depth: int, t: Bytes)
    requires TypedItems(items) && depth <= MAX_DEPTH + 1
    ensures TypedItems(CanonItems(items))
    ensures ReadItems(EncodeItems(CanonItems(items)) + t, depth, |items|) ==
            if depth + ItemLevels(items) <= MAX_DEPTH + 1 then Done(CanonItems(items), t) else Failed(TooDeep)
    decreases items, 0
  {
    if items == [] {
      assert EncodeItems(CanonItems(items)) + t == t;
    } else {
      var c := Canon(items[0]);
      CanonReadsBack(items[0], depth);
      EncodeCanon(items[0]);
      EncodeCanonItems(items);
      CanonItemsReadBack(items[1..], depth, t);
      var rest := EncodeItems(CanonItems(items[1..])) + t;
      assert CanonItems(items)[1..] == CanonItems(items[1..]);
      assert EncodeItems(CanonItems(items)) + t == Encode(c) + rest;
      ReadBackAt(c, depth, rest);
    }
  }

  lemma {:induction false} ItemsLongEnough(items: seq<Value>)
    requires TypedItems(items)
    ensures |EncodeItems(items)| >= |items|
  {
    if items != [] {
      ItemsLongEnough(items[1..]);
    }
  }

  lemma {:induction false} CanonEntriesReadBack(entries: seq<Entry>, depth: int)
    requires TypedEntries(entries) && depth <= MAX_DEPTH + 1
    ensures TypedEntries(CanonEntries(entries)) && EntriesReadBack(CanonEntries(entries), depth)
    decreases entries, 0
  {
    if entries != [] {
      var e := entries[0];
      assert e.key < e && e.value < e;
      CanonReadsBack(e.key, depth);
      CanonReadsBack(e.value, depth);
      CanonEntriesReadBack(entries[1..], depth);
      assert CanonEntries(entries)[1..] == CanonEntries(entries[1..]);
    }
  }

  lemma {:induction false} InsertReadsBack(e: Entry, es: seq<Entry>, depth: int)
    requires Typed(e.key) && Typed(e.value) && TypedEntries(es)
    requires ReadsBack(e.key, depth) && ReadsBack(e.value, depth) && EntriesReadBack(es, depth)
    ensures TypedEntries(Insert(e, es, EntryKey)) && EntriesReadBack(Insert(e, es, EntryKey), depth)
  {
    InsertEntry(e, es);
    if es != [] && !KeyLeq(EntryKey(e), EntryKey(es[0])) {
      InsertReadsBack(e, es[1..], depth);
      assert Insert(e, es, EntryKey)[1..] == Insert(e, es[1..], EntryKey);
    } else {
      assert Insert(e, es, EntryKey)[1..] == es;
    }
  }

  lemma {:induction false} SortReadsBack(es: seq<Entry>, depth: int)
    requires TypedEntries(es) && EntriesReadBack(es, depth)
    ensures TypedEntries(Sort(es, EntryKey)) && EntriesReadBack(Sort(es, EntryKey), depth)
  {
    SortEntries(es);
    if es != [] {
      SortReadsBack(es[1..], depth);
      InsertReadsBack(es[0], Sort(es[1..], EntryKey), depth);
    }
  }

  lemma {:induction false} EntriesLongEnough(es: seq<Entry>)
    requires TypedEntries(es)
    ensures |Flatten(EncodePairs(es))| >= 2 * |es|
  {
    if es != [] {
      EntriesLongEnough(es[1..]);
      assert EncodePairs(es)[1..] == EncodePairs(es[1..]);
    }
  }

  lemma {:induction false} ReadBackAt(x: Value, depth: int, t: Bytes)
    requires Typed(x) && ReadsBack(x, depth)
    ensures ReadValue(Encode(x) + t, depth) == Expected(x, depth, t)
  {
  }

  lemma {:induction false} FlattenFirst(es: seq<Entry>, t: Bytes)
    requires TypedEntries(es) && es != []
    ensures Flatten(EncodePairs(es)) + t ==
            Encode(es[0].key) + (Encode(es[0].value) + (Flatten(EncodePairs(es[1..])) + t))
  {
    assert EncodePairs(es)[1..] == EncodePairs(es[1..]);
  }

  lemma {:induction false} ReadEntriesBack(es: seq<Entry>, depth: int, t: Bytes)
    requires TypedEntries(es) && EntriesReadBack(es, depth) && depth <= MAX_DEPTH + 1
    ensures ReadEntries(Flatten(EncodePairs(es)) + t, depth, |es|) ==
            if depth + EntryLevels(es) <= MAX_DEPTH + 1 then Done(es, t) else Failed(TooDeep)
  {
    if es == [] {
      assert Flatten(EncodePairs(es)) + t == t;
    } else {
      ReadEntriesBack(es[1..], depth, t);
      FlattenFirst(es, t);
      var rest := Flatten(EncodePairs(es[1..])) + t;
      ReadBackAt(es[0].key, depth, Encode(es[0].value) + rest);
      ReadBackAt(es[0].value, depth, rest);
      assert es == [Entry(es[0].key, es[0].value)] + es[1..];
    }
  }

  lemma {:induction false} EncodeSortedMap(es: seq<Entry>)
    requires Typed(Map(es)) && Sorted(EncodePairs(es), PairKey)
    ensures Encode(Map(es)) == Head(5, |es|) + Flatten(EncodePairs(es))
  {
    SortOfSorted(EncodePairs(es), PairKey);
  }

  lemma {:induction false} ReadMap(es: seq<Entry>, depth: int, t: Bytes)
    requires Typed(Map(es)) && depth <= MAX_DEPTH
    requires Encode(Map(es)) == Head(5, |es|) + Flatten(EncodePairs(es))
    requires ReadEntries(Flatten(EncodePairs(es)) + t, depth + 1, |es|) ==
             if depth + 1 + EntryLevels(es) <= MAX_DEPTH + 1 then Done(es, t) else Failed(TooDeep)
    ensures ReadValue(Encode(Map(es)) + t, depth) == Expected(Map(es), depth, t)
  {
    EntriesLongEnough(es);
    ReadAfterHead(5, |es|, Flatten(EncodePairs(es)) + t, depth);
    ThreeParts(Head(5, |es|), Flatten(EncodePairs(es)), t);
  }

  /** Decoding an encoding, whatever follows it, gives the canonical form of
      the value and uses exactly the encoding, for every value of at most
      sixteen levels below its own; a deeper one is refused as too deep. */
  lemma {:induction false} RoundTrip(v: Value, suffix: Bytes)
    requires Typed(v)
    ensures ReadValue(Encode(v) + suffix, 0) ==
            if Levels(v) <= MAX_DEPTH + 1 then Done(Canon(v), suffix) else Failed(TooDeep)
  {
    CanonReadsBack(v, 0);
    EncodeCanon(v);
  }

  /** With room enough for its levels, an encoding reads back at any depth of nesting. */
  lemma {:induction false} DeepReadsBack(v: Value, room: nat, t: Bytes)
    requires Typed(v) && Levels(v) <= room
    ensures ReadValue(Encode(v) + t, MAX_DEPTH + 1 - room) == Done(Canon(v), t)
  {
    CanonReadsBack(v, MAX_DEPTH + 1 - room);
    EncodeCanon(v);
    ReadBackAt(Canon(v), MAX_DEPTH + 1 - room, t);
  }

  /** No encoding is read two ways, however deep: where one ends is decided by its bytes,
      and two values share one exactly when they have one canonical form. */
  lemma {:induction false} EncodingsDeterminedByCanon(v: Value, w: Value, s: Bytes, t: Bytes)
    requires Typed(v) && Typed(w)
    ensures Encode(v) + s == Encode(w) + t <==> Canon(v) == Canon(w) && s == t
  {
    var room := Levels(v) + Levels(w);
    DeepReadsBack(v, room, s);
    DeepReadsBack(w, room, t);
    EncodeCanon(v);
    EncodeCanon(w);
  }

  /** The canonical form lists every map's keys in order, and keeps each
      map's entries, those with equal keys in the order they were in. */
  lemma {:induction false} CanonIsSorted(v: Value)
    ensures MapsSorted(Canon(v))
    decreases v, 1
  {
    match v
    case Array(items) => CanonItemsSorted(items);
    case Map(entries) =>
      CanonEntriesSorted(entries);
      SortIsStable(CanonEntries(entries), EntryKey, []);
    case _ =>
  }

  lemma {:induction false} CanonItemsSorted(items: seq<Value>)
    ensures forall x | x in CanonItems(items) :: MapsSorted(x)
    decreases items, 0
  {
    if items != [] {
      CanonIsSorted(items[0]);
      CanonItemsSorted(items[1..]);
    }
  }

  lemma {:induction false} CanonEntriesSorted(entries: seq<Entry>)
    ensures EntriesSorted(CanonEntries(entries))
    decreases entries, 0
  {
    if entries != [] {
      var e := entries[0];
      assert e.key < e && e.value < e;
      CanonIsSorted(e.key);
      CanonIsSorted(e.value);
      CanonEntriesSorted(entries[1..]);
    }
  }

  /** A value whose maps are in order already comes back as it is. */
  lemma {:induction false} SortedIsCanon(v: Value)
    requires MapsSorted(v)
    ensures Canon(v) == v
    decreases v, 1
  {
    match v
    case Array(items) => SortedItemsAreCanon(items);
    case Map(entries) =>
      SortedEntriesAreCanon(entries);
      SortOfSorted(entries, EntryKey);
    case _ =>
  }

  lemma {:induction false} SortedItemsAreCanon(items: seq<Value>)
    requires forall x | x in items :: MapsSorted(x)
    ensures CanonItems(items) == items
    decreases items, 0
  {
    if items != [] {
      SortedIsCanon(items[0]);
      SortedItemsAreCanon(items[1..]);
    }
  }

  lemma {:induction false} SortedEntriesAreCanon(entries: seq<Entry>)
    requires EntriesSorted(entries)
    ensures CanonEntries(entries) == entries
    decreases entries, 0
  {
    if entries != [] {
      var e := entries[0];
      assert e in entries;
      assert e.key < e && e.value < e;
      SortedIsCanon(e.key);
      SortedIsCanon(e.value);
      SortedEntriesAreCanon(entries[1..]);
    }
  }

  // --- what an accepted input can be -------------------------------------------

  /** `rest` is what is left of `s` after `used` bytes of it. */
  ghost predicate Suffix(s: Bytes, rest: Bytes, used: nat) {
    used <= |s| && rest == s[used..]
  }

  lemma {:induction false} SuffixChain(s: Bytes, r: Bytes, t: Bytes, a: nat, b: nat)
    requires Suffix(s, r, a) && Suffix(r, t, b)
    ensures Suffix(s, t, a + b)
  {
  }

  /** No argument takes fewer bytes than the shortest head for its value. */
  lemma {:induction false} ArgumentCost(s: Bytes, info: nat, major: nat)
    requires info < 32 && major < 8 && Argument(s, info).Done?
    ensures var r := Argument(s, info);
            r.value < U64_END && Suffix(s, r.rest, |s| - |r.rest|) && |Head(major, r.value)| <= 1 + |s| - |r.rest|
  {
    Powers();
    if info >= 24 {
      FromBeBound(s[..ArgumentWidth(info)]);
    }
  }

  /** What was decoded from `used` bytes: typed, no deeper than allowed, of no
      more items than bytes, and no longer when written canonically. */
  ghost predicate Fits(v: Value, depth: int, used: nat) {
    && Typed(v)
    && depth + Levels(v) <= MAX_DEPTH + 1
    && Count(v) <= used
    && |Encode(v)| <= used
  }

  ghost predicate ReadsFit(r: Read<Value>, s: Bytes, depth: int) {
    r.Done? ==> |r.rest| < |s| && Suffix(s, r.rest, |s| - |r.rest|) && Fits(r.value, depth, |s| - |r.rest|)
  }

  /** The same of an item whose initial byte is already taken. */
  ghost predicate BodyFits(r: Read<Value>, s: Bytes, depth: int) {
    r.Done? ==> |r.rest| <= |s| && Suffix(s, r.rest, |s| - |r.rest|) && Fits(r.value, depth, 1 + |s| - |r.rest|)
  }

  lemma {:induction false} StringFits(s: Bytes, rest: Bytes, n: nat, text: bool, depth: int)
    requires depth <= MAX_DEPTH && n <= |rest| <= |s| && n < U64_END && Suffix(s, rest, |s| - |rest|)
    requires |Head(if text then 3 else 2, n)| <= 1 + |s| - |rest| && (text ==> IsUtf8(rest[..n]))
    ensures BodyFits(Done(if text then Text(rest[..n]) else Bstr(rest[..n]), rest[n..]), s, depth)
  {
    SuffixChain(s, rest, rest[n..], |s| - |rest|, n);
  }

  lemma {:induction false} ReadScalarFits(s: Bytes, major: nat, info: nat, depth: int)
    requires depth <= MAX_DEPTH && major < 8 && info < 32
    ensures BodyFits(ReadScalar(s, major, info), s, depth)
  {
    if major < 4 && Argument(s, info).Done? {
      ArgumentCost(s, info, major);
      var n, rest := Argument(s, info).value, Argument(s, info).rest;
      if major >= 2 && n <= |rest| && (major == 3 ==> IsUtf8(rest[..n])) {
        StringFits(s, rest, n, major == 3, depth);
      }
    }
  }

  lemma {:induction false} ArrayFits(s: Bytes, rest: Bytes, n: nat, r: Read<seq<Value>>, depth: int)
    requires depth <= MAX_DEPTH && n < U64_END && r.Done? && ItemsFit(r, rest, depth + 1, n)
    requires |rest| <= |s| && Suffix(s, rest, |s| - |rest|) && |Head(4, n)| <= 1 + |s| - |rest|
    ensures BodyFits(Done(Array(r.value), r.rest), s, depth)
  {
    SuffixChain(s, rest, r.rest, |s| - |rest|, |rest| - |r.rest|);
  }

  lemma {:induction false} MapFits(s: Bytes, rest: Bytes, n: nat, r: Read<seq<Entry>>, depth: int)
    requires depth <= MAX_DEPTH && n < U64_END && r.Done? && EntriesFit(r, rest, depth + 1, n)
    requires |rest| <= |s| && Suffix(s, rest, |s| - |rest|) && |Head(5, n)| <= 1 + |s| - |rest|
    ensures BodyFits(Done(Map(r.value), r.rest), s, depth)
  {
    SuffixChain(s, rest, r.rest, |s| - |rest|, |rest| - |r.rest|);
    SortedFlattenLength(EncodePairs(r.value));
  }

  lemma {:induction false} ReadArrayFits(s: Bytes, info: nat, depth: int)
    requires depth <= MAX_DEPTH && info < 32
    ensures BodyFits(ReadBody(s, 4, info, depth), s, depth)
    decreases MAX_DEPTH - depth, 3
  {
    if ReadBody(s, 4, info, depth).Done? {
      ArgumentCost(s, info, 4);
      var n, rest := Argument(s, info).value, Argument(s, info).rest;
      ReadItemsFit(rest, depth + 1, n);
      ArrayFits(s, rest, n, ReadItems(rest, depth + 1, n), depth);
    }
  }

  lemma {:induction false} ReadMapFits(s: Bytes, info: nat, depth: int)
    requires depth <= MAX_DEPTH && info < 32
    ensures BodyFits(ReadBody(s, 5, info, depth), s, depth)
    decreases MAX_DEPTH - depth, 3
  {
    if ReadBody(s, 5, info, depth).Done? {
      ArgumentCost(s, info, 5);
      var n, rest := Argument(s, info).value, Argument(s, info).rest;
      ReadEntriesFit(rest, depth + 1, n);
      MapFits(s, rest, n, ReadEntries(rest, depth + 1, n), depth);
    }
  }

  /** Whatever the decoder accepts, at any depth. */
  lemma {:induction false} ReadFits(s: Bytes, depth: int)
    ensures ReadsFit(ReadValue(s, depth), s, depth)
    decreases MAX_DEPTH + 1 - depth, 0
  {
    if depth <= MAX_DEPTH && s != [] {
      var major, info, body := s[0] / 32, s[0] % 32, s[1..];
      if major == 4 {
        ReadArrayFits(body, info, depth);
      } else if major == 5 {
        ReadMapFits(body, info, depth);
      } else {
        ReadScalarFits(body, major, info, depth);
      }
      var r := ReadBody(body, major, info, depth);
      assert BodyFits(r, body, depth);
      if r.Done? {
        SuffixChain(s, body, r.rest, 1, |body| - |r.rest|);
      }
    }
  }

  ghost predicate ItemsFit(r: Read<seq<Value>>, s: Bytes, depth: int, n: nat)
    requires r.Done?
  {
    && |r.rest| <= |s| && Suffix(s, r.rest, |s| - |r.rest|)
    && |r.value| == n && TypedItems(r.value)
    && depth + ItemLevels(r.value) <= MAX_DEPTH + 1
    && CountItems(r.value) <= |s| - |r.rest|
    && |EncodeItems(r.value)| <= |s| - |r.rest|
  }

  lemma {:induction false} ReadItemsFit(s: Bytes, depth: int, n: nat)
    requires depth <= MAX_DEPTH + 1 && ReadItems(s, depth, n).Done?
    ensures ItemsFit(ReadItems(s, depth, n), s, depth, n)
    decreases MAX_DEPTH + 1 - depth, 1, n
  {
    if n != 0 {
      ReadFits(s, depth);
      var a := ReadValue(s, depth);
      ReadItemsFit(a.rest, depth, n - 1);
      ItemThenItemsFit(s, a, ReadItems(a.rest, depth, n - 1), depth, n);
    }
  }

  lemma {:induction false} ItemThenItemsFit(s: Bytes, a: Read<Value>, b: Read<seq<Value>>, depth: int, n: nat)
    requires a.Done? && b.Done? && n >= 1
    requires ReadsFit(a, s, depth) && ItemsFit(b, a.rest, depth, n - 1)
    ensures ItemsFit(Done([a.value] + b.value, b.rest), s, depth, n)
  {
    SuffixChain(s, a.rest, b.rest, |s| - |a.rest|, |a.rest| - |b.rest|);
    assert ([a.value] + b.value)[1..] == b.value;
  }

  lemma {:induction false} ReadEntriesFit(s: Bytes, depth: int, n: nat)
    requires depth <= MAX_DEPTH + 1 && ReadEntries(s, depth, n).Done?
    ensures EntriesFit(ReadEntries(s, depth, n), s, depth, n)
    decreases MAX_DEPTH + 1 - depth, 1, n
  {
    if n != 0 {
      ReadFits(s, depth);
      var k := ReadValue(s, depth);
      ReadFits(k.rest, depth);
      var v := ReadValue(k.rest, depth);
      ReadEntriesFit(v.rest, depth, n - 1);
      EntryThenEntriesFit(s, k, v, ReadEntries(v.rest, depth, n - 1), depth, n);
    }
  }

  ghost predicate EntriesFit(r: Read<seq<Entry>>, s: Bytes, depth: int, n: nat)
    requires r.Done?
  {
    && |r.rest| <= |s| && Suffix(s, r.rest, |s| - |r.rest|)
    && |r.value| == n && TypedEntries(r.value)
    && depth + EntryLevels(r.value) <= MAX_DEPTH + 1
    && CountEntries(r.value) <= |s| - |r.rest|
    && |Flatten(EncodePairs(r.value))| <= |s| - |r.rest|
  }

  lemma {:induction false} EntryThenEntriesFit(s: Bytes, k: Read<Value>, v: Read<Value>, b: Read<seq<Entry>>, depth: int, n: nat)
    requires k.Done? && v.Done? && b.Done? && n >= 1
    requires ReadsFit(k, s, depth) && ReadsFit(v, k.rest, depth) && EntriesFit(b, v.rest, depth, n - 1)
    ensures EntriesFit(Done([Entry(k.value, v.value)] + b.value, b.rest), s, depth, n)
  {
    SuffixChain(s, k.rest, v.rest, |s| - |k.rest|, |k.rest| - |v.rest|);
    SuffixChain(s, v.rest, b.rest, |s| - |v.rest|, |v.rest| - |b.rest|);
    ConsEntry(Entry(k.value, v.value), b.value);
  }

  lemma {:induction false} ConsEntry(e: Entry, es: seq<Entry>)
    requires Typed(e.key) && Typed(e.value) && TypedEntries(es)
    ensures var r := [e] + es;
            && TypedEntries(r)
            && EntryLevels(r) == Max(Max(Levels(e.key), Levels(e.value)), EntryLevels(es))
            && CountEntries(r) == Count(e.key) + Count(e.value) + CountEntries(es)
            && |Flatten(EncodePairs(r))| == |Encode(e.key)| + |Encode(e.value)| + |Flatten(EncodePairs(es))|
  {
    var r := [e] + es;
    assert r[1..] == es;
    assert EncodePairs(r)[1..] == EncodePairs(es);
  }

  lemma {:induction false} InsertFlatten(p: Pair, ps: seq<Pair>)
    ensures |Flatten(Insert(p, ps, PairKey))| == |p.key| + |p.value| + |Flatten(ps)|
  {
    if ps != [] && !KeyLeq(PairKey(p), PairKey(ps[0])) {
      InsertFlatten(p, ps[1..]);
      assert Insert(p, ps, PairKey)[1..] == Insert(p, ps[1..], PairKey);
    } else {
      assert Insert(p, ps, PairKey)[1..] == ps;
    }
  }

  lemma {:induction false} SortedFlattenLength(ps: seq<Pair>)
    ensures |Flatten(Sort(ps, PairKey))| == |Flatten(ps)|
  {
    if ps != [] {
      SortedFlattenLength(ps[1..]);
      InsertFlatten(ps[0], Sort(ps[1..], PairKey));
    }
  }

  // --- what follows an item has no say in it ------------------------------------

  ghost predicate SameWithSuffix<T>(r: Read<T>, r': Read<T>, t: Bytes) {
    r.Done? ==> r' == Done(r.value, r.rest + t)
  }

  lemma {:induction false} ScalarIgnoresSuffix(s: Bytes, t: Bytes)
    requires s != [] && s[0] / 32 !in {4, 5}
    ensures SameWithSuffix(ReadScalar(s[1..], s[0] / 32, s[0] % 32), ReadScalar(s[1..] + t, s[0] / 32, s[0] % 32), t)
  {
    var major, info, body := s[0] / 32, s[0] % 32, s[1..];
    if major < 4 && Argument(body, info).Done? {
      ArgumentIgnoresSuffix(body, info, t);
      var n, rest := Argument(body, info).value, Argument(body, info).rest;
      if major >= 2 && n <= |rest| {
        assert (rest + t)[..n] == rest[..n] && (rest + t)[n..] == rest[n..] + t;
      }
    }
  }

  lemma {:induction false} ArrayIgnoresSuffix(s: Bytes, depth: int, t: Bytes)
    requires depth <= MAX_DEPTH && s != [] && s[0] / 32 == 4
    ensures SameWithSuffix(ReadValue(s, depth), ReadValue(s + t, depth), t)
    decreases MAX_DEPTH - depth, 3
  {
    var info, body := s[0] % 32, s[1..];
    assert (s + t)[1..] == body + t;
    assert ReadValue(s, depth) == ReadBody(body, 4, info, depth);
    assert ReadValue(s + t, depth) == ReadBody(body + t, 4, info, depth);
    if ReadValue(s, depth).Done? {
      ArgumentIgnoresSuffix(body, info, t);
      ItemsIgnoreSuffix(Argument(body, info).rest, depth + 1, Argument(body, info).value, t);
    }
  }

  lemma {:induction false} MapIgnoresSuffix(s: Bytes, depth: int, t: Bytes)
    requires depth <= MAX_DEPTH && s != [] && s[0] / 32 == 5
    ensures SameWithSuffix(ReadValue(s, depth), ReadValue(s + t, depth), t)
    decreases MAX_DEPTH - depth, 3
  {
    var info, body := s[0] % 32, s[1..];
    assert (s + t)[1..] == body + t;
    assert ReadValue(s, depth) == ReadBody(body, 5, info, depth);
    assert ReadValue(s + t, depth) == ReadBody(body + t, 5, info, depth);
    if ReadValue(s, depth).Done? {
      ArgumentIgnoresSuffix(body, info, t);
      EntriesIgnoreSuffix(Argument(body, info).rest, depth + 1, Argument(body, info).value, t);
    }
  }

  /** An item read from `s` is read the same with anything after it. */
  lemma {:induction false} ReadIgnoresSuffix(s: Bytes, depth: int, t: Bytes)
    ensures SameWithSuffix(ReadValue(s, depth), ReadValue(s + t, depth), t)
    decreases MAX_DEPTH + 1 - depth, 0
  {
    if depth <= MAX_DEPTH && s != [] {
      if s[0] / 32 == 4 {
        ArrayIgnoresSuffix(s, depth, t);
      } else if s[0] / 32 == 5 {
        MapIgnoresSuffix(s, depth, t);
      } else {
        ScalarIgnoresSuffix(s, t);
        assert (s + t)[1..] == s[1..] + t;
        assert ReadValue(s, depth) == ReadBody(s[1..], s[0] / 32, s[0] % 32, depth);
        assert ReadValue(s + t, depth) == ReadBody(s[1..] + t, s[0] / 32, s[0] % 32, depth);
      }
    }
  }

  lemma {:induction false} ArgumentIgnoresSuffix(s: Bytes, info: nat, t: Bytes)
    requires Argument(s, info).Done?
    ensures Argument(s + t, info) == Done(Argument(s, info).value, Argument(s, info).rest + t)
  {
    if info >= 24 {
      var w := ArgumentWidth(info);
      assert (s + t)[..w] == s[..w] && (s + t)[w..] == s[w..] + t;
    }
  }

  lemma {:induction false} ItemsIgnoreSuffix(s: Bytes, depth: int, n: nat, t: Bytes)
    requires depth <= MAX_DEPTH + 1 && ReadItems(s, depth, n).Done?
    ensures ReadItems(s + t, depth, n) == Done(ReadItems(s, depth, n).value, ReadItems(s, depth, n).rest + t)
    decreases MAX_DEPTH + 1 - depth, 1, n
  {
    if n != 0 {
      ReadIgnoresSuffix(s, depth, t);
      ItemsIgnoreSuffix(ReadValue(s, depth).rest, depth, n - 1, t);
    }
  }

  lemma {:induction false} EntriesIgnoreSuffix(s: Bytes, depth: int, n: nat, t: Bytes)
    requires depth <= MAX_DEPTH + 1 && ReadEntries(s, depth, n).Done?
    ensures ReadEntries(s + t, depth, n) == Done(ReadEntries(s, depth, n).value, ReadEntries(s, depth, n).rest + t)
    decreases MAX_DEPTH + 1 - depth, 1, n
  {
    if n != 0 {
      ReadIgnoresSuffix(s, depth, t);
      var k := ReadValue(s, depth);
      ReadIgnoresSuffix(k.rest, depth, t);
      EntriesIgnoreSuffix(ReadValue(k.rest, depth).rest, depth, n - 1, t);
    }
  }
}
