/** What the offsets in a history file do and do not promise. */
module HistoryFileTheorems {
  import opened Wrappers
  import opened HistoryFile

  // --- one line more ------------------------------------------------------------------------

  lemma {:induction false} LineStartAfter(text: Bytes, line: Bytes)
    requires !Broken(text) && NEWLINE !in line
    ensures LineStart(text + line) == |text|
  {
    if line == [] {
      assert text + line == text;
    } else {
      var init := line[..|line| - 1];
      LineStartAfter(text, init);
      assert (text + line)[..|text + line| - 1] == text + init;
    }
  }

  /** A line after a text that does not break off. */
  lemma {:induction false} LinesThenLine(text: Bytes, line: Bytes)
    requires !Broken(text) && NEWLINE !in line
    ensures Lines(text + line) == Lines(text) + Place(|text|, line)
  {
    LineStartAfter(text, line);
    assert (text + line)[|text|..] == line;
    if text == [] {
      assert text + line == line;
    } else {
      assert (text + line)[..|text| - 1] == text[..|text| - 1];
      assert text[|text|..] == [];
    }
  }

  lemma {:induction false} LinesThenEnd(text: Bytes)
    ensures Lines(text + [NEWLINE]) == Lines(text)
  {
    var whole := text + [NEWLINE];
    assert whole[..|whole| - 1] == text;
    assert whole[|whole|..] == [];
  }

  lemma {:induction false} ReadThenLine(c: LineCipher, text: Bytes, line: Bytes)
    requires !Broken(text) && NEWLINE !in line
    ensures Read(c, text + line) == Read(c, text) + if Blank(line) then [] else [ReadLine(c, |text|, line)]
    ensures Read(c, text + line + [NEWLINE]) == Read(c, text + line)
  {
    LinesThenLine(text, line);
    LinesThenEnd(text + line);
    if Blank(line) {
      assert Lines(text + line) == Lines(text);
    } else {
      var lines := Lines(text + line);
      assert lines[..|lines| - 1] == Lines(text);
    }
  }

  lemma {:induction false} SealedIsNotBlank(line: Bytes)
    requires Sealed(line)
    ensures !Blank(line)
  {
    assert line[0] == LINE_PREFIX[0] by {
      assert line[..|LINE_PREFIX|][0] == line[0];
    }
    assert line[0] in line;
  }

  lemma {:induction false} SealedReads(c: LineCipher, at: nat, plain: Bytes)
    requires Ideal(c) && c.parses(plain)
    ensures ReadLine(c, at, c.seal(at, plain)) == Readable(plain)
    ensures NEWLINE !in c.seal(at, plain) && !Blank(c.seal(at, plain))
  {
    SealedIsNotBlank(c.seal(at, plain));
  }

  // --- appending ----------------------------------------------------------------------------------

  /** `text` with its last line ended. */
  function Settled(text: Bytes): Bytes {
    if Broken(text) then text + [NEWLINE] else text
  }

  lemma {:induction false} SettledReads(c: LineCipher, text: Bytes)
    ensures !Broken(Settled(text)) && |Settled(text)| == AppendAt(text)
    ensures Read(c, Settled(text)) == Read(c, text)
  {
    LinesThenEnd(text);
  }

  lemma {:induction false} AddedLineReads(c: LineCipher, text: Bytes, line: Bytes)
    requires NEWLINE !in line
    ensures var start := text + if Broken(text) then [NEWLINE] else [];
            var here := if Blank(line) then [] else [ReadLine(c, AppendAt(text), line)];
            Read(c, start + line) == Read(c, text) + here == Read(c, start + line + [NEWLINE])
  {
    SettledReads(c, text);
    ReadThenLine(c, Settled(text), line);
    assert text + [] == text;
  }

  /** Appending adds exactly that line to what is read, whatever the file held,
      a line a crash cut short included. */
  lemma {:induction false} AppendReads(c: LineCipher, text: Bytes, plain: Bytes)
    requires Ideal(c) && c.parses(plain)
    ensures Read(c, Append(c, text, plain)) == Read(c, text) + [Readable(plain)]
  {
    SealedReads(c, AppendAt(text), plain);
    AddedLineReads(c, text, c.seal(AppendAt(text), plain));
    AppendParts(c, text, plain);
  }

  lemma {:induction false} AppendParts(c: LineCipher, text: Bytes, plain: Bytes)
    ensures Append(c, text, plain) ==
            (text + if Broken(text) then [NEWLINE] else []) + c.seal(AppendAt(text), plain) + [NEWLINE]
  {
  }

  /** What a crash leaves of an append, `k` of its bytes having been written:
      nothing, the line, or a piece of it that never reads. */
  function Torn(c: LineCipher, text: Bytes, plain: Bytes, k: nat): seq<Item> {
    var skip := if Broken(text) then 1 else 0;
    var line := c.seal(AppendAt(text), plain);
    if k >= skip + |line| then [Readable(plain)]
    else if k <= skip || Blank(line[..k - skip]) then []
    else [Unreadable(line[..k - skip])]
  }

  lemma {:induction false} TornAppendReads(c: LineCipher, text: Bytes, plain: Bytes, k: nat)
    requires Ideal(c) && c.parses(plain) && k <= |Added(c, text, plain)|
    ensures Read(c, text + Added(c, text, plain)[..k]) == Read(c, text) + Torn(c, text, plain, k)
    ensures Writable(c, Torn(c, text, plain, k))
  {
    var skip := if Broken(text) then 1 else 0;
    var line := c.seal(AppendAt(text), plain);
    TornParts(c, text, plain, k);
    SealedReads(c, AppendAt(text), plain);
    if skip <= k {
      var n := if k - skip <= |line| then k - skip else |line|;
      PieceReads(c, AppendAt(text), plain, n);
      AddedLineReads(c, text, line[..n]);
    }
  }

  lemma {:induction false} TornParts(c: LineCipher, text: Bytes, plain: Bytes, k: nat)
    requires k <= |Added(c, text, plain)|
    ensures var skip := if Broken(text) then 1 else 0;
            var line := c.seal(AppendAt(text), plain);
            var start := text + if Broken(text) then [NEWLINE] else [];
            text + Added(c, text, plain)[..k] ==
            if k < skip then text
            else if k <= skip + |line| then start + line[..k - skip]
            else start + line[..|line|] + [NEWLINE]
  {
    var skip := if Broken(text) then 1 else 0;
    var line := c.seal(AppendAt(text), plain);
    var added := Added(c, text, plain);
    if skip <= k <= skip + |line| {
      assert added[..k] == (if Broken(text) then [NEWLINE] else []) + line[..k - skip];
    }
  }

  lemma {:induction false} PieceReads(c: LineCipher, at: nat, plain: Bytes, k: nat)
    requires Ideal(c) && c.parses(plain) && k <= |c.seal(at, plain)|
    ensures var piece := c.seal(at, plain)[..k];
            && NEWLINE !in piece
            && if k == |c.seal(at, plain)| then ReadLine(c, at, piece) == Readable(plain) && !Blank(piece)
               else ReadLine(c, at, piece) == Unreadable(piece) && (Blank(piece) || WritableItem(c, Unreadable(piece)))
  {
    var line := c.seal(at, plain);
    SealedReads(c, at, plain);
    if k == |line| {
      assert line[..k] == line;
    } else {
      assert NeverReads(c, line[..k]);
    }
  }

  // --- rewriting --------------------------------------------------------------------------------------

  /** Items a rewrite can hold: lines the store wrote, and unreadable ones kept
      as they are. */
  ghost predicate Writable(c: LineCipher, items: seq<Item>) {
    forall item | item in items :: WritableItem(c, item)
  }

  ghost predicate WritableItem(c: LineCipher, item: Item) {
    match item
    case Readable(plain) => c.parses(plain)
    case Unreadable(raw) => NeverReads(c, raw) && NEWLINE !in raw && !Blank(raw)
  }

  lemma {:induction false} WrittenItemReads(c: LineCipher, at: nat, items: seq<Item>, k: nat)
    requires Ideal(c) && Writable(c, items) && k < |items|
    ensures var line := EncodeItem(c, at, items[k]);
            NEWLINE !in line && !Blank(line) && ReadLine(c, at, line) == items[k]
  {
    assert items[k] in items;
    if items[k].Readable? {
      SealedReads(c, at, items[k].plain);
    }
  }

  lemma {:induction false} WrittenPart(c: LineCipher, items: seq<Item>)
    requires items != [] && Writable(c, items)
    ensures Writable(c, items[..|items| - 1]) && items == items[..|items| - 1] + [items[|items| - 1]]
  {
    forall item | item in items[..|items| - 1] ensures item in items {
    }
  }

  /** Every line a rewrite writes, at whatever offset it lands, reads there. */
  lemma {:induction false} RewriteReads(c: LineCipher, items: seq<Item>)
    requires Ideal(c) && Writable(c, items)
    ensures Read(c, Written(c, items)) == items && !Broken(Written(c, items))
  {
    if items != [] {
      WrittenPart(c, items);
      var init, last := items[..|items| - 1], items[|items| - 1];
      RewriteReads(c, init);
      var before := Written(c, init);
      WrittenItemReads(c, |before|, items, |items| - 1);
      ReadThenLine(c, before, EncodeItem(c, |before|, last));
    }
  }

  // --- whole runs --------------------------------------------------------------------------------------------

  datatype Op =
    | Appending(plain: Bytes)
    | AppendCut(plain: Bytes, bytes: nat)
    | Rewriting(items: seq<Item>)
    | RewriteCut(items: seq<Item>)

  /** One call, or one a crash cut short: an append after some of its bytes, or
      after all of them and before the length was recorded, a rewrite after it
      took the file's place and before the length was recorded. */
  function Step(c: LineCipher, f: File, op: Op): File {
    match op
    case Appending(plain) => AppendAndNote(c, f, plain)
    case AppendCut(plain, k) => f.(text := f.text + Cut(Added(c, f.text, plain), k))
    case Rewriting(items) => RewriteAndNote(c, f, items)
    case RewriteCut(items) => f.(text := Written(c, items))
  }

  function Cut(bytes: Bytes, k: nat): Bytes {
    bytes[..if k <= |bytes| then k else |bytes|]
  }

  function After(c: LineCipher, ops: seq<Op>): File {
    if ops == [] then File([], None) else Step(c, After(c, ops[..|ops| - 1]), ops[|ops| - 1])
  }

  /** What a run should have left in the file. */
  function Contents(c: LineCipher, ops: seq<Op>): seq<Item> {
    if ops == [] then []
    else
      var before, text := ops[..|ops| - 1], After(c, ops[..|ops| - 1]).text;
      match ops[|ops| - 1]
      case Appending(plain) => Contents(c, before) + [Readable(plain)]
      case AppendCut(plain, k) => Contents(c, before) + Torn(c, text, plain, k)
      case Rewriting(items) => items
      case RewriteCut(items) => items
  }

  /** A rewrite writes lines, and what it read and did not understand. */
  ghost predicate Honest(c: LineCipher, ops: seq<Op>) {
    forall k | 0 <= k < |ops| ::
      match ops[k]
      case Appending(plain) => c.parses(plain)
      case AppendCut(plain, _) => c.parses(plain)
      case Rewriting(items) => FromContents(c, items, ops[..k])
      case RewriteCut(items) => FromContents(c, items, ops[..k])
  }

  ghost predicate FromContents(c: LineCipher, items: seq<Item>, before: seq<Op>) {
    forall item | item in items :: if item.Readable? then c.parses(item.plain) else item in Contents(c, before)
  }

  lemma {:induction false} HonestBefore(c: LineCipher, ops: seq<Op>)
    requires ops != [] && Honest(c, ops)
    ensures Honest(c, ops[..|ops| - 1])
  {
    var before := ops[..|ops| - 1];
    forall k | 0 <= k < |before| ensures before[k] == ops[k] && before[..k] == ops[..k] {
    }
  }

  lemma {:induction false} CutReads(c: LineCipher, text: Bytes, plain: Bytes, k: nat)
    requires Ideal(c) && c.parses(plain)
    ensures Read(c, text + Cut(Added(c, text, plain), k)) == Read(c, text) + Torn(c, text, plain, k)
    ensures Writable(c, Torn(c, text, plain, k))
  {
    var len := |Added(c, text, plain)|;
    TornAppendReads(c, text, plain, if k <= len then k else len);
  }

  lemma {:induction false} FromContentsWritable(c: LineCipher, items: seq<Item>, before: seq<Op>)
    requires FromContents(c, items, before) && Writable(c, Contents(c, before))
    ensures Writable(c, items)
  {
  }

  /** After any appends and rewrites, each finished or cut short at any byte,
      every line the store wrote opens at the offset the reader computes, in
      its order, and nothing else does. */
  lemma {:induction false} RunReads(c: LineCipher, ops: seq<Op>)
    requires Ideal(c) && Honest(c, ops)
    ensures Read(c, After(c, ops).text) == Contents(c, ops) && Writable(c, Contents(c, ops))
  {
    if ops != [] {
      var before, op := ops[..|ops| - 1], ops[|ops| - 1];
      HonestBefore(c, ops);
      RunReads(c, before);
      var text := After(c, before).text;
      if op.Appending? {
        AppendReads(c, text, op.plain);
      } else if op.AppendCut? {
        CutReads(c, text, op.plain, op.bytes);
      } else {
        FromContentsWritable(c, op.items, before);
        RewriteReads(c, op.items);
      }
    }
  }

  // --- the recorded length -------------------------------------------------------------------------------

  predicate Finished(ops: seq<Op>) {
    forall op | op in ops :: !op.RewriteCut?
  }

  /** From an accepted file, one call leaves one that is refused exactly when it is a
      rewrite that made it shorter, cut off before the length was recorded. */
  lemma {:induction false} StepRefusedIff(c: LineCipher, ops: seq<Op>, op: Op)
    requires !Refused(After(c, ops))
    ensures Refused(After(c, ops + [op])) <==>
            && op.RewriteCut? && After(c, ops).recorded.Some?
            && |Written(c, op.items)| < After(c, ops).recorded.value
  {
    assert (ops + [op])[..|ops|] == ops;
  }

  lemma {:induction false} FinishedRunAccepted(c: LineCipher, ops: seq<Op>)
    requires Finished(ops)
    ensures !Refused(After(c, ops))
  {
    if ops != [] {
      var before, op := ops[..|ops| - 1], ops[|ops| - 1];
      assert ops == before + [op] && op in ops;
      FinishedRunAccepted(c, before);
      StepRefusedIff(c, before, op);
    }
  }

  /** An append settles the record, whatever came before it. */
  lemma {:induction false} AppendSettles(c: LineCipher, ops: seq<Op>, plain: Bytes)
    requires Ideal(c) && Honest(c, ops) && c.parses(plain)
    ensures Load(c, After(c, ops + [Appending(plain)])) == Ok(Contents(c, ops) + [Readable(plain)])
  {
    assert (ops + [Appending(plain)])[..|ops|] == ops;
    RunReads(c, ops);
    AppendReads(c, After(c, ops).text, plain);
  }

  /** Cutting a whole number of lines off the end leaves only lines that read
      as they did, so the offsets do not show it; the recorded length does. */
  lemma {:induction false} CutOffIsRefused(c: LineCipher, kept: Bytes, lost: Bytes)
    requires !Broken(kept) && lost != []
    ensures Lines(kept) <= Lines(kept + lost) && Read(c, kept) <= Read(c, kept + lost)
    ensures Load(c, File(kept, Some(|kept + lost|))).Err?
    ensures Load(c, File(kept + lost, Some(|kept + lost|))).Ok?
  {
    LinesKept(kept, lost);
    ReadKept(c, Lines(kept), Lines(kept + lost));
  }

  lemma {:induction false} LinesKept(a: Bytes, b: Bytes)
    requires !Broken(a)
    ensures Lines(a) <= Lines(a + b)
    decreases |b|
  {
    var k := LineStart(b);
    if k == 0 {
      LineStartNone(b);
      LinesThenLine(a, b);
    } else {
      LinesKept(a, b[..k - 1]);
      LineStartIn(a, b);
      LastLine(a + b, a + b[..k - 1]);
    }
  }

  lemma {:induction false} LastLine(text: Bytes, before: Bytes)
    requires LineStart(text) > 0 && before == text[..LineStart(text) - 1]
    ensures Lines(before) <= Lines(text)
  {
  }

  lemma {:induction false} LineStartIn(a: Bytes, b: Bytes)
    requires !Broken(a)
    ensures LineStart(a + b) == |a| + LineStart(b)
  {
    if b == [] {
      assert a + b == a;
    } else {
      assert (a + b)[|a + b| - 1] == b[|b| - 1];
      assert (a + b)[..|a + b| - 1] == a + b[..|b| - 1];
      if b[|b| - 1] != NEWLINE {
        LineStartIn(a, b[..|b| - 1]);
      }
    }
  }

  lemma {:induction false} LineStartNone(b: Bytes)
    requires LineStart(b) == 0
    ensures NEWLINE !in b
  {
    if b != [] {
      LineStartNone(b[..|b| - 1]);
      assert b == b[..|b| - 1] + [b[|b| - 1]];
    }
  }

  lemma {:induction false} ReadKept(c: LineCipher, a: seq<Placed>, b: seq<Placed>)
    requires a <= b
    ensures ReadAll(c, a) <= ReadAll(c, b)
    decreases |b|
  {
    if a == b {
    } else {
      ReadKept(c, a, b[..|b| - 1]);
    }
  }

  // --- lines that were moved -----------------------------------------------------------------------------------

  /** A sealed line reads at the offset it was written at and at no other. */
  lemma {:induction false} MovedLineReadsIff(c: LineCipher, at: nat, plain: Bytes, elsewhere: nat)
    requires Ideal(c) && c.parses(plain)
    ensures ReadLine(c, elsewhere, c.seal(at, plain)) ==
            if elsewhere == at then Readable(plain) else Unreadable(c.seal(at, plain))
  {
    SealedReads(c, at, plain);
  }

  ghost predicate InPlace(c: LineCipher, p: Placed) {
    exists plain: Bytes :: c.parses(plain) && p.line == c.seal(p.at, plain)
  }

  /** A line sealed where it stands, or one that reads nowhere. */
  ghost predicate Fixed(c: LineCipher, p: Placed) {
    InPlace(c, p) || NeverReads(c, p.line)
  }

  ghost predicate AllFixed(c: LineCipher, text: Bytes) {
    forall p | p in Lines(text) :: Fixed(c, p)
  }

  /** `other` is made of the lines of `text`, in any order, any number of times. */
  ghost predicate MadeOf(other: Bytes, text: Bytes) {
    forall p | p in Lines(other) :: exists q :: q in Lines(text) && p.line == q.line
  }

  /** However a file's lines are reordered, repeated or dropped, a line of the
      result reads exactly when it stood at that offset, sealed there; and offsets
      strictly increase, so what reads is in its old order and never twice. */
  lemma {:induction false} RearrangedReadsIff(c: LineCipher, text: Bytes, other: Bytes, k: nat)
    requires Ideal(c) && AllFixed(c, text) && MadeOf(other, text) && k < |Lines(other)|
    ensures var p := Lines(other)[k]; ReadLine(c, p.at, p.line).Readable? <==> p in Lines(text) && InPlace(c, p)
    ensures forall j | 0 <= j < k :: Lines(other)[j].at < Lines(other)[k].at
  {
    var p := Lines(other)[k];
    assert p in Lines(other);
    var q :| q in Lines(text) && p.line == q.line;
    assert Fixed(c, q);
    if InPlace(c, q) {
      InPlaceReadsIff(c, q, p.at);
    }
    if InPlace(c, p) {
      InPlaceReadsIff(c, p, p.at);
    }
    OffsetsIncrease(other);
  }

  lemma {:induction false} InPlaceReadsIff(c: LineCipher, p: Placed, at: nat)
    requires Ideal(c) && InPlace(c, p)
    ensures ReadLine(c, at, p.line).Readable? <==> at == p.at
  {
    var plain :| c.parses(plain) && p.line == c.seal(p.at, plain);
    MovedLineReadsIff(c, p.at, plain, at);
  }

  lemma {:induction false} OffsetsIncrease(text: Bytes)
    ensures forall p | p in Lines(text) :: p.at <= |text|
    ensures forall j, k | 0 <= j < k < |Lines(text)| :: Lines(text)[j].at < Lines(text)[k].at
    decreases |text|
  {
    var k := LineStart(text);
    if k != 0 {
      OffsetsIncrease(text[..k - 1]);
    }
  }

  // --- and every file the store writes is such a file -----------------------------------------------------

  lemma {:induction false} AddedLine(text: Bytes, line: Bytes)
    requires NEWLINE !in line
    ensures var start := text + if Broken(text) then [NEWLINE] else [];
            Lines(start + line) == Lines(text) + Place(AppendAt(text), line) == Lines(start + line + [NEWLINE])
  {
    LinesThenEnd(text);
    LinesThenLine(Settled(text), line);
    LinesThenEnd(Settled(text) + line);
    assert text + [] == text;
  }

  lemma {:induction false} AddedFixed(c: LineCipher, text: Bytes, line: Bytes)
    requires AllFixed(c, text) && NEWLINE !in line && (Blank(line) || Fixed(c, Placed(AppendAt(text), line)))
    ensures var start := text + if Broken(text) then [NEWLINE] else [];
            AllFixed(c, start + line) && AllFixed(c, start + line + [NEWLINE])
  {
    AddedLine(text, line);
  }

  lemma {:induction false} SealedInPlace(c: LineCipher, at: nat, plain: Bytes)
    requires c.parses(plain)
    ensures InPlace(c, Placed(at, c.seal(at, plain)))
  {
  }

  lemma {:induction false} AppendFixed(c: LineCipher, text: Bytes, plain: Bytes)
    requires Ideal(c) && c.parses(plain) && AllFixed(c, text)
    ensures AllFixed(c, Append(c, text, plain))
  {
    SealedReads(c, AppendAt(text), plain);
    SealedInPlace(c, AppendAt(text), plain);
    AddedFixed(c, text, c.seal(AppendAt(text), plain));
    AppendParts(c, text, plain);
  }

  /** How much of the line itself is among the first `k` bytes an append adds. */
  function LineBytes(c: LineCipher, text: Bytes, plain: Bytes, k: nat): (n: nat)
    ensures n <= |c.seal(AppendAt(text), plain)|
  {
    var skip, len := if Broken(text) then 1 else 0, |c.seal(AppendAt(text), plain)|;
    if k < skip then 0 else if k - skip <= len then k - skip else len
  }

  lemma {:induction false} CutFixed(c: LineCipher, text: Bytes, plain: Bytes, k: nat)
    requires Ideal(c) && c.parses(plain) && AllFixed(c, text)
    ensures AllFixed(c, text + Cut(Added(c, text, plain), k))
  {
    PieceFixed(c, AppendAt(text), plain, LineBytes(c, text, plain, k));
    CutFixedBy(c, text, plain, k);
  }

  lemma {:induction false} PieceFixed(c: LineCipher, at: nat, plain: Bytes, n: nat)
    requires Ideal(c) && c.parses(plain) && n <= |c.seal(at, plain)|
    ensures var piece := c.seal(at, plain)[..n];
            NEWLINE !in piece && (Blank(piece) || Fixed(c, Placed(at, piece)))
  {
    var line := c.seal(at, plain);
    PieceReads(c, at, plain, n);
    SealedInPlace(c, at, plain);
    assert n == |line| ==> line[..n] == line;
  }

  lemma {:induction false} CutFixedBy(c: LineCipher, text: Bytes, plain: Bytes, k: nat)
    requires AllFixed(c, text)
    requires var piece := c.seal(AppendAt(text), plain)[..LineBytes(c, text, plain, k)];
             NEWLINE !in piece && (Blank(piece) || Fixed(c, Placed(AppendAt(text), piece)))
    ensures AllFixed(c, text + Cut(Added(c, text, plain), k))
  {
    var skip, line := if Broken(text) then 1 else 0, c.seal(AppendAt(text), plain);
    var len := |Added(c, text, plain)|;
    var m := if k <= len then k else len;
    TornParts(c, text, plain, m);
    if skip <= m {
      AddedFixed(c, text, line[..LineBytes(c, text, plain, k)]);
    }
  }

  /** A rewrite leaves every line sealed where it stands, but for the ones kept as
      they were because they read nowhere. */
  lemma {:induction false} RewriteFixed(c: LineCipher, items: seq<Item>)
    requires Ideal(c) && Writable(c, items)
    ensures AllFixed(c, Written(c, items)) && !Broken(Written(c, items))
  {
    if items != [] {
      WrittenPart(c, items);
      var init, last := items[..|items| - 1], items[|items| - 1];
      RewriteFixed(c, init);
      var before := Written(c, init);
      WrittenItemReads(c, |before|, items, |items| - 1);
      assert last in items && WritableItem(c, last);
      if last.Readable? {
        SealedInPlace(c, |before|, last.plain);
      }
      assert Fixed(c, Placed(|before|, EncodeItem(c, |before|, last)));
      AddedFixed(c, before, EncodeItem(c, |before|, last));
      assert before + [] == before;
    }
  }

  /** So what rearranging can do holds for the file of every run, lines cut short
      by crashes and all. */
  lemma {:induction false} RunFixed(c: LineCipher, ops: seq<Op>)
    requires Ideal(c) && Honest(c, ops)
    ensures AllFixed(c, After(c, ops).text)
  {
    if ops != [] {
      var before, op := ops[..|ops| - 1], ops[|ops| - 1];
      HonestBefore(c, ops);
      RunFixed(c, before);
      var text := After(c, before).text;
      if op.Appending? {
        AppendFixed(c, text, op.plain);
      } else if op.AppendCut? {
        CutFixed(c, text, op.plain, op.bytes);
      } else {
        RunReads(c, before);
        FromContentsWritable(c, op.items, before);
        RewriteFixed(c, op.items);
      }
    }
  }
}
