/**
 A history log moved from one key to another, byte by byte (`store.rs`): each
 line read at the offset it is at and sealed for the offset it lands on, since
 blank lines are dropped on the way.
 */
module RotationLog {
  import opened Wrappers
  import opened HistoryFile
  import Theorems = HistoryFileTheorems
  import HistoryFileStore

  /** What each line holds, where it opens. */
  function Decoded(c: LineCipher, lines: seq<Placed>): seq<Option<Bytes>> {
    seq(|lines|, i requires 0 <= i < |lines| => DecodeLine(c, lines[i].at, lines[i].line))
  }

  /** The plain lines, sealed one after the other for where they land. */
  function Sealing(c: LineCipher, plains: seq<Bytes>): Bytes {
    if plains == [] then []
    else
      var before := Sealing(c, plains[..|plains| - 1]);
      before + c.seal(|before|, plains[|plains| - 1]) + [NEWLINE]
  }

  predicate AllDecode(c: LineCipher, lines: seq<Placed>) {
    forall i | 0 <= i < |lines| :: DecodeLine(c, lines[i].at, lines[i].line).Some?
  }

  function Plains(c: LineCipher, lines: seq<Placed>): seq<Bytes>
    requires AllDecode(c, lines)
  {
    seq(|lines|, i requires 0 <= i < |lines| => DecodeLine(c, lines[i].at, lines[i].line).value)
  }

  /** A sealed line opens where it was sealed for, and is a line. */
  ghost predicate OpensBack(c: LineCipher) {
    forall at: nat, plain: Bytes :: SealOpens(c, at, plain)
  }

  predicate SealOpens(c: LineCipher, at: nat, plain: Bytes) {
    var line := c.seal(at, plain);
    DecodeLine(c, at, line) == Some(plain) && Sealed(line) && NEWLINE !in line
  }

  lemma {:induction false} IdealOpensBack(c: LineCipher)
    requires OpensOnlyWhereSealed(c)
    ensures OpensBack(c)
  {
    forall at: nat, plain: Bytes ensures SealOpens(c, at, plain) {
      assert c.openAt(at, c.seal(at, plain)) == Some(plain);
    }
  }

  lemma {:induction false} OneLineMore(before: Bytes, line: Bytes)
    requires !Broken(before) && NEWLINE !in line && !Blank(line)
    ensures Lines(before + line + [NEWLINE]) == Lines(before) + [Placed(|before|, line)]
  {
    Theorems.LinesThenLine(before, line);
    Theorems.LinesThenEnd(before + line);
  }

  predicate OpenAs(c: LineCipher, lines: seq<Placed>, plains: seq<Bytes>) {
    |lines| == |plains| && forall i | 0 <= i < |lines| :: DecodeLine(c, lines[i].at, lines[i].line) == Some(plains[i])
  }

  lemma {:induction false} OpenAsSnoc(c: LineCipher, lines: seq<Placed>, plains: seq<Bytes>, p: Placed, plain: Bytes)
    requires OpenAs(c, lines, plains) && DecodeLine(c, p.at, p.line) == Some(plain)
    ensures OpenAs(c, lines + [p], plains + [plain])
  {
  }

  lemma {:induction false} SealingSnoc(c: LineCipher, plains: seq<Bytes>, k: nat) returns (before: Bytes, line: Bytes)
    requires k < |plains|
    ensures before == Sealing(c, plains[..k]) && line == c.seal(|before|, plains[k])
    ensures Sealing(c, plains[..k + 1]) == before + line + [NEWLINE]
  {
    assert plains[..k + 1][..k] == plains[..k];
    before := Sealing(c, plains[..k]);
    line := c.seal(|before|, plains[k]);
  }

  /** Every line of a sealing stands where it was sealed for, so it opens there. */
  lemma {:induction false} SealingLines(c: LineCipher, plains: seq<Bytes>, k: nat)
    requires OpensBack(c) && k <= |plains|
    ensures OpenAs(c, Lines(Sealing(c, plains[..k])), plains[..k]) && !Broken(Sealing(c, plains[..k]))
  {
    if k == 0 {
      assert Lines([]) == [];
    } else {
      SealingLines(c, plains, k - 1);
      var before, line := SealingSnoc(c, plains, k - 1);
      assert SealOpens(c, |before|, plains[k - 1]);
      Theorems.SealedIsNotBlank(line);
      OneLineMore(before, line);
      OpenAsSnoc(c, Lines(before), plains[..k - 1], Placed(|before|, line), plains[k - 1]);
      assert plains[..k - 1] + [plains[k - 1]] == plains[..k];
    }
  }

  /** Moving a log to another key keeps what every line holds, in order, and leaves
      every line opening at its new offset under the new key. */
  lemma {:induction false} MovedLogHolds(from: LineCipher, to: LineCipher, text: Bytes)
    requires OpensOnlyWhereSealed(to) && AllDecode(from, Lines(text))
    ensures var moved := Sealing(to, Plains(from, Lines(text)));
            && Decoded(to, Lines(moved)) == Decoded(from, Lines(text))
            && !Broken(moved)
  {
    var plains := Plains(from, Lines(text));
    IdealOpensBack(to);
    SealingLines(to, plains, |plains|);
    assert plains[..|plains|] == plains;
  }

  /** The pass over one log: nothing is written unless every line opens. */
  method RecryptLog(from: LineCipher, to: LineCipher, text: Bytes) returns (r: Option<Bytes>)
    ensures r.Some? <==> AllDecode(from, Lines(text))
    ensures r.Some? ==> r.value == Sealing(to, Plains(from, Lines(text)))
    ensures r.Some? && OpensOnlyWhereSealed(to) ==> Decoded(to, Lines(r.value)) == Decoded(from, Lines(text))
  {
    var lines := HistoryFileStore.LinesWithOffsets(text);
    var out: Bytes := [];
    ghost var plains: seq<Bytes> := [];
    for k := 0 to |lines|
      invariant |plains| == k && out == Sealing(to, plains)
      invariant forall i | 0 <= i < k :: DecodeLine(from, lines[i].at, lines[i].line) == Some(plains[i])
    {
      var plain := DecodeLine(from, lines[k].at, lines[k].line);
      if plain.None? {
        return None;
      }
      assert (plains + [plain.value])[..k] == plains;
      out := out + to.seal(|out|, plain.value) + [NEWLINE];
      plains := plains + [plain.value];
    }
    assert plains == Plains(from, lines);
    if OpensOnlyWhereSealed(to) {
      MovedLogHolds(from, to, text);
    }
    return Some(out);
  }

  // --- against the length on record -----------------------------------------------------------

  /** What lines take up in a file, each ended. */
  function Total(lines: seq<Placed>): nat {
    if lines == [] then 0 else Total(lines[..|lines| - 1]) + |lines[|lines| - 1].line| + 1
  }

  /** How long line `i` becomes where it lands. */
  function Landed(to: LineCipher, plains: seq<Bytes>, i: nat): nat
    requires i < |plains|
  {
    |to.seal(|Sealing(to, plains[..i])|, plains[i])|
  }

  /** A line is as long under the one key as under the other. */
  predicate SameLengths(from: LineCipher, to: LineCipher, lines: seq<Placed>)
    requires AllDecode(from, lines)
  {
    forall i | 0 <= i < |lines| :: Landed(to, Plains(from, lines), i) == |lines[i].line|
  }

  /** No line gets shorter, as one in the clear does not. */
  predicate NoneShorter(from: LineCipher, to: LineCipher, lines: seq<Placed>)
    requires AllDecode(from, lines)
  {
    forall i | 0 <= i < |lines| :: Landed(to, Plains(from, lines), i) >= |lines[i].line|
  }

  lemma {:induction false} TotalSnoc(lines: seq<Placed>, k: nat)
    requires k < |lines|
    ensures Total(lines[..k + 1]) == Total(lines[..k]) + |lines[k].line| + 1
  {
    assert lines[..k + 1][..k] == lines[..k];
  }

  lemma {:induction false} LandedTotal(to: LineCipher, plains: seq<Bytes>, lines: seq<Placed>, k: nat, same: bool)
    requires |plains| == |lines| && k <= |lines|
    requires forall i | 0 <= i < |lines| ::
               Landed(to, plains, i) >= |lines[i].line| && (same ==> Landed(to, plains, i) == |lines[i].line|)
    ensures |Sealing(to, plains[..k])| >= Total(lines[..k])
    ensures same ==> |Sealing(to, plains[..k])| == Total(lines[..k])
  {
    if k > 0 {
      LandedTotal(to, plains, lines, k - 1, same);
      TotalSnoc(lines, k - 1);
      var before, line := SealingSnoc(to, plains, k - 1);
      assert |line| == Landed(to, plains, k - 1);
    }
  }

  lemma {:induction false} MovedTotal(from: LineCipher, to: LineCipher, lines: seq<Placed>)
    requires AllDecode(from, lines) && NoneShorter(from, to, lines)
    ensures |Sealing(to, Plains(from, lines))| >= Total(lines)
    ensures SameLengths(from, to, lines) ==> |Sealing(to, Plains(from, lines))| == Total(lines)
  {
    var plains := Plains(from, lines);
    LandedTotal(to, plains, lines, |lines|, SameLengths(from, to, lines));
    assert lines[..|lines|] == lines && plains[..|lines|] == plains;
  }

  /** Where lines keep their length, a log loads after the move exactly when its lines
      without the blank ones are still as long as the record has it. */
  lemma {:induction false} MovedLogLoadsIff(from: LineCipher, to: LineCipher, f: File)
    requires AllDecode(from, Lines(f.text)) && SameLengths(from, to, Lines(f.text))
    ensures Load(to, File(Sealing(to, Plains(from, Lines(f.text))), f.recorded)).Ok? <==>
            f.recorded.None? || f.recorded.value <= Total(Lines(f.text))
  {
    MovedTotal(from, to, Lines(f.text));
  }

  /** So one blank line, counted in the record, and the log is refused after it. */
  lemma {:induction false} BlankLineRefused(from: LineCipher, to: LineCipher)
    ensures var f := File([NEWLINE], Some(1));
            && Load(from, f) == Ok([]) && AllDecode(from, Lines(f.text))
            && Load(to, File(Sealing(to, Plains(from, Lines(f.text))), f.recorded)).Err?
  {
    Theorems.LinesThenEnd([]);
    assert [] + [NEWLINE] == [NEWLINE] && Lines([]) == [];
  }

  // --- the store writes no blank line ------------------------------------------------------------

  /** There is something on every line, the last one too. */
  predicate Full(text: Bytes)
    decreases |text|
  {
    var k := LineStart(text);
    !Blank(text[k..]) && (k == 0 || Full(text[..k - 1]))
  }

  predicate NoBlanks(text: Bytes) {
    text == [] || Full(if Broken(text) then text else text[..|text| - 1])
  }

  lemma {:induction false} FullTotal(text: Bytes)
    requires Full(text)
    ensures Total(Lines(text)) == |text| + 1
    decreases |text|
  {
    var k := LineStart(text);
    var lines := Lines(text);
    if k != 0 {
      FullTotal(text[..k - 1]);
      assert lines[..|lines| - 1] == Lines(text[..k - 1]);
    } else {
      assert lines[..0] == [] && text[0..] == text;
    }
  }

  lemma {:induction false} NoBlanksTotal(text: Bytes)
    requires NoBlanks(text)
    ensures Total(Lines(text)) == |Theorems.Settled(text)|
  {
    if text == [] {
      assert Lines(text) == [];
    } else if Broken(text) {
      FullTotal(text);
    } else {
      FullTotal(text[..|text| - 1]);
      Theorems.LinesThenEnd(text[..|text| - 1]);
      assert text[..|text| - 1] + [NEWLINE] == text;
    }
  }

  lemma {:induction false} SettledNoBlanks(text: Bytes)
    requires NoBlanks(text)
    ensures NoBlanks(Theorems.Settled(text)) && !Broken(Theorems.Settled(text))
  {
    assert (text + [NEWLINE])[..|text|] == text;
  }

  lemma {:induction false} LineNoBlanks(text: Bytes, line: Bytes)
    requires NoBlanks(text) && !Broken(text) && NEWLINE !in line && !Blank(line)
    ensures NoBlanks(text + line) && NoBlanks(text + line + [NEWLINE])
  {
    Theorems.LineStartAfter(text, line);
    assert (text + line)[|text|..] == line;
    assert line != [] && (text + line)[|text + line| - 1] in line;
    if text != [] {
      assert (text + line)[..|text| - 1] == text[..|text| - 1];
    }
    assert Full(text + line);
    assert (text + line + [NEWLINE])[..|text + line|] == text + line;
  }

  lemma {:induction false} PieceNotBlank(line: Bytes, n: nat)
    requires Sealed(line) && 0 < n <= |line|
    ensures !Blank(line[..n])
  {
    assert line[..n][0] == line[..|LINE_PREFIX|][0];
    assert line[..n][0] in line[..n];
  }

  lemma {:induction false} AppendNoBlanks(c: LineCipher, text: Bytes, plain: Bytes, k: nat)
    requires SealOpens(c, AppendAt(text), plain) && NoBlanks(text) && k <= |Added(c, text, plain)|
    ensures NoBlanks(text + Added(c, text, plain)[..k])
  {
    var skip := if Broken(text) then 1 else 0;
    var line := c.seal(AppendAt(text), plain);
    SettledNoBlanks(text);
    Theorems.TornParts(c, text, plain, k);
    var start := Theorems.Settled(text);
    assert start == text + if Broken(text) then [NEWLINE] else [];
    if skip < k {
      var n := if k - skip <= |line| then k - skip else |line|;
      PieceNotBlank(line, n);
      LineNoBlanks(start, line[..n]);
    } else if k == skip {
      assert start + line[..0] == start;
    }
  }

  lemma {:induction false} WrittenNoBlanks(c: LineCipher, items: seq<Item>)
    requires Ideal(c) && Theorems.Writable(c, items)
    ensures NoBlanks(Written(c, items)) && !Broken(Written(c, items))
  {
    if items != [] {
      Theorems.WrittenPart(c, items);
      var before := Written(c, items[..|items| - 1]);
      WrittenNoBlanks(c, items[..|items| - 1]);
      Theorems.WrittenItemReads(c, |before|, items, |items| - 1);
      LineNoBlanks(before, EncodeItem(c, |before|, items[|items| - 1]));
    }
  }

  lemma {:induction false} RunNoBlanks(c: LineCipher, ops: seq<Theorems.Op>)
    requires Ideal(c) && Theorems.Honest(c, ops)
    ensures NoBlanks(Theorems.After(c, ops).text)
  {
    if ops != [] {
      var before, op := ops[..|ops| - 1], ops[|ops| - 1];
      Theorems.HonestBefore(c, ops);
      RunNoBlanks(c, before);
      var text := Theorems.After(c, before).text;
      if op.Appending? || op.AppendCut? {
        var added := Added(c, text, op.plain);
        var k := if op.Appending? || op.bytes > |added| then |added| else op.bytes;
        IdealOpensBack(c);
        AppendNoBlanks(c, text, op.plain, k);
        assert added[..|added|] == added;
      } else {
        Theorems.RunReads(c, before);
        Theorems.FromContentsWritable(c, op.items, before);
        WrittenNoBlanks(c, op.items);
      }
    }
  }

  lemma {:induction false} MovedNoShorter(from: LineCipher, to: LineCipher, text: Bytes)
    requires NoBlanks(text) && AllDecode(from, Lines(text)) && NoneShorter(from, to, Lines(text))
    ensures |Sealing(to, Plains(from, Lines(text)))| >= |text|
  {
    NoBlanksTotal(text);
    MovedTotal(from, to, Lines(text));
  }

  /** And so a log of the store's own, of any run, that loads before a rotation loads
      after it, with what its lines held. */
  lemma {:induction false} RotatedLogLoads(from: LineCipher, to: LineCipher, ops: seq<Theorems.Op>)
    requires Ideal(from) && Theorems.Honest(from, ops) && OpensOnlyWhereSealed(to)
    requires var lines := Lines(Theorems.After(from, ops).text); AllDecode(from, lines) && NoneShorter(from, to, lines)
    ensures var f := Theorems.After(from, ops);
            var moved := File(Sealing(to, Plains(from, Lines(f.text))), f.recorded);
            && Decoded(to, Lines(moved.text)) == Decoded(from, Lines(f.text))
            && (Load(from, f).Ok? ==> Load(to, moved).Ok?)
  {
    var text := Theorems.After(from, ops).text;
    MovedLogHolds(from, to, text);
    RunNoBlanks(from, ops);
    MovedNoShorter(from, to, text);
  }
}
