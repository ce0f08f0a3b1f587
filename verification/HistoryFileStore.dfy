/** The history file's own operations (`store.rs`), loop by loop. */
module HistoryFileStore {
  import opened Wrappers
  import opened HistoryFile
  import Theorems = HistoryFileTheorems

  lemma {:induction false} OneLine(text: Bytes, at: nat, end: nat)
    requires at <= end <= |text| && !Broken(text[..at]) && NEWLINE !in text[at..end]
    ensures Lines(text[..end]) == Lines(text[..at]) + Place(at, text[at..end])
  {
    var before, line := text[..at], text[at..end];
    SplitAt(text, at, end);
    Theorems.LinesThenLine(before, line);
  }

  lemma {:induction false} SplitAt(text: Bytes, at: nat, end: nat)
    requires at <= end <= |text|
    ensures text[..end] == text[..at] + text[at..end]
  {
  }

  lemma {:induction false} LineEnds(text: Bytes, end: nat)
    requires end < |text| && text[end] == NEWLINE
    ensures Lines(text[..end + 1]) == Lines(text[..end]) && !Broken(text[..end + 1])
  {
    SplitAt(text, end, end + 1);
    Theorems.LinesThenEnd(text[..end]);
  }

  method FindNewline(text: Bytes, at: nat) returns (end: nat)
    requires at <= |text|
    ensures at <= end <= |text| && NEWLINE !in text[at..end]
    ensures end < |text| ==> text[end] == NEWLINE
  {
    end := at;
    while end < |text| && text[end] != NEWLINE
      invariant at <= end <= |text| && NEWLINE !in text[at..end]
    {
      end := end + 1;
    }
  }

  /** Each non-blank line with its offset, from the front, counting blank lines
      towards the offsets. */
  method LinesWithOffsets(text: Bytes) returns (lines: seq<Placed>)
    ensures lines == Lines(text)
  {
    lines := [];
    var at := 0;
    while true
      invariant at <= |text|
      invariant !Broken(text[..at]) && lines == Lines(text[..at])
      decreases |text| - at
    {
      var end := FindNewline(text, at);
      OneLine(text, at, end);
      lines := lines + Place(at, text[at..end]);
      if end == |text| {
        assert text[..end] == text;
        break;
      }
      LineEnds(text, end);
      at := end + 1;
    }
  }

  class Log {
    var file: File
    const cipher: LineCipher

    constructor (cipher: LineCipher)
      ensures this.cipher == cipher && file == File([], None)
    {
      this.cipher := cipher;
      file := File([], None);
    }

    /** Whether the file is empty or ends a line. */
    method EndsWithNewline() returns (r: bool)
      ensures r == !Broken(file.text)
    {
      if |file.text| == 0 {
        return true;
      }
      return file.text[|file.text| - 1] == NEWLINE;
    }

    method NoteHistoryWrite()
      modifies this`file
      ensures file == old(file).(recorded := Some(|old(file).text|))
    {
      file := file.(recorded := Some(|file.text|));
    }

    /** Append one line; after it a reader finds that line, at the end, and
        everything it found before. */
    method AppendHistoryLine(json: Bytes)
      modifies this`file
      ensures file == AppendAndNote(cipher, old(file), json)
      ensures Ideal(cipher) && cipher.parses(json) ==>
                Load(cipher, file) == Ok(Read(cipher, old(file).text) + [Readable(json)])
    {
      var at := |file.text|;
      var whole := EndsWithNewline();
      if !whole {
        at := at + 1;
      }
      var line := cipher.seal(at, json) + [NEWLINE];
      if !whole {
        line := [NEWLINE] + line;
      }
      assert line == Added(cipher, file.text, json);
      file := file.(text := file.text + line);
      NoteHistoryWrite();
      if Ideal(cipher) && cipher.parses(json) {
        Theorems.AppendReads(cipher, old(file).text, json);
      }
    }

    /** Every line decoded, in order, those that do not read kept as they are;
        nothing at all from a file shorter than its record. */
    method ReadHistoryLines() returns (r: Result<seq<Item>, Refusal>)
      ensures r == Load(cipher, file)
      ensures r.Err? <==> file.recorded.Some? && |file.text| < file.recorded.value
    {
      if file.recorded.Some? && |file.text| < file.recorded.value {
        return Err(CutOff(|file.text|, file.recorded.value));
      }
      var lines := LinesWithOffsets(file.text);
      var items: seq<Item> := [];
      for k := 0 to |lines|
        invariant items == ReadAll(cipher, lines[..k])
      {
        assert lines[..k + 1][..k] == lines[..k];
        items := items + [ReadLine(cipher, lines[k].at, lines[k].line)];
      }
      assert lines[..|lines|] == lines;
      return Ok(items);
    }

    /** The whole file anew, each line bound to where it lands; its length noted only
        where the record lists the log. */
    method WriteHistoryLines(items: seq<Item>)
      modifies this`file
      ensures file == RewriteAndNote(cipher, old(file), items)
    {
      var out: Bytes := [];
      for k := 0 to |items|
        invariant out == Written(cipher, items[..k])
      {
        assert items[..k + 1][..k] == items[..k];
        var at := |out|;
        match items[k] {
          case Readable(json) => out := out + cipher.seal(at, json);
          case Unreadable(raw) => out := out + raw;
        }
        out := out + [NEWLINE];
      }
      assert items[..|items|] == items;
      file := file.(text := out);
      if file.recorded.None? {
        return;
      }
      NoteHistoryWrite();
    }
  }
}
