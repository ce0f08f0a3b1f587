/**
 A protected history file as bytes (`store.rs`): lines, each sealed under the
 byte offset it sits at, appended one at a time, cut short by a crash at any
 byte, and rewritten whole.

 The sealing is a parameter, with what is asked of it stated as `Ideal`.
 */
module HistoryFile {
  import opened Wrappers

  type Byte = b: int | 0 <= b < 256
  type Bytes = seq<Byte>

  const NEWLINE: Byte := 10

  /** `enc:`, which every sealed line starts with. */
  const LINE_PREFIX: Bytes := [101, 110, 99, 58]

  /** The file's cipher, under the file's own name, and the reader of the
      JSON a line holds. */
  datatype LineCipher = LineCipher(
    seal: (nat, Bytes) -> Bytes,
    openAt: (nat, Bytes) -> Option<Bytes>,
    openUnbound: Bytes -> Option<Bytes>,
    parses: Bytes -> bool)

  datatype Item = Readable(plain: Bytes) | Unreadable(raw: Bytes)

  predicate Sealed(line: Bytes) {
    |line| >= |LINE_PREFIX| && line[..|LINE_PREFIX|] == LINE_PREFIX
  }

  /** One line that sits at `at`: sealed there, or before offsets were bound
      in, or plain. */
  function DecodeLine(c: LineCipher, at: nat, line: Bytes): Option<Bytes> {
    if !Sealed(line) then Some(line)
    else if c.openAt(at, line).Some? then c.openAt(at, line)
    else c.openUnbound(line)
  }

  function ReadLine(c: LineCipher, at: nat, line: Bytes): Item {
    match DecodeLine(c, at, line)
    case None => Unreadable(line)
    case Some(plain) => if c.parses(plain) then Readable(plain) else Unreadable(line)
  }

  // --- lines and their offsets -----------------------------------------------------

  predicate Blank(line: Bytes) {
    forall b | b in line :: 9 <= b <= 13 || b == 32
  }

  /** Where the last line of `text` starts. */
  function LineStart(text: Bytes): (k: nat)
    ensures k <= |text|
  {
    if text == [] || text[|text| - 1] == NEWLINE then |text| else LineStart(text[..|text| - 1])
  }

  datatype Placed = Placed(at: nat, line: Bytes)

  /** A line at its offset, unless there is nothing on it. */
  function Place(at: nat, line: Bytes): seq<Placed> {
    if Blank(line) then [] else [Placed(at, line)]
  }

  /** Each non-blank line of `text`, with the offset it starts at. */
  function Lines(text: Bytes): seq<Placed>
    decreases |text|
  {
    var k := LineStart(text);
    if k == 0 then Place(0, text) else Lines(text[..k - 1]) + Place(k, text[k..])
  }

  function ReadAll(c: LineCipher, lines: seq<Placed>): seq<Item> {
    if lines == [] then []
    else
      var last := lines[|lines| - 1];
      ReadAll(c, lines[..|lines| - 1]) + [ReadLine(c, last.at, last.line)]
  }

  /** What reading a file gives. */
  function Read(c: LineCipher, text: Bytes): seq<Item> {
    ReadAll(c, Lines(text))
  }

  // --- writing ---------------------------------------------------------------------------

  /** Cut short by a crash: the file is not empty and does not end a line. */
  predicate Broken(text: Bytes) {
    text != [] && text[|text| - 1] != NEWLINE
  }

  function AppendAt(text: Bytes): nat {
    if Broken(text) then |text| + 1 else |text|
  }

  /** The bytes an append adds. */
  function Added(c: LineCipher, text: Bytes, plain: Bytes): Bytes {
    (if Broken(text) then [NEWLINE] else []) + c.seal(AppendAt(text), plain) + [NEWLINE]
  }

  function Append(c: LineCipher, text: Bytes, plain: Bytes): Bytes {
    text + Added(c, text, plain)
  }

  function EncodeItem(c: LineCipher, at: nat, item: Item): Bytes {
    match item
    case Readable(plain) => c.seal(at, plain)
    case Unreadable(raw) => raw
  }

  /** A whole file: each item where it lands. */
  function Written(c: LineCipher, items: seq<Item>): Bytes {
    if items == [] then []
    else
      var before := Written(c, items[..|items| - 1]);
      before + EncodeItem(c, |before|, items[|items| - 1]) + [NEWLINE]
  }

  // --- the file and its recorded length --------------------------------------------------------

  /** A history file, and how long the directory last recorded it to be. */
  datatype File = File(text: Bytes, recorded: Option<nat>)

  /** Shorter than it was last recorded to be. */
  predicate Refused(f: File) {
    f.recorded.Some? && |f.text| < f.recorded.value
  }

  datatype Refusal = CutOff(bytes: nat, recorded: nat)

  function Load(c: LineCipher, f: File): Result<seq<Item>, Refusal> {
    if Refused(f) then Err(CutOff(|f.text|, f.recorded.value)) else Ok(Read(c, f.text))
  }

  function AppendAndNote(c: LineCipher, f: File, plain: Bytes): File {
    var text := Append(c, f.text, plain);
    File(text, Some(|text|))
  }

  /** A rewrite does not know whose log it has in hand: it finds the conversation in
      the record, so it notes the length of a log already there and of no other. */
  function RewriteAndNote(c: LineCipher, f: File, items: seq<Item>): File {
    var text := Written(c, items);
    File(text, if f.recorded.Some? then Some(|text|) else None)
  }

  // --- what is asked of the cipher ------------------------------------------------------------

  /** No reader takes `raw` for a line, wherever it sits. */
  ghost predicate NeverReads(c: LineCipher, raw: Bytes) {
    forall at: nat :: ReadLine(c, at, raw) == Unreadable(raw)
  }

  ghost predicate OpensOnlyWhereSealed(c: LineCipher) {
    forall at: nat, plain: Bytes ::
      var line := c.seal(at, plain);
      && Sealed(line) && NEWLINE !in line
      && c.openUnbound(line).None?
      && c.openAt(at, line) == Some(plain)
      && forall other: nat | other != at :: c.openAt(other, line).None?
  }

  ghost predicate PiecesNeverRead(c: LineCipher) {
    forall at: nat, plain: Bytes, k: nat | k < |c.seal(at, plain)| :: NeverReads(c, c.seal(at, plain)[..k])
  }

  /** A piece of a sealed line that still looks sealed does not open. */
  ghost predicate PiecesStayShut(c: LineCipher) {
    forall at: nat, plain: Bytes, k: nat, other: nat | |LINE_PREFIX| <= k < |c.seal(at, plain)| ::
      c.openAt(other, c.seal(at, plain)[..k]).None? && c.openUnbound(c.seal(at, plain)[..k]).None?
  }

  /** An authenticated cipher, ideally: a sealed line opens at the offset it
      was sealed for and nowhere else, and a piece of one never does. */
  ghost predicate Ideal(c: LineCipher) {
    OpensOnlyWhereSealed(c) && PiecesNeverRead(c)
  }
}
