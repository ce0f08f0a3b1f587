/**
 Key rotation (`store.rs`, `vault.rs`): a directory moved from one data key to
 another, one file at a time, with a crash possible between any two.

 The vault on disk names the key, and while a rotation is under way the one
 before it. What a crash leaves is finished at the next unlock.
 */
module Rotation {
  import opened Wrappers

  type Key = nat

  /** What the vault names, which is also what the running store's cipher holds. */
  datatype Keys = Keys(key: Key, previous: Option<Key>)

  predicate Opens(keys: Keys, k: Key) {
    k == keys.key || keys.previous == Some(k)
  }

  /** A file in the clear, sealed, or sealed and damaged. */
  datatype File =
    | Plain(text: string)
    | Under(key: Key, generation: Option<nat>, text: string)
    | Damaged(bytes: string)

  datatype Line =
    | PlainLine(text: string)
    | SealedLine(key: Key, text: string)
    | DamagedLine(bytes: string)

  /** What a rotation rewrites, in its order: the whole files, the record of
      their generations, the downloads, the history logs. */
  datatype Item =
    | Whole(file: File)
    | Record(file: File)
    | Download(file: File)
    | Log(lines: seq<Line>)

  // --- reading ------------------------------------------------------------------------

  datatype Contents =
    | FileContents(generation: Option<nat>, text: string)
    | LogContents(lines: seq<Option<string>>)
    | Lost

  function ReadFile(keys: Keys, file: File): Contents {
    match file
    case Plain(text) => FileContents(None, text)
    case Under(k, generation, text) => if Opens(keys, k) then FileContents(generation, text) else Lost
    case Damaged(_) => Lost
  }

  function ReadLine(keys: Keys, line: Line): Option<string> {
    match line
    case PlainLine(text) => Some(text)
    case SealedLine(k, text) => if Opens(keys, k) then Some(text) else None
    case DamagedLine(_) => None
  }

  function ReadLines(keys: Keys, lines: seq<Line>): seq<Option<string>> {
    seq(|lines|, i requires 0 <= i < |lines| => ReadLine(keys, lines[i]))
  }

  /** What a reader with these keys finds. */
  function Read(keys: Keys, item: Item): Contents {
    match item
    case Whole(file) => ReadFile(keys, file)
    case Record(file) => ReadFile(keys, file)
    case Download(file) => ReadFile(keys, file)
    case Log(lines) => LogContents(ReadLines(keys, lines))
  }

  // --- rewriting one item --------------------------------------------------------------

  /** A whole file under `to`, at the generation it was at; none if `from` does
      not open it. */
  function RecryptFile(from: Keys, to: Key, file: File): Option<File> {
    match ReadFile(from, file)
    case FileContents(generation, text) => Some(Under(to, generation, text))
    case _ => None
  }

  predicate AllOpen(from: Keys, lines: seq<Line>) {
    forall line | line in lines :: ReadLine(from, line).Some?
  }

  function RecryptLines(from: Keys, to: Key, lines: seq<Line>): seq<Line>
    requires AllOpen(from, lines)
  {
    seq(|lines|, i requires 0 <= i < |lines| =>
      assert lines[i] in lines; SealedLine(to, ReadLine(from, lines[i]).value))
  }

  function RecryptItem(from: Keys, to: Key, item: Item): Option<Item> {
    match item
    case Whole(file) =>
      var r := RecryptFile(from, to, file);
      if r.Some? then Some(Whole(r.value)) else None
    case Record(file) =>
      var r := RecryptFile(from, to, file);
      if r.Some? then Some(Record(r.value)) else None
    case Download(file) =>
      if file.Plain? then Some(item)
      else
        var r := RecryptFile(from, to, file);
        if r.Some? then Some(Download(r.value)) else None
    case Log(lines) =>
      if AllOpen(from, lines) then Some(Log(RecryptLines(from, to, lines))) else None
  }

  // --- the directory, step by step --------------------------------------------------------

  /** Going through the items: `settling` drops the old key at the end, the
      other kind of pass seals what was left plain. */
  datatype Phase =
    | Down
    | Running
    | Recrypting(done: nat, from: Keys, settling: bool, unlocking: bool)

  /** `statePrevious` is `state.prev`, which no pass rewrites. */
  datatype World = World(vault: Keys, items: seq<Item>, statePrevious: Option<File>, phase: Phase)

  datatype Event =
    | Put(index: nat, item: Item)
    | PutStatePrevious(file: File)
    | Rotate(newKey: Key)
    | Advance
    | Crash
    | Unlock

  /** Something lies in the clear that a pass at unlock looks for. */
  predicate LeftPlain(item: Item) {
    match item
    case Whole(file) => file.Plain?
    case Log(lines) => lines != [] && lines[0].PlainLine?
    case _ => false
  }

  predicate AnyPlain(items: seq<Item>) {
    exists item | item in items :: LeftPlain(item)
  }

  /** After the pass that seals, if there was one. */
  function FinishPhase(vault: Keys): Phase {
    if vault.previous.Some? then Recrypting(0, vault, true, true) else Running
  }

  function AdvanceStep(w: World): World
    requires w.phase.Recrypting?
  {
    var p := w.phase;
    if p.done < |w.items| then
      var r := RecryptItem(p.from, w.vault.key, w.items[p.done]);
      if r.None? then w.(phase := if p.unlocking then Down else Running)
      else w.(items := w.items[p.done := r.value], phase := p.(done := p.done + 1))
    else if p.settling then w.(vault := Keys(w.vault.key, None), phase := Running)
    else w.(phase := FinishPhase(w.vault))
  }

  /** Sealed by the running store: under its key, a line or file that a crash
      or the disk damaged included. */
  predicate SealedBy(key: Key, item: Item) {
    match item
    case Log(lines) => forall line | line in lines :: line.DamagedLine? || (line.SealedLine? && line.key == key)
    case Download(file) => !file.Under? || file.key == key
    case Whole(file) => file.Damaged? || (file.Under? && file.key == key)
    case Record(file) => file.Damaged? || (file.Under? && file.key == key)
  }

  /** One step; an event out of its time changes nothing. */
  function Step(w: World, e: Event): World {
    match e
    case Put(index, item) =>
      if w.phase.Running? && index < |w.items| && SealedBy(w.vault.key, item)
      then w.(items := w.items[index := item]) else w
    case PutStatePrevious(file) =>
      if w.phase.Running? && file.Under? && file.key == w.vault.key
      then w.(statePrevious := Some(file)) else w
    case Rotate(newKey) =>
      if w.phase.Running?
      then w.(vault := Keys(newKey, Some(w.vault.key)), phase := Recrypting(0, w.vault, true, false)) else w
    case Advance => if w.phase.Recrypting? then AdvanceStep(w) else w
    case Crash => w.(phase := Down)
    case Unlock =>
      if !w.phase.Down? then w
      else if AnyPlain(w.items) then w.(phase := Recrypting(0, w.vault, false, true))
      else w.(phase := FinishPhase(w.vault))
  }

  function After(w: World, events: seq<Event>): World {
    if events == [] then w else Step(After(w, events[..|events| - 1]), events[|events| - 1])
  }

  /** A pass, or the two an unlock makes, carried on until it ends. */
  function Drive(w: World): World
    decreases if w.phase.Recrypting? then (if w.phase.settling then 1 else 2) else 0,
              if w.phase.Recrypting? && w.phase.done <= |w.items| then |w.items| - w.phase.done else 0
  {
    if w.phase.Recrypting? then Drive(AdvanceStep(w)) else w
  }
}
