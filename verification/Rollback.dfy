/**
 Rollback binding (`rollback.rs`, `store.rs`): files written at generations, a
 record of which generation each file is at, and an anchor for the record.

 Every atomic write is one step of the disk; a crash falls between two.
 Sealing is ideal: a sealed file says its own name, generation and contents.
 */
module Rollback {
  import opened Wrappers

  type Name = string

  datatype File =
    | Plain(text: string)
    | Sealed(name: Name, generation: Option<nat>, text: string)

  /** A history log's name: one that says whose it is, or one that says nothing. */
  datatype LogName = Named(of: string) | Hidden(of: string)

  datatype HistoryState = HistoryState(conversation: string, bytes: nat)

  /** The record: its own generation, whether it covers the relay's key log and the
      outbox, each whole file's generation, each log's length. */
  datatype State = State(generation: nat, covers: bool, files: map<Name, nat>, history: map<LogName, HistoryState>)

  datatype Disk = Disk(
    files: map<Name, File>,
    lengths: map<LogName, nat>,
    state: Option<State>,
    previous: Option<State>,
    anchor: nat)

  // --- the record ---------------------------------------------------------------------

  /** The generations a file may be at: the one recorded, and the one a write
      cut short would have left. */
  function Acceptable(record: State, name: Name): seq<nat> {
    if name !in record.files then [record.generation + 1]
    else if record.files[name] == record.generation + 1 then [record.files[name]]
    else [record.files[name], record.generation + 1]
  }

  function Wrote(record: State, name: Name, at: nat): State {
    record.(files := record.files[name := at])
  }

  function WroteHistory(record: State, log: LogName, conversation: string, bytes: nat): State {
    record.(history := record.history[log := HistoryState(conversation, bytes)])
  }

  // --- reading -------------------------------------------------------------------------

  datatype Refusal = DoesNotOpen | NotTheVersionWritten

  predicate Accepts(record: State, name: Name, file: File) {
    || file.Plain?
    || (&& file.name == name && file.generation.Some?
        && file.generation.value in Acceptable(record, name))
  }

  function ReadFile(record: State, disk: Disk, name: Name): Result<Option<string>, Refusal> {
    if name !in disk.files then Ok(None)
    else if Accepts(record, name, disk.files[name]) then Ok(Some(disk.files[name].text))
    else if disk.files[name].name != name then Err(DoesNotOpen)
    else Err(NotTheVersionWritten)
  }

  /** A record the anchor bears out: at it, or one write ahead of it. */
  predicate Anchored(state: Option<State>, anchor: nat) {
    state.Some? && (state.value.generation == anchor || state.value.generation == anchor + 1)
  }

  /** The record an unlock finds, if it finds one. */
  function ReadGenerations(disk: Disk): Option<State> {
    if Anchored(disk.state, disk.anchor) then disk.state
    else if Anchored(disk.previous, disk.anchor) then disk.previous
    else None
  }

  // --- writing, step by step -------------------------------------------------------------

  datatype DiskStep =
    | PutFile(name: Name, file: File)
    | PutHistory(log: LogName, bytes: nat)
    | PutPrevious(state: State)
    | PutState(state: State)
    | PutAnchor(generation: nat)

  function Apply(disk: Disk, step: DiskStep): Disk {
    match step
    case PutFile(name, file) => disk.(files := disk.files[name := file])
    case PutHistory(log, bytes) => disk.(lengths := disk.lengths[log := bytes])
    case PutPrevious(state) => disk.(previous := Some(state))
    case PutState(state) => disk.(state := Some(state))
    case PutAnchor(generation) => disk.(anchor := generation)
  }

  function ApplyAll(disk: Disk, steps: seq<DiskStep>): Disk {
    if steps == [] then disk else Apply(ApplyAll(disk, steps[..|steps| - 1]), steps[|steps| - 1])
  }

  /** A whole-file write, or the write of a history log that is `bytes` long after
      it and has its length recorded. */
  datatype Op =
    | WriteFile(name: Name, text: string)
    | WriteHistory(log: LogName, conversation: string, bytes: nat)

  /** The record after a write. */
  function Next(record: State, op: Op): State {
    var at := record.generation + 1;
    match op
    case WriteFile(name, _) => Wrote(record, name, at).(generation := at)
    case WriteHistory(log, conversation, bytes) =>
      WroteHistory(record, log, conversation, bytes).(generation := at)
  }

  /** What a write puts in the directory itself. */
  function DataStep(record: State, op: Op): DiskStep {
    match op
    case WriteFile(name, text) => PutFile(name, Sealed(name, Some(record.generation + 1), text))
    case WriteHistory(log, _, bytes) => PutHistory(log, bytes)
  }

  function PersistSteps(disk: Disk, next: State): seq<DiskStep> {
    (if disk.state.Some? then [PutPrevious(disk.state.value)] else []) +
    [PutState(next), PutAnchor(next.generation)]
  }

  /** The data first, then the record before, the record, the anchor. */
  function Steps(record: State, disk: Disk, op: Op): seq<DiskStep> {
    [DataStep(record, op)] + PersistSteps(disk, Next(record, op))
  }

  // --- runs -------------------------------------------------------------------------------

  /** An unlocked directory. */
  datatype World = World(disk: Disk, record: State)

  /** A write of which `done` steps reached the disk; short of all four, a
      crash, and the unlock after it. */
  datatype Event = Event(op: Op, done: nat)

  predicate Completed(e: Event) {
    e.done >= 4
  }

  function Cut(steps: seq<DiskStep>, done: nat): seq<DiskStep> {
    steps[..if done <= |steps| then done else |steps|]
  }

  /** What one event leaves, unless its unlock finds no record it can accept. */
  function Step(w: World, e: Event): Option<World> {
    var disk := ApplyAll(w.disk, Cut(Steps(w.record, w.disk, e.op), e.done));
    if Completed(e) then Some(World(disk, Next(w.record, e.op)))
    else
      var record := ReadGenerations(disk);
      if record.None? then None else Some(World(disk, record.value))
  }

  function After(w: World, events: seq<Event>): Option<World> {
    if events == [] then Some(w)
    else
      var before := After(w, events[..|events| - 1]);
      if before.None? then None else Step(before.value, events[|events| - 1])
  }

  /** Settled: the record is on disk and anchored, and every sealed file is the
      one it records. */
  predicate Settled(w: World) {
    && w.disk.state == Some(w.record)
    && w.disk.anchor == w.record.generation
    && (forall name | name in w.record.files :: w.record.files[name] <= w.record.generation)
    && forall name | name in w.disk.files :: AtItsRecord(w, name)
  }

  predicate AtItsRecord(w: World, name: Name)
    requires name in w.disk.files
  {
    var file := w.disk.files[name];
    file.Plain? || (name in w.record.files && file.name == name && file.generation == Some(w.record.files[name]))
  }
}
