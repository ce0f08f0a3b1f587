/** What the generations promise, over every run and every crash. */
module RollbackTheorems {
  import opened Wrappers
  import opened Rollback

  // --- runs without a crash ---------------------------------------------------------------------

  predicate CrashFree(events: seq<Event>) {
    forall e | e in events :: Completed(e)
  }

  lemma {:induction false} CutAt(w: World, e: Event)
    requires w.disk.state.Some?
    ensures var steps := Steps(w.record, w.disk, e.op);
            var next := Next(w.record, e.op);
            var data := Apply(w.disk, DataStep(w.record, e.op));
            var cut := ApplyAll(w.disk, Cut(steps, e.done));
            && (e.done == 0 ==> cut == w.disk)
            && (e.done == 1 ==> cut == data)
            && (e.done == 2 ==> cut == data.(previous := w.disk.state))
            && (e.done == 3 ==> cut == data.(previous := w.disk.state, state := Some(next)))
            && (e.done >= 4 ==> cut == data.(previous := w.disk.state, state := Some(next), anchor := next.generation))
  {
    var steps := Steps(w.record, w.disk, e.op);
    var d, p := DataStep(w.record, e.op), PutPrevious(w.disk.state.value);
    var s, a := PutState(Next(w.record, e.op)), PutAnchor(Next(w.record, e.op).generation);
    assert steps == [d, p, s, a];
    assert Cut(steps, 0) == [];
    assert Cut(steps, 1) == [d];
    assert Cut(steps, 2) == [d, p];
    assert Cut(steps, 3) == [d, p, s];
    assert e.done >= 4 ==> Cut(steps, e.done) == [d, p, s, a];
    assert [] + [d] == [d] && [d] + [p] == [d, p] && [d, p] + [s] == [d, p, s] && [d, p, s] + [a] == [d, p, s, a];
    ApplyAllSnoc(w.disk, [], d);
    ApplyAllSnoc(w.disk, [d], p);
    ApplyAllSnoc(w.disk, [d, p], s);
    ApplyAllSnoc(w.disk, [d, p, s], a);
  }

  lemma {:induction false} ApplyAllSnoc(disk: Disk, steps: seq<DiskStep>, step: DiskStep)
    ensures ApplyAll(disk, steps + [step]) == Apply(ApplyAll(disk, steps), step)
  {
    assert (steps + [step])[..|steps|] == steps;
  }

  lemma {:induction false} AfterSnoc(w: World, events: seq<Event>, e: Event)
    ensures After(w, events + [e]) ==
            if After(w, events).None? then None else Step(After(w, events).value, e)
  {
    assert (events + [e])[..|events|] == events;
  }

  /** The record's generation counts the writes, and the directory stays settled. */
  lemma {:induction false} CrashFreeSettled(w: World, events: seq<Event>)
    requires Settled(w) && CrashFree(events)
    ensures After(w, events).Some? && Settled(After(w, events).value)
    ensures After(w, events).value.record.generation == w.record.generation + |events|
  {
    if events != [] {
      var before, e := events[..|events| - 1], events[|events| - 1];
      assert e in events;
      CrashFreeSettled(w, before);
      CutAt(After(w, before).value, e);
    }
  }

  predicate Writes(e: Event, name: Name) {
    e.op.WriteFile? && e.op.name == name
  }

  /** The last event that wrote `name`. */
  function LastWrite(events: seq<Event>, name: Name): Option<nat> {
    if events == [] then None
    else if Writes(events[|events| - 1], name) then Some(|events| - 1)
    else LastWrite(events[..|events| - 1], name)
  }

  lemma {:induction false} LastWriteIs(events: seq<Event>, name: Name)
    ensures var last := LastWrite(events, name);
            match last
            case None => forall k | 0 <= k < |events| :: !Writes(events[k], name)
            case Some(i) => i < |events| && Writes(events[i], name) &&
                            forall k | i < k < |events| :: !Writes(events[k], name)
  {
    if events != [] {
      LastWriteIs(events[..|events| - 1], name);
    }
  }

  /** Each file's record is the generation of the last write of it. */
  lemma {:induction false} RecordIsLastWrite(w: World, events: seq<Event>, name: Name)
    requires Settled(w) && CrashFree(events)
    ensures After(w, events).Some?
    ensures var record := After(w, events).value.record;
            match LastWrite(events, name)
            case Some(i) => name in record.files && record.files[name] == w.record.generation + i + 1
            case None => (name in record.files <==> name in w.record.files) &&
                         (name in record.files ==> record.files[name] == w.record.files[name])
  {
    CrashFreeSettled(w, events);
    if events != [] {
      var before, e := events[..|events| - 1], events[|events| - 1];
      assert e in events;
      RecordIsLastWrite(w, before, name);
      CrashFreeSettled(w, before);
    }
  }

  /** The conversation and the length of the last write of a log. */
  function LastLog(events: seq<Event>, log: LogName): Option<HistoryState> {
    if events == [] then None
    else
      var op := events[|events| - 1].op;
      if op.WriteHistory? && op.log == log then Some(HistoryState(op.conversation, op.bytes))
      else LastLog(events[..|events| - 1], log)
  }

  /** Each log's record is the conversation and the length of the last write of
      it, which is the length the file has; one not written keeps its record. */
  lemma {:induction false} HistoryRecordIsLastWrite(w: World, events: seq<Event>, log: LogName)
    requires Settled(w) && CrashFree(events)
    ensures After(w, events).Some?
    ensures var now := After(w, events).value;
            match LastLog(events, log)
            case Some(written) =>
              && log in now.record.history && now.record.history[log] == written
              && log in now.disk.lengths && now.disk.lengths[log] == written.bytes
            case None =>
              && (log in now.record.history <==> log in w.record.history)
              && (log in now.record.history ==> now.record.history[log] == w.record.history[log])
  {
    CrashFreeSettled(w, events);
    if events != [] {
      var before, e := events[..|events| - 1], events[|events| - 1];
      assert e in events;
      HistoryRecordIsLastWrite(w, before, log);
      CrashFreeSettled(w, before);
      CutAt(After(w, before).value, e);
    }
  }

  /** The copy of its file that event `i` of a run wrote. */
  function CopyAt(w: World, events: seq<Event>, i: nat): File
    requires i < |events| && events[i].op.WriteFile?
  {
    Sealed(events[i].op.name, Some(w.record.generation + i + 1), events[i].op.text)
  }

  /** Of all the copies of a file a crash-free run wrote, the reader accepts the
      last and no other. */
  lemma {:induction false} OnlyLastCopyAccepted(w: World, events: seq<Event>, i: nat)
    requires Settled(w) && CrashFree(events) && i < |events| && events[i].op.WriteFile?
    ensures After(w, events).Some?
    ensures Accepts(After(w, events).value.record, events[i].op.name, CopyAt(w, events, i)) <==>
            LastWrite(events, events[i].op.name) == Some(i)
  {
    var name := events[i].op.name;
    CrashFreeSettled(w, events);
    RecordIsLastWrite(w, events, name);
    LastWriteIs(events, name);
    assert Writes(events[i], name);
  }

  /** And what it reads is what that last write wrote. */
  lemma {:induction false} ReadsLastWrite(w: World, events: seq<Event>, name: Name)
    requires Settled(w) && CrashFree(events)
    ensures After(w, events).Some?
    ensures var now := After(w, events).value;
            ReadFile(now.record, now.disk, name) ==
            match LastWrite(events, name)
            case Some(i) => (LastWriteIs(events, name); Ok(Some(events[i].op.text)))
            case None => ReadFile(w.record, w.disk, name)
  {
    LastWriteIs(events, name);
    CrashFreeSettled(w, events);
    if events != [] {
      var before, e := events[..|events| - 1], events[|events| - 1];
      assert e in events;
      LastWriteIs(before, name);
      ReadsLastWrite(w, before, name);
      CrashFreeSettled(w, before);
      ReadsWrite(After(w, before).value, After(w, events).value, e, name);
    }
  }

  lemma {:induction false} ReadsWrite(was: World, now: World, e: Event, name: Name)
    requires Settled(was) && Settled(now) && Completed(e) && Step(was, e) == Some(now)
    ensures ReadFile(now.record, now.disk, name) ==
            if Writes(e, name) then Ok(Some(e.op.text)) else ReadFile(was.record, was.disk, name)
  {
    CutAt(was, e);
    if !Writes(e, name) {
      ReadUnmoved(was, now, name);
    }
  }

  lemma {:induction false} ReadUnmoved(was: World, now: World, name: Name)
    requires Settled(was) && Settled(now)
    requires name in was.disk.files <==> name in now.disk.files
    requires name in was.disk.files ==> was.disk.files[name] == now.disk.files[name]
    ensures ReadFile(was.record, was.disk, name) == ReadFile(now.record, now.disk, name)
  {
    if name in was.disk.files {
      assert AtItsRecord(was, name) && AtItsRecord(now, name);
    }
  }

  /** The generation a file's record holds after a crash-free run. */
  function RecordedAt(w: World, events: seq<Event>, name: Name): Option<nat> {
    match LastWrite(events, name)
    case Some(i) => Some(w.record.generation + i + 1)
    case None => if name in w.record.files then Some(w.record.files[name]) else None
  }

  /** Every file there could be: after a crash-free run one is accepted in place of
      `name` if and only if it is not encrypted at all, or is sealed as `name` at
      the generation of its last write or at the one no write has reached yet. */
  lemma {:induction false} CopyAcceptedIff(w: World, events: seq<Event>, name: Name, file: File)
    requires Settled(w) && CrashFree(events)
    ensures After(w, events).Some?
    ensures Accepts(After(w, events).value.record, name, file) <==>
            || file.Plain?
            || (&& file.name == name && file.generation.Some?
                && (|| file.generation == RecordedAt(w, events, name)
                    || file.generation.value == w.record.generation + |events| + 1))
  {
    CrashFreeSettled(w, events);
    RecordIsLastWrite(w, events, name);
  }

  /** So the generations say nothing of a file in the clear: put in place of any
      file, at any point, it is read. */
  lemma {:induction false} PlainCopyRead(w: World, events: seq<Event>, name: Name, text: string)
    requires Settled(w) && CrashFree(events)
    ensures After(w, events).Some?
    ensures var now := After(w, events).value;
            ReadFile(now.record, now.disk.(files := now.disk.files[name := Plain(text)]), name) == Ok(Some(text))
  {
    CopyAcceptedIff(w, events, name, Plain(text));
  }

  /** The records a run wrote: put any two of them back as `state` and
      `state.prev`, and an unlock accepts exactly the current one. */
  lemma {:induction false} OlderRecordRefused(w: World, events: seq<Event>, i: nat, j: nat)
    requires Settled(w) && CrashFree(events) && i <= |events| && j <= |events|
    ensures CrashFree(events[..i]) && CrashFree(events[..j])
    ensures After(w, events).Some? && After(w, events[..i]).Some? && After(w, events[..j]).Some?
    ensures var now := After(w, events).value;
            var put := now.disk.(state := Some(After(w, events[..i]).value.record),
                                 previous := Some(After(w, events[..j]).value.record));
            ReadGenerations(put) == if i == |events| || j == |events| then Some(now.record) else None
  {
    assert CrashFree(events[..i]) && CrashFree(events[..j]);
    CrashFreeSettled(w, events);
    CrashFreeSettled(w, events[..i]);
    CrashFreeSettled(w, events[..j]);
    assert events[..|events|] == events;
  }

  // --- runs with crashes: does the unlock find a record? ----------------------------------------

  /** How many records have reached the disk since the anchor last followed one. */
  function Lag(events: seq<Event>): nat {
    if events == [] then 0
    else
      var before, e := Lag(events[..|events| - 1]), events[|events| - 1];
      if Completed(e) then 0 else if e.done == 3 then before + 1 else before
  }

  /** What is on disk, by how far the anchor lags. */
  predicate Lags(w: World, lag: nat) {
    var g := w.record.generation;
    match lag
    case 0 => w.disk.state == Some(w.record) && w.disk.anchor == g
    case 1 => w.disk.state == Some(w.record) && w.disk.anchor == g - 1
    case _ =>
      && lag == 2 && w.disk.anchor == g - 1 && w.disk.previous == Some(w.record)
      && w.disk.state.Some? && w.disk.state.value.generation == g + 1
  }

  /** Whether an event moves the record on. */
  predicate Raises(lag: nat, e: Event) {
    Completed(e) || (e.done == 3 && lag == 0)
  }

  /** The crash no unlock recovers from: a third write in a row that has replaced
      `state.prev` and not yet moved the anchor. */
  predicate Strands(lag: nat, e: Event) {
    lag == 2 && 2 <= e.done < 4
  }

  function LagAfter(lag: nat, e: Event): nat {
    if Completed(e) then 0 else if e.done == 3 then lag + 1 else lag
  }

  lemma {:induction false} StepLags(w: World, lag: nat, e: Event)
    requires Lags(w, lag)
    ensures Step(w, e).None? <==> Strands(lag, e)
    ensures Step(w, e).Some? ==>
              && Lags(Step(w, e).value, LagAfter(lag, e))
              && Step(w, e).value.record == (if Raises(lag, e) then Next(w.record, e.op) else w.record)
              && Step(w, e).value.disk.files ==
                 (if e.done >= 1 && e.op.WriteFile?
                  then w.disk.files[e.op.name := Sealed(e.op.name, Some(w.record.generation + 1), e.op.text)]
                  else w.disk.files)
  {
    CutAt(w, e);
    assert Next(w.record, e.op).generation == w.record.generation + 1;
  }

  /** No write of the run strands the directory. */
  predicate NeverStrands(events: seq<Event>) {
    forall k | 0 <= k < |events| :: !Strands(Lag(events[..k]), events[k])
  }

  lemma {:induction false} NeverStrandsSnoc(events: seq<Event>)
    requires events != []
    ensures NeverStrands(events) <==>
            NeverStrands(events[..|events| - 1]) && !Strands(Lag(events[..|events| - 1]), events[|events| - 1])
  {
    var before := events[..|events| - 1];
    forall k | 0 <= k < |before| ensures before[..k] == events[..k] && before[k] == events[k] {
    }
  }

  /** Over every run and every crash: each unlock finds a record exactly when no
      crash strands the directory, which takes two crashes between a record and
      its anchor and a third past `state.prev`, with no write finished between. */
  lemma {:induction false} UnlockAcceptsIff(w: World, events: seq<Event>)
    requires Settled(w)
    ensures After(w, events).Some? <==> NeverStrands(events)
    ensures After(w, events).Some? ==> Lags(After(w, events).value, Lag(events))
  {
    if events != [] {
      UnlockAcceptsIff(w, events[..|events| - 1]);
      NeverStrandsSnoc(events);
      var before := After(w, events[..|events| - 1]);
      if before.Some? {
        StepLags(before.value, Lag(events[..|events| - 1]), events[|events| - 1]);
      }
    }
  }

  /** One crash never does. */
  lemma {:induction false} OneCrashRecovers(w: World, events: seq<Event>, e: Event)
    requires Settled(w) && CrashFree(events)
    ensures After(w, events + [e]).Some?
  {
    CrashFreeSettled(w, events);
    AfterSnoc(w, events, e);
    StepLags(After(w, events).value, 0, e);
  }

  /** Three do, whatever they were writing. */
  lemma {:induction false} ThreeCrashesStrand(w: World, a: Op, b: Op, c: Op)
    requires Settled(w)
    ensures After(w, [Event(a, 3), Event(b, 3), Event(c, 2)]).None?
  {
    var events := [Event(a, 3), Event(b, 3), Event(c, 2)];
    UnlockAcceptsIff(w, events);
    assert events[..1] == [Event(a, 3)] && events[..2] == [Event(a, 3), Event(b, 3)];
    assert Lag(events[..1]) == 1;
    assert events[..2][..1] == events[..1];
    assert Strands(Lag(events[..2]), events[2]);
  }

  // --- runs with crashes: which files can be read? ------------------------------------------------

  predicate Touches(e: Event, name: Name) {
    Writes(e, name) && e.done >= 1
  }

  /** Whether `name` can be read after a run: what last reached its file was
      recorded, or nothing has been recorded since. */
  predicate Kept(events: seq<Event>, name: Name) {
    if events == [] then true
    else
      var before, e := events[..|events| - 1], events[|events| - 1];
      if Touches(e, name) then true
      else if Raises(Lag(before), e) then Kept(before, name) && !InFlight(before, name)
      else Kept(before, name)
  }

  /** What last reached the file of `name` has not been recorded. */
  predicate InFlight(events: seq<Event>, name: Name) {
    events != [] &&
    var before, e := events[..|events| - 1], events[|events| - 1];
    if Touches(e, name) then !Raises(Lag(before), e) else InFlight(before, name)
  }

  /** Where a file stands against the record. */
  predicate Stands(w: World, name: Name, kept: bool, inFlight: bool) {
    && (name in w.record.files ==> w.record.files[name] <= w.record.generation)
    && (name in w.disk.files && w.disk.files[name].Sealed? ==>
          var file := w.disk.files[name];
          && file.name == name && file.generation.Some?
          && file.generation.value <= w.record.generation + 1
          && (inFlight && kept ==> file.generation.value == w.record.generation + 1)
          && (!inFlight ==> name in w.record.files && file.generation.value == w.record.files[name])
          && (!kept ==> file.generation.value <= w.record.generation)
          && (inFlight && name in w.record.files ==> w.record.files[name] < file.generation.value))
    && (!kept ==> inFlight)
    && (inFlight ==> name in w.disk.files && w.disk.files[name].Sealed?)
  }

  lemma {:induction false} StandsStep(w: World, lag: nat, e: Event, name: Name, kept: bool, inFlight: bool)
    requires Lags(w, lag) && Stands(w, name, kept, inFlight) && Step(w, e).Some?
    ensures var raises := Raises(lag, e);
            var kept' := Touches(e, name) || (kept && !(raises && inFlight));
            var inFlight' := if Touches(e, name) then !raises else inFlight;
            Stands(Step(w, e).value, name, kept', inFlight')
  {
    StepLags(w, lag, e);
  }

  lemma {:induction false} RunStands(w: World, events: seq<Event>, name: Name)
    requires Settled(w) && After(w, events).Some?
    ensures Stands(After(w, events).value, name, Kept(events, name), InFlight(events, name))
  {
    if events == [] {
      if name in w.disk.files {
        assert AtItsRecord(w, name);
      }
    } else {
      var before, e := events[..|events| - 1], events[|events| - 1];
      RunStands(w, before, name);
      UnlockAcceptsIff(w, before);
      StandsStep(After(w, before).value, Lag(before), e, name, Kept(before, name), InFlight(before, name));
    }
  }

  /** After any run with any crashes, a file can be read exactly when what last
      reached it was recorded or nothing has been recorded since. */
  lemma {:induction false} ReadableIff(w: World, events: seq<Event>, name: Name)
    requires Settled(w) && After(w, events).Some?
    ensures var now := After(w, events).value;
            ReadFile(now.record, now.disk, name).Ok? <==> Kept(events, name)
  {
    RunStands(w, events, name);
  }

  /** One crash at any step of any write: at the unlock after it every file is
      readable, the half-written one included. */
  lemma {:induction false} CrashKeepsEveryFile(w: World, events: seq<Event>, e: Event, name: Name)
    requires Settled(w) && CrashFree(events)
    ensures After(w, events + [e]).Some?
    ensures var now := After(w, events + [e]).value;
            ReadFile(now.record, now.disk, name).Ok?
  {
    OneCrashRecovers(w, events, e);
    CrashFreeKept(events, name);
    assert (events + [e])[..|events|] == events;
    ReadableIff(w, events + [e], name);
  }

  lemma {:induction false} CrashFreeKept(events: seq<Event>, name: Name)
    requires CrashFree(events)
    ensures Kept(events, name) && !InFlight(events, name)
  {
    if events != [] {
      assert events[|events| - 1] in events;
      CrashFreeKept(events[..|events| - 1], name);
    }
  }

  /** The promise ends there: after a write of `name` a crash cut off before its
      record, and finished writes `later`, `name` can be read exactly when there
      were none or one of them wrote it again. */
  lemma {:induction false} HalfRecordedReadableIff(w: World, name: Name, text: string, later: seq<Event>)
    requires Settled(w) && CrashFree(later)
    ensures var events := [Event(WriteFile(name, text), 1)] + later;
            && After(w, events).Some?
            && var now := After(w, events).value;
               ReadFile(now.record, now.disk, name).Ok? <==> later == [] || LastWrite(later, name).Some?
  {
    var crash := Event(WriteFile(name, text), 1);
    HalfRecordedKept(crash, later, name);
    HalfRecordedAccepted(w, crash, later);
    ReadableIff(w, [crash] + later, name);
  }

  lemma {:induction false} HalfRecordedAccepted(w: World, crash: Event, later: seq<Event>)
    requires Settled(w) && crash.done == 1 && CrashFree(later)
    ensures After(w, [crash] + later).Some?
    decreases |later|
  {
    if later == [] {
      OneCrashRecovers(w, [], crash);
      assert [crash] + later == [] + [crash];
    } else {
      var before, e := later[..|later| - 1], later[|later| - 1];
      HalfRecordedAccepted(w, crash, before);
      assert e in later;
      assert [crash] + later == ([crash] + before) + [e];
      AfterSnoc(w, [crash] + before, e);
    }
  }

  lemma {:induction false} HalfRecordedKept(crash: Event, later: seq<Event>, name: Name)
    requires Touches(crash, name) && crash.done == 1 && CrashFree(later)
    ensures var events := [crash] + later;
            && (Kept(events, name) <==> later == [] || LastWrite(later, name).Some?)
            && (InFlight(events, name) <==> LastWrite(later, name).None?)
    decreases |later|
  {
    var events := [crash] + later;
    if later == [] {
      assert events == [crash];
    } else {
      var before, e := later[..|later| - 1], later[|later| - 1];
      assert e in later;
      HalfRecordedKept(crash, before, name);
      assert events[..|events| - 1] == [crash] + before;
    }
  }
}
