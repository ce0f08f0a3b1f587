/** Which older copies of a file can be put back once writes were cut short. */
module RollbackCopies {
  import opened Wrappers
  import opened Rollback
  import opened RollbackTheorems

  /** How many events moved the record on. */
  function Raised(events: seq<Event>): nat {
    if events == [] then 0
    else
      var before := events[..|events| - 1];
      Raised(before) + if Raises(Lag(before), events[|events| - 1]) then 1 else 0
  }

  /** The last write of `name` that was recorded. */
  function LastRecorded(events: seq<Event>, name: Name): Option<nat> {
    if events == [] then None
    else
      var before, e := events[..|events| - 1], events[|events| - 1];
      if Writes(e, name) && Raises(Lag(before), e) then Some(|before|) else LastRecorded(before, name)
  }

  lemma {:induction false} LastRecordedIs(events: seq<Event>, name: Name)
    ensures LastRecorded(events, name).Some? ==> LastRecorded(events, name).value < |events|
  {
    if events != [] {
      LastRecordedIs(events[..|events| - 1], name);
    }
  }

  /** What the last event of a run did to the record and the files. */
  lemma {:induction false} RunStep(w: World, events: seq<Event>)
    requires Settled(w) && events != [] && After(w, events).Some?
    ensures var before, e := events[..|events| - 1], events[|events| - 1];
            && After(w, before).Some?
            && var was, now := After(w, before).value, After(w, events).value;
               && now.record == (if Raises(Lag(before), e) then Next(was.record, e.op) else was.record)
               && now.disk.files ==
                  (if e.done >= 1 && e.op.WriteFile?
                   then was.disk.files[e.op.name := Sealed(e.op.name, Some(was.record.generation + 1), e.op.text)]
                   else was.disk.files)
  {
    var was := RunBefore(w, events);
    StepLags(was, Lag(events[..|events| - 1]), events[|events| - 1]);
  }

  lemma {:induction false} RunBefore(w: World, events: seq<Event>) returns (was: World)
    requires Settled(w) && events != [] && After(w, events).Some?
    ensures var before, e := events[..|events| - 1], events[|events| - 1];
            After(w, before) == Some(was) && Lags(was, Lag(before)) && Step(was, e) == After(w, events)
  {
    UnlockAcceptsIff(w, events[..|events| - 1]);
    was := After(w, events[..|events| - 1]).value;
  }

  lemma {:induction false} RecordCounts(w: World, events: seq<Event>, name: Name)
    requires Settled(w) && After(w, events).Some?
    ensures var record := After(w, events).value.record;
            && record.generation == w.record.generation + Raised(events)
            && (LastRecorded(events, name).None? ==>
                  && (name in record.files <==> name in w.record.files)
                  && (name in record.files ==> record.files[name] == w.record.files[name]))
  {
    if events != [] {
      RunStep(w, events);
      RecordCounts(w, events[..|events| - 1], name);
    }
  }

  lemma {:induction false} RecordIsLastRecorded(w: World, events: seq<Event>, name: Name, j: nat)
    requires Settled(w) && After(w, events).Some? && LastRecorded(events, name) == Some(j)
    ensures var record := After(w, events).value.record;
            j < |events| && name in record.files && record.files[name] == w.record.generation + Raised(events[..j]) + 1
  {
    var before, e := events[..|events| - 1], events[|events| - 1];
    RunStep(w, events);
    LastRecordedIs(before, name);
    RecordCounts(w, before, name);
    assert events[..|before|] == before;
    if j < |before| {
      RecordIsLastRecorded(w, before, name, j);
      assert before[..j] == events[..j];
    }
  }

  /** The copy event `i` of a run with crashes put on disk. */
  function CrashCopy(w: World, events: seq<Event>, i: nat): File
    requires i < |events| && events[i].op.WriteFile?
  {
    Sealed(events[i].op.name, Some(w.record.generation + Raised(events[..i]) + 1), events[i].op.text)
  }

  lemma {:induction false} CrashCopyIsPut(w: World, events: seq<Event>)
    requires Settled(w) && events != [] && events[|events| - 1].op.WriteFile? && events[|events| - 1].done >= 1
    requires After(w, events).Some?
    ensures var e := events[|events| - 1];
            var files := After(w, events).value.disk.files;
            e.op.name in files && files[e.op.name] == CrashCopy(w, events, |events| - 1)
  {
    var before, e := events[..|events| - 1], events[|events| - 1];
    RunStep(w, events);
    RecordCounts(w, before, e.op.name);
  }

  /** A copy a run with crashes put on disk is accepted later if and only if nothing
      has been recorded since it was written, or nothing was from then until the
      last recorded write of its file, which took its generation. */
  lemma {:induction false} CrashCopyAcceptedIff(w: World, events: seq<Event>, i: nat)
    requires Settled(w) && After(w, events).Some? && i < |events| && events[i].op.WriteFile?
    ensures Accepts(After(w, events).value.record, events[i].op.name, CrashCopy(w, events, i)) <==>
            || Raised(events[..i]) == Raised(events)
            || (&& LastRecorded(events, events[i].op.name).Some?
                && LastRecorded(events, events[i].op.name).value < |events|
                && Raised(events[..i]) == Raised(events[..LastRecorded(events, events[i].op.name).value]))
  {
    var name := events[i].op.name;
    RecordCounts(w, events, name);
    LastRecordedIs(events, name);
    if LastRecorded(events, name).Some? {
      RecordIsLastRecorded(w, events, name, LastRecorded(events, name).value);
    }
  }

  /** So a write cut off before its record and the finished one after it share a
      generation, and the reader accepts either. */
  lemma {:induction false} CutCopyAcceptedToo(w: World, name: Name, first: string, second: string)
    requires Settled(w)
    ensures var events := [Event(WriteFile(name, first), 1), Event(WriteFile(name, second), 4)];
            && After(w, events).Some?
            && var record := After(w, events).value.record;
               Accepts(record, name, CrashCopy(w, events, 0)) && Accepts(record, name, CrashCopy(w, events, 1))
  {
    var a, b := Event(WriteFile(name, first), 1), Event(WriteFile(name, second), 4);
    var events := [a, b];
    assert [] + [a] == [a] && [a] + [b] == events && events[..1] == [a] && events[..0] == [];
    OneCrashRecovers(w, [], a);
    AfterSnoc(w, [a], b);
    OneMore([], a, name);
    OneMore([a], b, name);
    CrashCopyAcceptedIff(w, events, 0);
    CrashCopyAcceptedIff(w, events, 1);
  }

  lemma {:induction false} OneMore(events: seq<Event>, e: Event, name: Name)
    ensures Lag(events + [e]) == LagAfter(Lag(events), e)
    ensures Raised(events + [e]) == Raised(events) + if Raises(Lag(events), e) then 1 else 0
    ensures LastRecorded(events + [e], name) ==
            if Writes(e, name) && Raises(Lag(events), e) then Some(|events|) else LastRecorded(events, name)
  {
    assert (events + [e])[..|events|] == events;
  }
}
