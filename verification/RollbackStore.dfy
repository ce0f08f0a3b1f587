/** The directory's own operations (`store.rs`) over the files they replace. */
module RollbackStore {
  import opened Wrappers
  import Spec = Rollback
  import Theorems = RollbackTheorems
  import Adoption = RollbackAdoption
  import Binding = RollbackBinding
  import Logs = RollbackLogs

  /** The record, as unlocked: none kept, bound, or found unreadable. */
  datatype Generations = Unbound | Bound(state: Spec.State) | Unreadable

  /** Whether the directory is protected, and its key at hand. */
  datatype Protection = Unprotected | Locked | Unlocked

  datatype Failure = IsLocked | Refused | Encrypted | Reading(why: Spec.Refusal)

  function Lengths(logs: Logs.Logs): map<Spec.LogName, nat> {
    map log | log in logs :: |logs[log]|
  }

  class Directory {
    const ciphers: Logs.Ciphers
    var files: map<Spec.Name, Spec.File>
    var logs: Logs.Logs
    var stateFile: Option<Spec.State>
    var previousFile: Option<Spec.State>
    var anchor: nat
    var anchored: bool
    var generations: Generations
    var protection: Protection

    function Disk(): Spec.Disk
      reads this
    {
      Spec.Disk(files, Lengths(logs), stateFile, previousFile, anchor)
    }

    /** A directory some earlier program left, not unlocked yet; one from before
        generations carries no anchor. */
    constructor (disk: Spec.Disk, logs: Logs.Logs, ciphers: Logs.Ciphers, anchored: bool, isProtected: bool)
      requires disk.lengths == Lengths(logs)
      ensures Disk() == disk && this.logs == logs && this.ciphers == ciphers
      ensures this.anchored == anchored && generations == Unbound
      ensures protection == if isProtected then Locked else Unprotected
    {
      protection := if isProtected then Locked else Unprotected;
      this.ciphers, this.logs, files := ciphers, logs, disk.files;
      stateFile, previousFile, anchor := disk.state, disk.previous, disk.anchor;
      this.anchored, generations := anchored, Unbound;
    }

    /** `state`, or the version before it if the last write was cut short. */
    method ReadGenerations() returns (r: Option<Spec.State>)
      ensures r == Spec.ReadGenerations(Disk())
    {
      var candidates := [stateFile, previousFile];
      for k := 0 to 2
        invariant forall j | 0 <= j < k :: !Spec.Anchored(candidates[j], anchor)
      {
        if candidates[k].Some? &&
           (candidates[k].value.generation == anchor || candidates[k].value.generation == anchor + 1) {
          assert k == 1 ==> !Spec.Anchored(candidates[0], anchor);
          return candidates[k];
        }
      }
      assert !Spec.Anchored(candidates[0], anchor) && !Spec.Anchored(candidates[1], anchor);
      return None;
    }

    /** Give a directory its first generations: the files, then the logs, the anchor
        last; stopped at a file, or at a log's line, that does not open. */
    method AdoptGenerations(names: seq<Spec.Name>, listing: seq<Spec.LogName>) returns (r: Result<(), Failure>)
      modifies this
      ensures protection == old(protection)
      ensures r.Err? <==> Logs.Stops(ciphers, Logs.Directory(old(files), old(logs)), names, listing)
      ensures var adopted := Adoption.AdoptFiles(old(files), names);
              var moved := Logs.MoveLogs(ciphers, old(logs), listing);
              && files == adopted.files && logs == (if adopted.stopped then old(logs) else moved.logs)
              && (r.Err? ==>
                    && r == Err(Reading(Spec.DoesNotOpen)) && generations == old(generations)
                    && anchored == old(anchored)
                    && Disk() == old(Disk()).(files := files, lengths := Lengths(logs)))
              && (r.Ok? ==>
                    var disk := old(Disk()).(files := files, lengths := Lengths(logs));
                    var record := adopted.record.(history := moved.history);
                    && Disk() == Spec.ApplyAll(disk, Spec.PersistSteps(disk, record))
                    && generations == Bound(record) && anchored)
    {
      var adopted := Adoption.AdoptEvery(files, names);
      files := adopted.files;
      if adopted.stopped {
        return Err(Reading(Spec.DoesNotOpen));
      }
      var moved := Logs.MoveEvery(ciphers, logs, listing);
      logs := moved.logs;
      if moved.stopped {
        return Err(Reading(Spec.DoesNotOpen));
      }
      var record := adopted.record.(history := moved.history);
      PersistGenerations(record);
      generations := Bound(record);
      return Ok(());
    }

    /** Bring in the files the record did not cover when it was made; the record in hand
        is raised file by file, the one on disk at the end. */
    method BindUncovered(late: seq<Spec.Name>) returns (r: Result<(), Failure>)
      requires generations.Bound? && !generations.state.covers
      modifies this
      ensures protection == old(protection) && logs == old(logs)
      ensures var was, record := old(Disk()), old(generations).state;
              if Adoption.AllOpen(was.files, late) then
                && r == Ok(()) && Disk() == Binding.BindTo(was, record, late, Binding.Finished)
                && generations == Bound(Binding.Covering(was, record, late))
              else
                var bound := late[..Binding.OpenPrefix(was.files, late)];
                && r == Err(Reading(Spec.DoesNotOpen))
                && generations == Bound(Binding.BindFiles(was.files, record, bound).record)
                && Disk() == Binding.BindTo(was, record, late, Binding.Bound(|bound|))
    {
      ghost var was, record := Disk(), generations.state;
      var state := generations.state;
      for k := 0 to |late|
        invariant Binding.Binding(files, state) == Binding.BindFiles(was.files, record, late[..k])
        invariant Adoption.AllOpen(was.files, late[..k])
        invariant Disk() == was.(files := files) && generations == Bound(state) && protection == old(protection)
        invariant logs == old(logs)
      {
        var name := late[k];
        assert late[..k + 1][..k] == late[..k];
        Binding.BindFilesIs(was.files, record, late[..k]);
        if name in files && files[name].Sealed? {
          if files[name].name != name {
            Binding.OpenPrefixIs(was.files, late, k);
            return Err(Reading(Spec.DoesNotOpen));
          }
          var at := state.generation + 1;
          files := files[name := Spec.Sealed(name, Some(at), files[name].text)];
          state := Spec.Wrote(state, name, at).(generation := at);
          generations := Bound(state);
        }
        Adoption.OpenSnoc(was.files, late[..k + 1]);
      }
      assert late[..|late|] == late;
      state := state.(covers := true);
      PersistOf(Disk(), state);
      PersistGenerations(state);
      generations := Bound(state);
      return Ok(());
    }

    /** Unlock: take up the record, or refuse everything from here on; a directory with
        no anchor is given one, and a record that does not cover `late` is made to. */
    method LoadGenerations(names: seq<Spec.Name>, late: seq<Spec.Name>, listing: seq<Spec.LogName>)
      returns (r: Result<(), Failure>)
      modifies this
      ensures protection == Unlocked
      ensures !old(anchored) ==>
                var adopted := Adoption.AdoptFiles(old(files), names);
                var moved := Logs.MoveLogs(ciphers, old(logs), listing);
                && (r.Err? <==> Logs.Stops(ciphers, Logs.Directory(old(files), old(logs)), names, listing))
                && (r.Err? ==> generations == old(generations) && !anchored && files == adopted.files)
                && (r.Ok? ==>
                      var disk := old(Disk()).(files := adopted.files, lengths := Lengths(moved.logs));
                      var record := adopted.record.(history := moved.history);
                      && generations == Bound(record) && logs == moved.logs
                      && Disk() == Spec.ApplyAll(disk, Spec.PersistSteps(disk, record)))
      ensures old(anchored) ==>
                logs == old(logs) &&
                match Spec.ReadGenerations(old(Disk()))
                case None => r == Ok(()) && generations == Unreadable && Disk() == old(Disk())
                case Some(record) =>
                  if record.covers then r == Ok(()) && generations == Bound(record) && Disk() == old(Disk())
                  else
                    && (r.Ok? <==> Adoption.AllOpen(old(files), late))
                    && (r.Err? ==>
                          var bound := late[..Binding.OpenPrefix(old(files), late)];
                          && generations == Bound(Binding.BindFiles(old(files), record, bound).record)
                          && Disk() == Binding.BindTo(old(Disk()), record, late, Binding.Bound(|bound|)))
                    && (r.Ok? ==> generations == Bound(Binding.Covering(old(Disk()), record, late)) &&
                                  Disk() == Binding.BindTo(old(Disk()), record, late, Binding.Finished))
    {
      protection := Unlocked;
      if !anchored {
        r := AdoptGenerations(names, listing);
        return;
      }
      var found := ReadGenerations();
      match found {
        case None =>
          generations := Unreadable;
          return Ok(());
        case Some(state) =>
          generations := Bound(state);
          if !state.covers {
            r := BindUncovered(late);
          } else {
            r := Ok(());
          }
      }
    }

    /** The record before, the record, the anchor, in that order. */
    method PersistGenerations(state: Spec.State)
      modifies this`stateFile, this`previousFile, this`anchor, this`anchored
      ensures anchored && Disk() == Spec.ApplyAll(old(Disk()), Spec.PersistSteps(old(Disk()), state))
    {
      PersistOf(Disk(), state);
      if stateFile.Some? {
        previousFile := stateFile;
      }
      stateFile := Some(state);
      anchor, anchored := state.generation, true;
    }

    /** Why nothing may be written or read just now, if that is so. */
    function Refusal(): Option<Failure>
      reads this
    {
      if protection.Locked? then Some(IsLocked)
      else if protection.Unlocked? && generations.Unreadable? then Some(Refused)
      else None
    }

    /** Write a file whole: as it is where nothing is protected, sealed under its
        name where no generations are kept, and otherwise at the next generation,
        recorded. Nothing, where the directory is locked or its record unreadable. */
    method WriteFile(name: Spec.Name, text: string) returns (r: Result<(), Failure>)
      modifies this
      ensures protection == old(protection)
      ensures old(Refusal()).Some? ==>
                r == Err(old(Refusal()).value) && Disk() == old(Disk()) && generations == old(generations)
      ensures old(Refusal()).None? ==>
                && r == Ok(())
                && (protection.Unlocked? && old(generations).Bound? ==>
                      var record, op := old(generations).state, Spec.WriteFile(name, text);
                      && Disk() == Spec.ApplyAll(old(Disk()), Spec.Steps(record, old(Disk()), op))
                      && generations == Bound(Spec.Next(record, op)))
                && (!(protection.Unlocked? && old(generations).Bound?) ==>
                      var file := if protection.Unprotected? then Spec.Plain(text) else Spec.Sealed(name, None, text);
                      && Disk() == Spec.Apply(old(Disk()), Spec.PutFile(name, file))
                      && generations == old(generations))
    {
      if protection.Locked? {
        return Err(IsLocked);
      }
      if protection.Unprotected? {
        files := files[name := Spec.Plain(text)];
        return Ok(());
      }
      if generations.Unreadable? {
        return Err(Refused);
      }
      if generations.Unbound? {
        files := files[name := Spec.Sealed(name, None, text)];
        return Ok(());
      }
      ghost var before := Disk();
      var state := generations.state;
      var at := state.generation + 1;
      files := files[name := Spec.Sealed(name, Some(at), text)];
      state := Spec.Wrote(state, name, at).(generation := at);
      PersistGenerations(state);
      generations := Bound(state);
      StepsOf(before, old(generations).state, Spec.WriteFile(name, text));
      return Ok(());
    }

    /** Record a history file's length, counted from the file itself, where
        generations are kept. */
    method NoteHistoryWrite(log: Spec.LogName, conversation: string)
      modifies this
      ensures protection == old(protection)
      ensures !(protection.Unlocked? && old(generations).Bound?) ==>
                Disk() == old(Disk()) && generations == old(generations)
      ensures protection.Unlocked? && old(generations).Bound? ==>
                var bytes := if log in old(logs) then |old(logs)[log]| else 0;
                var next := Spec.Next(old(generations).state, Spec.WriteHistory(log, conversation, bytes));
                && Disk() == Spec.ApplyAll(old(Disk()), Spec.PersistSteps(old(Disk()), next))
                && generations == Bound(next)
    {
      if !protection.Unlocked? || !generations.Bound? {
        return;
      }
      var bytes := if log in logs then |logs[log]| else 0;
      var state := Spec.WroteHistory(generations.state, log, conversation, bytes);
      state := state.(generation := state.generation + 1);
      PersistGenerations(state);
      generations := Bound(state);
    }

    /** A file's contents. A plain file is read as it is, a sealed one only under
        its own name and, where generations are kept, only as the copy the record
        says was written. */
    method ReadFile(name: Spec.Name) returns (r: Result<Option<string>, Failure>)
      ensures protection.Locked? ==> r == Err(IsLocked)
      ensures !protection.Locked? && name !in files ==> r == Ok(None)
      ensures !protection.Locked? && name in files && files[name].Plain? ==> r == Ok(Some(files[name].text))
      ensures !protection.Locked? && name in files && files[name].Sealed? ==>
                r == (if protection.Unprotected? then Err(Encrypted)
                      else if generations.Unreadable? then Err(Refused)
                      else if files[name].name != name then Err(Reading(Spec.DoesNotOpen))
                      else if generations.Bound? && !Spec.Accepts(generations.state, name, files[name])
                      then Err(Reading(Spec.NotTheVersionWritten))
                      else Ok(Some(files[name].text)))
      ensures protection.Unlocked? && generations.Bound? ==>
                r == (match Spec.ReadFile(generations.state, Disk(), name)
                      case Ok(text) => Ok(text)
                      case Err(why) => Err(Reading(why)))
    {
      if protection.Locked? {
        return Err(IsLocked);
      }
      if name !in files {
        return Ok(None);
      }
      var file := files[name];
      if file.Plain? {
        return Ok(Some(file.text));
      }
      if protection.Unprotected? {
        return Err(Encrypted);
      }
      if generations.Unreadable? {
        return Err(Refused);
      }
      if file.name != name {
        return Err(Reading(Spec.DoesNotOpen));
      }
      if generations.Bound? {
        var acceptable := Spec.Acceptable(generations.state, name);
        if file.generation.None? || file.generation.value !in acceptable {
          return Err(Reading(Spec.NotTheVersionWritten));
        }
      }
      return Ok(Some(file.text));
    }
  }

  lemma {:induction false} PersistOf(disk: Spec.Disk, state: Spec.State)
    ensures Spec.ApplyAll(disk, Spec.PersistSteps(disk, state)) ==
            disk.(previous := if disk.state.Some? then disk.state else disk.previous,
                  state := Some(state), anchor := state.generation)
  {
    var first := if disk.state.Some? then [Spec.PutPrevious(disk.state.value)] else [];
    var s, a := Spec.PutState(state), Spec.PutAnchor(state.generation);
    assert Spec.PersistSteps(disk, state) == (first + [s]) + [a];
    assert disk.state.Some? ==> first == [] + first;
    assert disk.state.Some? ==> Spec.ApplyAll(disk, first) == disk.(previous := disk.state) by {
      if disk.state.Some? {
        Theorems.ApplyAllSnoc(disk, [], first[0]);
      }
    }
    Theorems.ApplyAllSnoc(disk, first, s);
    Theorems.ApplyAllSnoc(disk, first + [s], a);
  }

  lemma {:induction false} StepsOf(disk: Spec.Disk, record: Spec.State, op: Spec.Op)
    ensures Spec.ApplyAll(disk, Spec.Steps(record, disk, op)) ==
            var data := Spec.Apply(disk, Spec.DataStep(record, op));
            Spec.ApplyAll(data, Spec.PersistSteps(data, Spec.Next(record, op)))
  {
    var data := Spec.Apply(disk, Spec.DataStep(record, op));
    var steps := Spec.PersistSteps(disk, Spec.Next(record, op));
    assert Spec.PersistSteps(data, Spec.Next(record, op)) == steps;
    ApplyAllCons(disk, Spec.DataStep(record, op), steps);
  }

  lemma {:induction false} ApplyAllCons(disk: Spec.Disk, first: Spec.DiskStep, steps: seq<Spec.DiskStep>)
    ensures Spec.ApplyAll(disk, [first] + steps) == Spec.ApplyAll(Spec.Apply(disk, first), steps)
    decreases |steps|
  {
    if steps == [] {
      assert [first] + steps == [] + [first];
      Theorems.ApplyAllSnoc(disk, [], first);
    } else {
      var init, last := steps[..|steps| - 1], steps[|steps| - 1];
      ApplyAllCons(disk, first, init);
      assert [first] + steps == ([first] + init) + [last];
      Theorems.ApplyAllSnoc(disk, [first] + init, last);
    }
  }
}
