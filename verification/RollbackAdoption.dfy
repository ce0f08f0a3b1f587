/**
 Taking up generations (`store.rs`) in a directory that has none: every sealed file is
 rewritten at one and recorded, then the history logs are moved, and the anchor follows
 last. A crash leaves no anchor, and the next unlock starts over.
 */
module RollbackAdoption {
  import opened Wrappers
  import opened Rollback

  const FIRST := 1

  type Files = map<Name, File>

  // --- whole files ------------------------------------------------------------------------

  predicate Opens(files: Files, name: Name) {
    name in files ==> files[name].Plain? || files[name].name == name
  }

  predicate AllOpen(files: Files, names: seq<Name>) {
    forall name | name in names :: Opens(files, name)
  }

  function AdoptFile(file: File): File {
    if file.Sealed? && file.generation.None? then file.(generation := Some(FIRST)) else file
  }

  /** An adoption under way; `stopped` at a file that does not open. */
  datatype Adopting = Adopting(files: Files, record: State, stopped: bool)

  const STARTED := State(FIRST, true, map[], map[])

  /** The files in order, each read in either shape. */
  function AdoptFiles(files: Files, names: seq<Name>): Adopting {
    if names == [] then Adopting(files, STARTED, false)
    else
      var before, name := AdoptFiles(files, names[..|names| - 1]), names[|names| - 1];
      if before.stopped || name !in before.files || before.files[name].Plain? then before
      else if before.files[name].name != name then before.(stopped := true)
      else
        var file := AdoptFile(before.files[name]);
        var at, g := file.generation.value, before.record.generation;
        Adopting(before.files[name := file],
                 Wrote(before.record, name, at).(generation := if at > g then at else g), false)
  }

  /** What adoptions cut short leave, each after some of the names. */
  function AfterCuts(files: Files, names: seq<Name>, cuts: seq<nat>): Files {
    if cuts == [] then files
    else
      var before, k := AfterCuts(files, names, cuts[..|cuts| - 1]), cuts[|cuts| - 1];
      AdoptFiles(before, names[..if k < |names| then k else |names|]).files
  }

  /** Every file there before, as it was or adopted. */
  predicate PartAdopted(was: Files, now: Files) {
    && now.Keys == was.Keys
    && forall name | name in was :: now[name] == was[name] || now[name] == AdoptFile(was[name])
  }

  lemma {:induction false} AdoptFilesIs(files: Files, names: seq<Name>)
    ensures var r := AdoptFiles(files, names);
            && PartAdopted(files, r.files) && (r.stopped <==> !AllOpen(files, names))
            && r.record.generation >= FIRST && r.record.covers
            && (forall name | name in r.record.files ::
                  name in r.files && r.files[name].Sealed? && r.files[name].name == name &&
                  r.files[name].generation == Some(r.record.files[name]) && r.record.files[name] <= r.record.generation)
            && (!r.stopped ==>
                  forall name | name in names && name in files ::
                    && r.files[name] == AdoptFile(files[name])
                    && (files[name].Sealed? ==> name in r.record.files))
  {
    if names != [] {
      AdoptFilesIs(files, names[..|names| - 1]);
      OpenSnoc(files, names);
    }
  }

  lemma {:induction false} OpenSnoc(files: Files, names: seq<Name>)
    requires names != []
    ensures AllOpen(files, names) <==> AllOpen(files, names[..|names| - 1]) && Opens(files, names[|names| - 1])
    ensures forall name :: name in names <==> name in names[..|names| - 1] || name == names[|names| - 1]
  {
    assert names == names[..|names| - 1] + [names[|names| - 1]];
  }

  lemma {:induction false} CutsPartAdopt(files: Files, names: seq<Name>, cuts: seq<nat>)
    ensures PartAdopted(files, AfterCuts(files, names, cuts))
  {
    if cuts != [] {
      var before, k := AfterCuts(files, names, cuts[..|cuts| - 1]), cuts[|cuts| - 1];
      CutsPartAdopt(files, names, cuts[..|cuts| - 1]);
      AdoptFilesIs(before, names[..if k < |names| then k else |names|]);
    }
  }

  /** However many adoptions were cut short, and wherever, one is stopped in the files
      exactly where the first would have been: at one put under another's name. */
  lemma {:induction false} FilesStopIff(files: Files, names: seq<Name>, cuts: seq<nat>)
    ensures AdoptFiles(AfterCuts(files, names, cuts), names).stopped <==> !AllOpen(files, names)
  {
    var left := AfterCuts(files, names, cuts);
    CutsPartAdopt(files, names, cuts);
    AdoptFilesIs(left, names);
    assert forall name :: Opens(left, name) <==> Opens(files, name);
  }

  /** And one that finishes leaves what the first would have: the files the same, the
      directory settled under its record, and every file read as it was. */
  lemma {:induction false} AdoptionSettles(disk: Disk, names: seq<Name>, cuts: seq<nat>)
    requires AllOpen(disk.files, names) && forall name | name in disk.files :: name in names
    ensures var r := AdoptFiles(AfterCuts(disk.files, names, cuts), names);
            var adopted := disk.(files := r.files, state := Some(r.record), anchor := r.record.generation);
            && r.files == AdoptFiles(disk.files, names).files
            && Settled(World(adopted, r.record))
            && forall name | name in disk.files :: ReadFile(r.record, adopted, name) == Ok(Some(disk.files[name].text))
  {
    var left := AfterCuts(disk.files, names, cuts);
    CutsPartAdopt(disk.files, names, cuts);
    FilesStopIff(disk.files, names, cuts);
    var r := AdoptWhole(left, names);
    var first := AdoptWhole(disk.files, names);
    assert forall name | name in disk.files :: AdoptFile(left[name]) == AdoptFile(disk.files[name]);
    assert r.files == first.files;
    var adopted := disk.(files := r.files, state := Some(r.record), anchor := r.record.generation);
    forall name | name in disk.files
      ensures ReadFile(r.record, adopted, name) == Ok(Some(disk.files[name].text))
      ensures AtItsRecord(World(adopted, r.record), name)
    {
      assert adopted.files[name] == AdoptFile(disk.files[name]);
    }
  }

  /** An adoption of all there is. */
  lemma {:induction false} AdoptWhole(files: Files, names: seq<Name>) returns (r: Adopting)
    requires AllOpen(files, names) && forall name | name in files :: name in names
    ensures r == AdoptFiles(files, names)
    ensures r.files.Keys == files.Keys && forall name | name in files :: r.files[name] == AdoptFile(files[name])
    ensures forall name | name in files && files[name].Sealed? ::
              && name in r.record.files && files[name].name == name
              && AdoptFile(files[name]).generation == Some(r.record.files[name])
    ensures forall name | name in r.record.files :: r.record.files[name] <= r.record.generation
  {
    r := AdoptFiles(files, names);
    AdoptFilesIs(files, names);
    forall name | name in files ensures r.files[name] == AdoptFile(files[name]) && Opens(files, name) {
      assert name in names;
    }
  }

  // --- the loop itself ----------------------------------------------------------------------

  /** Every file rewritten where it has no generation, and recorded. */
  method AdoptEvery(files: Files, names: seq<Name>) returns (r: Adopting)
    ensures r == AdoptFiles(files, names)
  {
    var now, record := files, STARTED;
    for k := 0 to |names|
      invariant Adopting(now, record, false) == AdoptFiles(files, names[..k])
    {
      assert names[..k + 1][..k] == names[..k];
      var name := names[k];
      if name !in now || now[name].Plain? {
        continue;
      }
      if now[name].name != name {
        StoppedStays(files, names, k + 1);
        return Adopting(now, record, true);
      }
      var at := if now[name].generation.None? then FIRST else now[name].generation.value;
      if now[name].generation.None? {
        now := now[name := now[name].(generation := Some(at))];
      } else {
        assert now == now[name := now[name]];
      }
      record := Wrote(record, name, at).(generation := if at > record.generation then at else record.generation);
    }
    assert names[..|names|] == names;
    return Adopting(now, record, false);
  }

  lemma {:induction false} StoppedStays(files: Files, names: seq<Name>, k: nat)
    requires k <= |names| && AdoptFiles(files, names[..k]).stopped
    ensures AdoptFiles(files, names) == AdoptFiles(files, names[..k])
    decreases |names| - k
  {
    if k == |names| {
      assert names[..k] == names;
    } else {
      assert names[..k + 1][..k] == names[..k];
      assert AdoptFiles(files, names[..k + 1]) == AdoptFiles(files, names[..k]);
      StoppedStays(files, names, k + 1);
    }
  }
}
