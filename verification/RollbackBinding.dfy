/**
 Bringing files into a record made before it covered them (`store.rs`, `bind_uncovered`):
 at an unlock each is rewritten at the next generation, and the record follows once for
 all of them. A crash before the record is to leave the next unlock to do it again.
 */
module RollbackBinding {
  import opened Wrappers
  import opened Rollback
  import opened RollbackAdoption

  // --- one unlock -------------------------------------------------------------------------

  /** Files bound so far, and the record as it will be. */
  datatype Binding = Binding(files: Files, record: State)

  predicate IsSealed(files: Files, name: Name) {
    name in files && files[name].Sealed?
  }

  function BindFiles(files: Files, record: State, names: seq<Name>): Binding {
    if names == [] then Binding(files, record)
    else
      var before, name := BindFiles(files, record, names[..|names| - 1]), names[|names| - 1];
      if !IsSealed(before.files, name) then before
      else
        var at := before.record.generation + 1;
        Binding(before.files[name := Sealed(name, Some(at), before.files[name].text)],
                Wrote(before.record, name, at).(generation := at))
  }

  function Covering(disk: Disk, record: State, names: seq<Name>): State {
    BindFiles(disk.files, record, names).record.(covers := true)
  }

  /** The disk after some of the files, or all and some of the three writes after. */
  datatype Reached = Bound(files: nat) | Kept | Recorded | Finished

  function BindTo(disk: Disk, record: State, names: seq<Name>, reached: Reached): Disk {
    var some := if reached.Bound? && reached.files < |names| then names[..reached.files] else names;
    var next := Covering(disk, record, names);
    var data := disk.(files := BindFiles(disk.files, record, some).files);
    var kept := if disk.state.Some? then data.(previous := disk.state) else data;
    match reached
    case Bound(_) => data
    case Kept => kept
    case Recorded => kept.(state := Some(next))
    case Finished => kept.(state := Some(next), anchor := next.generation)
  }

  /** How many names there are before one whose file does not open. */
  function OpenPrefix(files: Files, names: seq<Name>): (n: nat)
    ensures n <= |names| && AllOpen(files, names[..n]) && (n < |names| ==> !Opens(files, names[n]))
  {
    if names == [] then 0
    else
      var init := names[..|names| - 1];
      var n := OpenPrefix(files, init);
      assert init[..n] == names[..n];
      if n < |init| || !Opens(files, names[|init|]) then n
      else
        assert names == init + [names[|init|]] && names[..|names|] == names && init[..|init|] == init;
        |names|
  }

  lemma {:induction false} OpenPrefixIs(files: Files, names: seq<Name>, k: nat)
    requires k < |names| && AllOpen(files, names[..k]) && !Opens(files, names[k])
    ensures OpenPrefix(files, names) == k && !AllOpen(files, names)
  {
    var n := OpenPrefix(files, names);
    assert forall i | 0 <= i < k :: names[i] in names[..k];
    assert forall i | 0 <= i < n :: names[i] in names[..n];
    assert names[k] in names;
  }

  /** A file that does not open stops the bind there. */
  function Limited(files: Files, names: seq<Name>, reached: Reached): Reached {
    var n := OpenPrefix(files, names);
    if n == |names| || (reached.Bound? && reached.files <= n) then reached else Bound(n)
  }

  // --- unlocks, cut short ------------------------------------------------------------------

  /** The disk after a run of unlocks, each of which binds unless it finds no record or
      one that covers. */
  function AfterUnlocks(disk: Disk, names: seq<Name>, run: seq<Reached>): Disk {
    if run == [] then disk
    else
      var before := AfterUnlocks(disk, names, run[..|run| - 1]);
      var found := ReadGenerations(before);
      if found.None? || found.value.covers then before
      else BindTo(before, found.value, names, Limited(before.files, names, run[|run| - 1]))
  }

  function CountSealed(files: Files, names: seq<Name>): nat {
    if names == [] then 0
    else CountSealed(files, names[..|names| - 1]) + if IsSealed(files, names[|names| - 1]) then 1 else 0
  }

  lemma {:induction false} BindFilesIs(files: Files, record: State, names: seq<Name>)
    ensures var r := BindFiles(files, record, names);
            && r.record.generation == record.generation + CountSealed(files, names)
            && r.record.covers == record.covers && r.files.Keys == files.Keys
            && (forall name | name in files ::
                  r.files[name].Sealed? == files[name].Sealed? && r.files[name].text == files[name].text)
            && (AllOpen(files, names) ==> forall name :: Opens(r.files, name) <==> Opens(files, name))
  {
    if names != [] {
      BindFilesIs(files, record, names[..|names| - 1]);
      OpenSnoc(files, names);
    }
  }

  lemma {:induction false} CountSame(a: Files, b: Files, names: seq<Name>)
    requires a.Keys == b.Keys && forall name | name in a :: a[name].Sealed? == b[name].Sealed?
    ensures CountSealed(a, names) == CountSealed(b, names)
  {
    if names != [] {
      CountSame(a, b, names[..|names| - 1]);
    }
  }

  /** Where a run of unlocks stands: not bound and its record safe from the next bind's
      copy of `state`, not bound and its record in the `state.prev` that copy replaces,
      bound, or with no record to be found. */
  datatype Standing = Firm | Fallen | Covered | Stranded

  /** A record `more` generations on is one the anchor bears out. */
  predicate Fits(disk: Disk, record: State, more: nat) {
    record.generation + more == disk.anchor || record.generation + more == disk.anchor + 1
  }

  function NextStanding(s: Standing, fits: bool, reached: Reached): Standing {
    if s.Covered? || s.Stranded? || reached.Bound? then s
    else if reached.Finished? || (reached.Recorded? && fits) then Covered
    else if s.Fallen? then Stranded
    else if reached.Recorded? then Fallen
    else Firm
  }

  function StandingAfter(s: Standing, fits: bool, run: seq<Reached>): Standing {
    if run == [] then s
    else NextStanding(StandingAfter(s, fits, run[..|run| - 1]), fits, run[|run| - 1])
  }

  predicate Stands(disk: Disk, record: State, s: Standing) {
    match s
    case Firm =>
      Fits(disk, record, 0) &&
      (disk.state == Some(record) || (disk.state.None? && disk.previous == Some(record)))
    case Fallen =>
      && Fits(disk, record, 0) && disk.previous == Some(record)
      && disk.state.Some? && !Anchored(disk.state, disk.anchor)
    case Covered => ReadGenerations(disk).Some? && ReadGenerations(disk).value.covers
    case Stranded => ReadGenerations(disk).None?
  }

  /** How an unlock that finds a record finds it. */
  function StandingOf(disk: Disk): Standing {
    if ReadGenerations(disk).None? then Stranded
    else if disk.state.Some? && !Anchored(disk.state, disk.anchor) then Fallen
    else Firm
  }

  lemma {:induction false} BindStands(disk: Disk, record: State, names: seq<Name>, s: Standing, reached: Reached)
    requires (s.Firm? || s.Fallen?) && Stands(disk, record, s) && AllOpen(disk.files, names)
    ensures var n := BindTo(disk, record, names, reached);
            var fits := Fits(disk, record, CountSealed(disk.files, names));
            && Stands(n, record, NextStanding(s, fits, reached))
            && CountSealed(n.files, names) == CountSealed(disk.files, names) && AllOpen(n.files, names)
            && (reached.Finished? || n.anchor == disk.anchor)
  {
    BindFilesIs(disk.files, record, names);
    CountSame(disk.files, BindFiles(disk.files, record, names).files, names);
    if reached.Bound? && reached.files < |names| {
      var some := names[..reached.files];
      assert AllOpen(disk.files, some);
      BindFilesIs(disk.files, record, some);
      CountSame(disk.files, BindFiles(disk.files, record, some).files, names);
    }
  }

  /** Over every run of unlocks: where it stands is told by where its binds were cut and
      by whether the record they make is one the anchor bears out. */
  lemma {:induction false} RunStands(disk: Disk, record: State, names: seq<Name>, run: seq<Reached>)
    requires ReadGenerations(disk) == Some(record) && !record.covers && AllOpen(disk.files, names)
    ensures var more := CountSealed(disk.files, names);
            var n := AfterUnlocks(disk, names, run);
            var s := StandingAfter(StandingOf(disk), Fits(disk, record, more), run);
            && Stands(n, record, s)
            && (s.Firm? || s.Fallen? ==>
                  CountSealed(n.files, names) == more && n.anchor == disk.anchor && AllOpen(n.files, names))
  {
    if run != [] {
      var init, last := run[..|run| - 1], run[|run| - 1];
      RunStands(disk, record, names, init);
      var s := StandingAfter(StandingOf(disk), Fits(disk, record, CountSealed(disk.files, names)), init);
      var before := AfterUnlocks(disk, names, init);
      if s.Firm? || s.Fallen? {
        assert names[..|names|] == names;
        assert Limited(before.files, names, last) == last;
        BindStands(before, record, names, s, last);
      }
    }
  }

  // --- when no record is found ------------------------------------------------------------------

  /** A bind cut between record and anchor at `i`, and a later one past `state.prev`
      at `j`, with none finished before it. */
  predicate StrandedBy(run: seq<Reached>, i: nat, j: nat) {
    && i < j < |run| && run[i].Recorded? && (run[j].Kept? || run[j].Recorded?)
    && forall k | 0 <= k < j :: !run[k].Finished?
  }

  lemma {:induction false} StandingIs(run: seq<Reached>)
    ensures var s := StandingAfter(Firm, false, run);
            && (s.Stranded? <==> exists i, j :: StrandedBy(run, i, j))
            && (s.Firm? <==> forall r | r in run :: !r.Finished? && !r.Recorded?)
            && (s.Fallen? ==> forall r | r in run :: !r.Finished?)
            && (s.Covered? ==> exists r :: r in run && r.Finished?)
  {
    if run != [] {
      var init, last := run[..|run| - 1], run[|run| - 1];
      StandingIs(init);
      assert run == init + [last];
      assert forall r :: r in run <==> r in init || r == last;
      StrandedSnoc(run);
    }
  }

  lemma {:induction false} StrandedSnoc(run: seq<Reached>)
    requires run != []
    ensures var init, last := run[..|run| - 1], run[|run| - 1];
            (exists i, j :: StrandedBy(run, i, j)) <==>
            || (exists i, j :: StrandedBy(init, i, j))
            || (&& (last.Kept? || last.Recorded?) && (exists r :: r in init && r.Recorded?)
                && forall r | r in init :: !r.Finished?)
  {
    var init, last := run[..|run| - 1], run[|run| - 1];
    if i: nat, j: nat :| StrandedBy(run, i, j) {
      if j < |init| {
        assert StrandedBy(init, i, j);
      } else {
        assert run[i] == init[i];
      }
    }
    if i: nat, j: nat :| StrandedBy(init, i, j) {
      assert StrandedBy(run, i, j);
    }
    if (last.Kept? || last.Recorded?) && (exists r :: r in init && r.Recorded?) && forall r | r in init :: !r.Finished? {
      var i :| 0 <= i < |init| && init[i].Recorded?;
      forall k | 0 <= k < |init| ensures !run[k].Finished? {
        assert run[k] == init[k] && init[k] in init;
      }
      assert StrandedBy(run, i, |init|);
    }
  }

  lemma {:induction false} FitsNeverFalls(run: seq<Reached>)
    ensures StandingAfter(Firm, true, run).Firm? || StandingAfter(Firm, true, run).Covered?
  {
    if run != [] {
      FitsNeverFalls(run[..|run| - 1]);
    }
  }

  /** Where the files open and `state` is the record an unlock finds, every unlock of a
      run finds one exactly when the anchor bears out the record the bind makes, or no
      bind cut between record and anchor is followed by one cut past `state.prev`. */
  lemma {:induction false} UnlocksFindRecordIff(disk: Disk, record: State, names: seq<Name>, run: seq<Reached>)
    requires ReadGenerations(disk) == Some(record) && !record.covers && AllOpen(disk.files, names)
    requires StandingOf(disk).Firm?
    ensures ReadGenerations(AfterUnlocks(disk, names, run)).Some? <==>
            Fits(disk, record, CountSealed(disk.files, names)) || !exists i, j :: StrandedBy(run, i, j)
  {
    RunStands(disk, record, names, run);
    StandingIs(run);
    if Fits(disk, record, CountSealed(disk.files, names)) {
      FitsNeverFalls(run);
    }
  }

  /** The first unlock to get past the files is cut before a record the anchor bears out. */
  predicate FallenBy(run: seq<Reached>, fits: bool, j: nat) {
    && j < |run| && (run[j].Kept? || (run[j].Recorded? && !fits))
    && forall k | 0 <= k < j :: run[k].Bound?
  }

  lemma {:induction false} FallenIs(run: seq<Reached>, fits: bool)
    ensures var s := StandingAfter(Fallen, fits, run);
            && (s.Stranded? <==> exists j :: FallenBy(run, fits, j))
            && !s.Firm? && (s.Fallen? <==> forall r | r in run :: r.Bound?)
  {
    if run != [] {
      var init, last := run[..|run| - 1], run[|run| - 1];
      FallenIs(init, fits);
      assert run == init + [last];
      assert forall r :: r in run <==> r in init || r == last;
      if j: nat :| FallenBy(init, fits, j) {
        assert FallenBy(run, fits, j);
      }
      if j: nat :| FallenBy(run, fits, j) {
        if j < |init| {
          assert FallenBy(init, fits, j);
        } else {
          assert forall k | 0 <= k < |init| :: run[k] == init[k];
        }
      }
      if StandingAfter(Fallen, fits, init).Fallen? && StandingAfter(Fallen, fits, run).Stranded? {
        assert forall k | 0 <= k < |init| :: run[k] == init[k] && init[k] in init;
        assert FallenBy(run, fits, |init|);
      }
    }
  }

  /** Where it is `state.prev` that is found, with a `state` the anchor does not bear
      out, the first bind to replace `state.prev` has to reach such a record. */
  lemma {:induction false} FallenFindRecordIff(disk: Disk, record: State, names: seq<Name>, run: seq<Reached>)
    requires ReadGenerations(disk) == Some(record) && !record.covers && AllOpen(disk.files, names)
    requires StandingOf(disk).Fallen?
    ensures ReadGenerations(AfterUnlocks(disk, names, run)).Some? <==>
            !exists j :: FallenBy(run, Fits(disk, record, CountSealed(disk.files, names)), j)
  {
    RunStands(disk, record, names, run);
    FallenIs(run, Fits(disk, record, CountSealed(disk.files, names)));
  }

  /** With a file that does not open, every unlock finds the record and none binds. */
  lemma {:induction false} StoppedFindsRecord(disk: Disk, record: State, names: seq<Name>, run: seq<Reached>)
    requires ReadGenerations(disk) == Some(record) && !record.covers && !AllOpen(disk.files, names)
    ensures var n := AfterUnlocks(disk, names, run);
            && n.(files := disk.files) == disk && ReadGenerations(n) == Some(record) && !AllOpen(n.files, names)
  {
    if run != [] {
      var init := run[..|run| - 1];
      StoppedFindsRecord(disk, record, names, init);
      var before := AfterUnlocks(disk, names, init);
      var n := OpenPrefix(before.files, names);
      assert names[..|names|] == names;
      var reached := Limited(before.files, names, run[|run| - 1]);
      var some := names[..reached.files];
      assert forall name | name in some :: name in names[..n];
      assert AllOpen(before.files, some);
      BindFilesIs(before.files, record, some);
      assert names[n] in names;
    }
  }

  /** So in a settled directory one file to bind strands nothing, and two can: a crash
      between record and anchor, then one past `state.prev`, leaves no record. */
  lemma {:induction false} TwoFilesStrand(disk: Disk, record: State, names: seq<Name>)
    requires disk.state == Some(record) && disk.anchor == record.generation && !record.covers
    requires AllOpen(disk.files, names)
    ensures ReadGenerations(AfterUnlocks(disk, names, [Recorded, Kept])).None? <==> CountSealed(disk.files, names) >= 2
  {
    var run := [Recorded, Kept];
    UnlocksFindRecordIff(disk, record, names, run);
    assert StrandedBy(run, 0, 1);
  }

  // --- what is read after ---------------------------------------------------------------------

  lemma {:induction false} BoundAtRecord(files: Files, record: State, names: seq<Name>, name: Name)
    requires name in names && IsSealed(files, name)
    ensures var r := BindFiles(files, record, names);
            && name in r.files && name in r.record.files
            && r.files[name] == Sealed(name, Some(r.record.files[name]), files[name].text)
  {
    var init, last := names[..|names| - 1], names[|names| - 1];
    assert names == init + [last];
    BindFilesIs(files, record, init);
    if last != name {
      BoundAtRecord(files, record, init, name);
    }
  }

  /** A bind that finishes leaves each file it was for read as it was. */
  lemma {:induction false} BoundFilesRead(disk: Disk, record: State, names: seq<Name>, name: Name)
    requires name in names && name in disk.files
    ensures var n := BindTo(disk, record, names, Finished);
            && n.state == Some(Covering(disk, record, names)) && n.anchor == n.state.value.generation
            && ReadFile(n.state.value, n, name) == Ok(Some(disk.files[name].text))
  {
    BindFilesIs(disk.files, record, names);
    if IsSealed(disk.files, name) {
      BoundAtRecord(disk.files, record, names, name);
    }
  }
}
