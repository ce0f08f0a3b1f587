/**
 Moving history logs (`store.rs`, `adopt_history`) off the names that say whose they
 are, while a directory takes up generations. Every line is bound to its file's name,
 so a log is read line by line under the old name, sealed under the new one, written
 there, and only then removed; a line that does not open stops the whole adoption.
 */
module RollbackLogs {
  import opened Wrappers
  import opened Rollback
  import opened RollbackAdoption
  import H = HistoryFile
  import R = RotationLog
  import T = HistoryFileTheorems

  type Logs = map<LogName, H.Bytes>

  /** The line cipher under each log's name. */
  type Ciphers = LogName -> H.LineCipher

  // --- one log --------------------------------------------------------------------------

  /** A sealed line that does not open where it stands. */
  predicate Shut(c: H.LineCipher, p: H.Placed) {
    H.Sealed(p.line) && c.openAt(p.at, p.line).None? && c.openUnbound(p.line).None?
  }

  /** A log under its old name that holds one. */
  predicate Stuck(cs: Ciphers, logs: Logs, name: LogName) {
    name.Named? && name in logs && exists p :: p in H.Lines(logs[name]) && Shut(cs(name), p)
  }

  predicate Decodes(cs: Ciphers, name: LogName, text: H.Bytes) {
    R.AllDecode(cs(name), H.Lines(text))
  }

  lemma {:induction false} StuckIff(cs: Ciphers, logs: Logs, name: LogName)
    requires name.Named? && name in logs
    ensures Stuck(cs, logs, name) <==> !Decodes(cs, name, logs[name])
  {
    var lines := H.Lines(logs[name]);
    if p :| p in lines && Shut(cs(name), p) {
      var i :| 0 <= i < |lines| && lines[i] == p;
      assert H.DecodeLine(cs(name), lines[i].at, lines[i].line).None?;
    }
    if !Decodes(cs, name, logs[name]) {
      var i :| 0 <= i < |lines| && H.DecodeLine(cs(name), lines[i].at, lines[i].line).None?;
      assert lines[i] in lines && Shut(cs(name), lines[i]);
    }
  }

  /** A log's lines, sealed for the new name at the offsets they land on. */
  function Moved(cs: Ciphers, name: LogName, text: H.Bytes): H.Bytes
    requires Decodes(cs, name, text)
  {
    R.Sealing(cs(Hidden(name.of)), R.Plains(cs(name), H.Lines(text)))
  }

  function Put(cs: Ciphers, logs: Logs, name: LogName): Logs
    requires name in logs && Decodes(cs, name, logs[name])
  {
    logs[Hidden(name.of) := Moved(cs, name, logs[name])]
  }

  // --- all of them ----------------------------------------------------------------------

  /** Logs being moved, and what is recorded of them so far. */
  datatype Moving = Moving(logs: Logs, history: map<LogName, HistoryState>, stopped: bool)

  function MoveOne(cs: Ciphers, m: Moving, name: LogName): Moving {
    if m.stopped || name.Hidden? || name !in m.logs then m
    else if !Decodes(cs, name, m.logs[name]) then m.(stopped := true)
    else
      var text := Moved(cs, name, m.logs[name]);
      Moving(Put(cs, m.logs, name) - {name}, m.history[Hidden(name.of) := HistoryState(name.of, |text|)], false)
  }

  function MoveLogs(cs: Ciphers, logs: Logs, listing: seq<LogName>): Moving {
    if listing == [] then Moving(logs, map[], false)
    else MoveOne(cs, MoveLogs(cs, logs, listing[..|listing| - 1]), listing[|listing| - 1])
  }

  /** A crash after the logs in `listing`, or with one more written and not yet removed. */
  datatype LogCut = LogCut(listing: seq<LogName>, written: Option<LogName>)

  function CutLogs(cs: Ciphers, logs: Logs, cut: LogCut): Logs {
    var m := MoveLogs(cs, logs, cut.listing);
    if !m.stopped && cut.written.Some? && cut.written.value.Named? && cut.written.value in m.logs
       && Decodes(cs, cut.written.value, m.logs[cut.written.value])
    then Put(cs, m.logs, cut.written.value) else m.logs
  }

  function AfterLogCuts(cs: Ciphers, logs: Logs, cuts: seq<LogCut>): Logs {
    if cuts == [] then logs
    else CutLogs(cs, AfterLogCuts(cs, logs, cuts[..|cuts| - 1]), cuts[|cuts| - 1])
  }

  // --- where it stops --------------------------------------------------------------------

  /** Logs under their old names are gone or as they were, and a stuck one is not gone. */
  predicate Left(cs: Ciphers, was: Logs, now: Logs) {
    && (forall name | name in now && name.Named? :: name in was && now[name] == was[name])
    && forall name | name in was && name.Named? && !Decodes(cs, name, was[name]) :: name in now
  }

  lemma {:induction false} LeftStuck(cs: Ciphers, was: Logs, now: Logs, name: LogName)
    requires Left(cs, was, now)
    ensures Stuck(cs, now, name) <==> Stuck(cs, was, name)
  {
    if name.Named? && name in was {
      StuckIff(cs, was, name);
    }
  }

  lemma {:induction false} MoveStops(cs: Ciphers, logs: Logs, listing: seq<LogName>)
    ensures var m := MoveLogs(cs, logs, listing);
            && Left(cs, logs, m.logs)
            && (m.stopped <==> exists name :: name in listing && Stuck(cs, logs, name))
  {
    if listing != [] {
      var init, last := listing[..|listing| - 1], listing[|listing| - 1];
      MoveStops(cs, logs, init);
      var m := MoveLogs(cs, logs, init);
      assert listing == init + [last];
      assert forall name :: name in listing <==> name in init || name == last;
      LeftStuck(cs, logs, m.logs, last);
      if last.Named? && last in m.logs {
        StuckIff(cs, m.logs, last);
      }
    }
  }

  lemma {:induction false} CutsLeave(cs: Ciphers, logs: Logs, cuts: seq<LogCut>)
    ensures Left(cs, logs, AfterLogCuts(cs, logs, cuts))
  {
    if cuts != [] {
      var before := AfterLogCuts(cs, logs, cuts[..|cuts| - 1]);
      CutsLeave(cs, logs, cuts[..|cuts| - 1]);
      MoveStops(cs, before, cuts[|cuts| - 1].listing);
    }
  }

  /** However many moves were cut short, and wherever, one stops exactly at a log that
      was under its old name to begin with and holds a sealed line that does not open. */
  lemma {:induction false} MoveStopsIff(cs: Ciphers, logs: Logs, cuts: seq<LogCut>, listing: seq<LogName>)
    ensures MoveLogs(cs, AfterLogCuts(cs, logs, cuts), listing).stopped <==>
            exists name :: name in listing && Stuck(cs, logs, name)
  {
    var left := AfterLogCuts(cs, logs, cuts);
    CutsLeave(cs, logs, cuts);
    MoveStops(cs, left, listing);
    forall name ensures Stuck(cs, left, name) <==> Stuck(cs, logs, name) {
      LeftStuck(cs, logs, left, name);
    }
  }

  // --- what it keeps ---------------------------------------------------------------------

  /** What a conversation's log holds, line by line, under either name. */
  function Holds(cs: Ciphers, logs: Logs, c: string): Option<seq<Option<H.Bytes>>> {
    if Named(c) in logs then Some(R.Decoded(cs(Named(c)), H.Lines(logs[Named(c)])))
    else if Hidden(c) in logs then Some(R.Decoded(cs(Hidden(c)), H.Lines(logs[Hidden(c)])))
    else None
  }

  ghost predicate AllIdeal(cs: Ciphers) {
    forall name :: H.OpensOnlyWhereSealed(cs(name))
  }

  lemma {:induction false} PutHolds(cs: Ciphers, logs: Logs, name: LogName, c: string)
    requires name.Named? && name in logs && Decodes(cs, name, logs[name])
    requires H.OpensOnlyWhereSealed(cs(Hidden(name.of)))
    ensures Holds(cs, Put(cs, logs, name), c) == Holds(cs, logs, c)
    ensures Holds(cs, Put(cs, logs, name) - {name}, c) == Holds(cs, logs, c)
  {
    R.MovedLogHolds(cs(name), cs(Hidden(name.of)), logs[name]);
  }

  ghost predicate SameHeld(cs: Ciphers, was: Logs, now: Logs) {
    forall c :: Holds(cs, now, c) == Holds(cs, was, c)
  }

  lemma {:induction false} MoveHolds(cs: Ciphers, logs: Logs, listing: seq<LogName>)
    requires AllIdeal(cs)
    ensures SameHeld(cs, logs, MoveLogs(cs, logs, listing).logs)
  {
    if listing != [] {
      MoveHolds(cs, logs, listing[..|listing| - 1]);
      var m, name := MoveLogs(cs, logs, listing[..|listing| - 1]), listing[|listing| - 1];
      if !m.stopped && name.Named? && name in m.logs && Decodes(cs, name, m.logs[name]) {
        forall c ensures Holds(cs, MoveOne(cs, m, name).logs, c) == Holds(cs, logs, c) {
          PutHolds(cs, m.logs, name, c);
        }
      }
    }
  }

  lemma {:induction false} CutsHold(cs: Ciphers, logs: Logs, cuts: seq<LogCut>)
    requires AllIdeal(cs)
    ensures SameHeld(cs, logs, AfterLogCuts(cs, logs, cuts))
  {
    if cuts != [] {
      var before, cut := AfterLogCuts(cs, logs, cuts[..|cuts| - 1]), cuts[|cuts| - 1];
      CutsHold(cs, logs, cuts[..|cuts| - 1]);
      MoveHolds(cs, before, cut.listing);
      var m := MoveLogs(cs, before, cut.listing);
      if cut.written.Some? && cut.written.value.Named? && cut.written.value in m.logs
         && Decodes(cs, cut.written.value, m.logs[cut.written.value]) {
        forall c ensures Holds(cs, Put(cs, m.logs, cut.written.value), c) == Holds(cs, m.logs, c) {
          PutHolds(cs, m.logs, cut.written.value, c);
        }
      }
    }
  }

  // --- what it records --------------------------------------------------------------------

  ghost predicate Records(m: Moving, logs: Logs, listing: seq<LogName>) {
    && (forall c :: Named(c) in m.logs <==> Named(c) in logs && Named(c) !in listing)
    && (forall name | name in m.history :: name.Hidden?)
    && (forall c :: Hidden(c) in m.history <==> Named(c) in logs && Named(c) in listing)
    && forall c | Hidden(c) in m.history ::
         Hidden(c) in m.logs && m.history[Hidden(c)] == HistoryState(c, |m.logs[Hidden(c)]|)
  }

  lemma {:induction false} MoveRecords(cs: Ciphers, logs: Logs, listing: seq<LogName>)
    requires !MoveLogs(cs, logs, listing).stopped
    ensures Records(MoveLogs(cs, logs, listing), logs, listing)
  {
    if listing != [] {
      var init, last := listing[..|listing| - 1], listing[|listing| - 1];
      MoveRecords(cs, logs, init);
      assert listing == init + [last];
      RecordsOne(cs, MoveLogs(cs, logs, init), logs, init, last);
    }
  }

  lemma {:induction false} RecordsOne(cs: Ciphers, m: Moving, logs: Logs, listing: seq<LogName>, name: LogName)
    requires Records(m, logs, listing) && !m.stopped && !MoveOne(cs, m, name).stopped
    ensures Records(MoveOne(cs, m, name), logs, listing + [name])
  {
    assert forall n :: n in listing + [name] <==> n in listing || n == name;
    var r := MoveOne(cs, m, name);
    if name.Named? && name in m.logs {
      var c := name.of;
      assert r.logs.Keys == m.logs.Keys + {Hidden(c)} - {Named(c)};
      assert r.history.Keys == m.history.Keys + {Hidden(c)};
    }
  }

  /** Where no log is stuck, the adoption that finishes has moved every one, however many
      were cut short before: what the lines held is the same and none is lost. But it
      records a log, at its length, exactly when it found it under its old name still. */
  lemma {:induction false} MovedLogRecordedIff(cs: Ciphers, logs: Logs, cuts: seq<LogCut>, listing: seq<LogName>)
    requires AllIdeal(cs) && forall name | name in AfterLogCuts(cs, logs, cuts) :: name in listing
    ensures var left := AfterLogCuts(cs, logs, cuts);
            var m := MoveLogs(cs, left, listing);
            && (m.stopped <==> exists name :: Stuck(cs, logs, name))
            && SameHeld(cs, logs, m.logs)
            && (!m.stopped ==>
                  && (forall name | name in m.logs :: name.Hidden?)
                  && (forall c | Hidden(c) in m.logs :: Hidden(c) in m.history <==> Named(c) in left)
                  && (forall c | Hidden(c) in m.history ::
                        Hidden(c) in m.logs && m.history[Hidden(c)] == HistoryState(c, |m.logs[Hidden(c)]|)))
  {
    var left := AfterLogCuts(cs, logs, cuts);
    MoveStopsIff(cs, logs, cuts, listing);
    CutsLeave(cs, logs, cuts);
    if name :| Stuck(cs, logs, name) {
      LeftStuck(cs, logs, left, name);
      assert name in listing;
    }
    CutsHold(cs, logs, cuts);
    MoveHolds(cs, left, listing);
    if !MoveLogs(cs, left, listing).stopped {
      MoveRecords(cs, left, listing);
      EveryoneMoved(MoveLogs(cs, left, listing), left, listing);
    }
  }

  lemma {:induction false} EveryoneMoved(m: Moving, logs: Logs, listing: seq<LogName>)
    requires Records(m, logs, listing) && forall name | name in logs :: name in listing
    ensures forall name | name in m.logs :: name.Hidden?
    ensures forall c :: Hidden(c) in m.history <==> Named(c) in logs
  {
    assert forall c :: Named(c) !in m.logs;
    forall name | name in m.logs ensures name.Hidden? {
      assert name == Named(name.of) || name == Hidden(name.of);
    }
  }

  /** So a log that a run cut short had moved is there and in no record, and its
      conversation in no list, though it was to be left alone but still recorded. */
  lemma {:induction false} MovedLogUnrecorded(cs: Ciphers, c: string, text: H.Bytes)
    requires AllIdeal(cs) && Decodes(cs, Named(c), text)
    ensures var logs: Logs := map[Named(c) := text];
            var left := AfterLogCuts(cs, logs, [LogCut([Named(c)], None)]);
            var m := MoveLogs(cs, left, [Hidden(c)]);
            && !m.stopped && Hidden(c) in m.logs && Hidden(c) !in m.history
            && Holds(cs, m.logs, c) == Holds(cs, logs, c)
  {
    var logs: Logs := map[Named(c) := text];
    var cuts := [LogCut([Named(c)], None)];
    assert cuts[..0] == [] && [Named(c)][..0] == [] && [Hidden(c)][..0] == [];
    assert AfterLogCuts(cs, logs, []) == logs;
    assert MoveLogs(cs, logs, []) == Moving(logs, map[], false);
    var left := AfterLogCuts(cs, logs, cuts);
    assert left == Put(cs, logs, Named(c)) - {Named(c)};
    PutHolds(cs, logs, Named(c), c);
    assert MoveLogs(cs, left, [Hidden(c)]) == MoveLogs(cs, left, []);
  }

  /** And a log whose last append was cut short past its prefix, which the reader keeps
      and goes on, stops the move, and every later one. */
  lemma {:induction false} CutLineStops(cs: Ciphers, logs: Logs, c: string, plain: H.Bytes, k: nat,
                                        cuts: seq<LogCut>, listing: seq<LogName>)
    requires H.Ideal(cs(Named(c))) && H.PiecesStayShut(cs(Named(c))) && cs(Named(c)).parses(plain)
    requires |H.LINE_PREFIX| <= k < |cs(Named(c)).seal(0, plain)|
    requires Named(c) in logs && logs[Named(c)] == T.After(cs(Named(c)), [T.AppendCut(plain, k)]).text
    requires Named(c) in listing
    ensures H.Load(cs(Named(c)), H.File(logs[Named(c)], None)) ==
            Ok([H.Unreadable(cs(Named(c)).seal(0, plain)[..k])])
    ensures MoveLogs(cs, AfterLogCuts(cs, logs, cuts), listing).stopped
  {
    var cipher := cs(Named(c));
    CutLineShut(cipher, plain, k);
    MoveStopsIff(cs, logs, cuts, listing);
    assert Stuck(cs, logs, Named(c));
  }

  lemma {:induction false} CutLineShut(cipher: H.LineCipher, plain: H.Bytes, k: nat)
    requires H.Ideal(cipher) && H.PiecesStayShut(cipher) && cipher.parses(plain)
    requires |H.LINE_PREFIX| <= k < |cipher.seal(0, plain)|
    ensures var text, piece := T.After(cipher, [T.AppendCut(plain, k)]).text, cipher.seal(0, plain)[..k];
            && H.Read(cipher, text) == [H.Unreadable(piece)]
            && H.Placed(0, piece) in H.Lines(text) && Shut(cipher, H.Placed(0, piece))
  {
    CutText(cipher, plain, k);
    PieceIsShut(cipher, plain, k);
    PieceAlone(cipher, cipher.seal(0, plain)[..k]);
  }

  lemma {:induction false} CutText(cipher: H.LineCipher, plain: H.Bytes, k: nat)
    requires k < |cipher.seal(0, plain)|
    ensures T.After(cipher, [T.AppendCut(plain, k)]).text == cipher.seal(0, plain)[..k]
  {
    var ops := [T.AppendCut(plain, k)];
    assert ops[..0] == [] && T.After(cipher, ops) == T.Step(cipher, H.File([], None), ops[0]);
    assert H.Added(cipher, [], plain) == cipher.seal(0, plain) + [H.NEWLINE];
  }

  lemma {:induction false} PieceIsShut(cipher: H.LineCipher, plain: H.Bytes, k: nat)
    requires H.Ideal(cipher) && H.PiecesStayShut(cipher) && cipher.parses(plain)
    requires |H.LINE_PREFIX| <= k < |cipher.seal(0, plain)|
    ensures var piece := cipher.seal(0, plain)[..k];
            Shut(cipher, H.Placed(0, piece)) && H.NEWLINE !in piece && H.ReadLine(cipher, 0, piece) == H.Unreadable(piece)
  {
    var line := cipher.seal(0, plain);
    T.PieceReads(cipher, 0, plain, k);
    assert H.Sealed(line) && line[..k][..|H.LINE_PREFIX|] == line[..|H.LINE_PREFIX|];
  }

  lemma {:induction false} PieceAlone(cipher: H.LineCipher, piece: H.Bytes)
    requires H.Sealed(piece) && H.NEWLINE !in piece
    ensures H.Lines(piece) == [H.Placed(0, piece)] && H.Read(cipher, piece) == [H.ReadLine(cipher, 0, piece)]
  {
    T.SealedIsNotBlank(piece);
    T.ReadThenLine(cipher, [], piece);
    T.LinesThenLine([], piece);
    assert [] + piece == piece && H.Lines([]) == [];
  }

  // --- the whole adoption ------------------------------------------------------------------

  datatype Directory = Directory(files: Files, logs: Logs)

  /** Where a start was cut: in the files, or past them in the logs. */
  datatype StartCut = InFiles(names: nat) | InLogs(cut: LogCut)

  function AfterStarts(cs: Ciphers, d: Directory, names: seq<Name>, cuts: seq<StartCut>): Directory {
    if cuts == [] then d
    else
      var before := AfterStarts(cs, d, names, cuts[..|cuts| - 1]);
      match cuts[|cuts| - 1]
      case InFiles(k) =>
        before.(files := AdoptFiles(before.files, names[..if k < |names| then k else |names|]).files)
      case InLogs(cut) =>
        var a := AdoptFiles(before.files, names);
        Directory(a.files, if a.stopped then before.logs else CutLogs(cs, before.logs, cut))
  }

  predicate Stops(cs: Ciphers, d: Directory, names: seq<Name>, listing: seq<LogName>) {
    AdoptFiles(d.files, names).stopped || MoveLogs(cs, d.logs, listing).stopped
  }

  lemma {:induction false} StartsLeave(cs: Ciphers, d: Directory, names: seq<Name>, cuts: seq<StartCut>)
    ensures var left := AfterStarts(cs, d, names, cuts);
            PartAdopted(d.files, left.files) && Left(cs, d.logs, left.logs)
  {
    if cuts != [] {
      var before, cut := AfterStarts(cs, d, names, cuts[..|cuts| - 1]), cuts[|cuts| - 1];
      StartsLeave(cs, d, names, cuts[..|cuts| - 1]);
      match cut
      case InFiles(k) => AdoptFilesIs(before.files, names[..if k < |names| then k else |names|]);
      case InLogs(logCut) =>
        AdoptFilesIs(before.files, names);
        MoveStops(cs, before.logs, logCut.listing);
    }
  }

  /** However many starts were cut short, and wherever, the next one's adoption stops, and
      the unlock with it, exactly where some file was under another's name to begin with
      or some log under its old name holds a sealed line that does not open. */
  lemma {:induction false} AdoptionStopsIff(cs: Ciphers, d: Directory, names: seq<Name>, cuts: seq<StartCut>,
                                            listing: seq<LogName>)
    ensures Stops(cs, AfterStarts(cs, d, names, cuts), names, listing) <==>
            !AllOpen(d.files, names) || exists name :: name in listing && Stuck(cs, d.logs, name)
  {
    var left := AfterStarts(cs, d, names, cuts);
    StartsLeave(cs, d, names, cuts);
    AdoptFilesIs(left.files, names);
    MoveStops(cs, left.logs, listing);
    assert forall name :: Opens(left.files, name) <==> Opens(d.files, name);
    forall name ensures Stuck(cs, left.logs, name) <==> Stuck(cs, d.logs, name) {
      LeftStuck(cs, d.logs, left.logs, name);
    }
  }

  // --- the loop itself ---------------------------------------------------------------------

  /** Every log under its old name moved, and recorded. */
  method MoveEvery(cs: Ciphers, logs: Logs, listing: seq<LogName>) returns (m: Moving)
    ensures m == MoveLogs(cs, logs, listing)
  {
    var now: Logs, history: map<LogName, HistoryState> := logs, map[];
    for k := 0 to |listing|
      invariant Moving(now, history, false) == MoveLogs(cs, logs, listing[..k])
    {
      assert listing[..k + 1][..k] == listing[..k];
      var name := listing[k];
      if name.Hidden? || name !in now {
        continue;
      }
      var hidden := Hidden(name.of);
      var out := R.RecryptLog(cs(name), cs(hidden), now[name]);
      if out.None? {
        MoveStays(cs, logs, listing, k + 1);
        return Moving(now, history, true);
      }
      now := now[hidden := out.value];
      history := history[hidden := HistoryState(name.of, |out.value|)];
      now := now - {name};
    }
    assert listing[..|listing|] == listing;
    return Moving(now, history, false);
  }

  lemma {:induction false} MoveStays(cs: Ciphers, logs: Logs, listing: seq<LogName>, k: nat)
    requires k <= |listing| && MoveLogs(cs, logs, listing[..k]).stopped
    ensures MoveLogs(cs, logs, listing) == MoveLogs(cs, logs, listing[..k])
    decreases |listing| - k
  {
    if k == |listing| {
      assert listing[..k] == listing;
    } else {
      assert listing[..k + 1][..k] == listing[..k];
      assert MoveLogs(cs, logs, listing[..k + 1]) == MoveLogs(cs, logs, listing[..k]);
      MoveStays(cs, logs, listing, k + 1);
    }
  }
}
