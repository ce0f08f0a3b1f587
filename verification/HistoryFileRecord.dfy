/** What recording a log's length catches, over every run: the store's own file,
    and older copies of it put back. */
module HistoryFileRecord {
  import opened Wrappers
  import opened HistoryFile
  import opened HistoryFileTheorems

  // --- the length on record ------------------------------------------------------------------

  /** The log has been listed: an append to it was finished. */
  predicate Listed(ops: seq<Op>) {
    exists op :: op in ops && op.Appending?
  }

  /** Whether the last call of a run recorded the length: an append that was finished,
      or a rewrite of a log listed by then. */
  predicate Notes(ops: seq<Op>)
    requires ops != []
  {
    var op := ops[|ops| - 1];
    op.Appending? || (op.Rewriting? && Listed(ops[..|ops| - 1]))
  }

  function LastNote(ops: seq<Op>): Option<nat> {
    if ops == [] then None
    else if Notes(ops) then Some(|ops| - 1)
    else LastNote(ops[..|ops| - 1])
  }

  lemma {:induction false} ListedSnoc(ops: seq<Op>)
    requires ops != []
    ensures Listed(ops) <==> Listed(ops[..|ops| - 1]) || ops[|ops| - 1].Appending?
  {
    var init, last := ops[..|ops| - 1], ops[|ops| - 1];
    assert ops == init + [last];
    assert forall op :: op in ops <==> op in init || op == last;
  }

  /** A log is in the record exactly when an append to it was ever finished: no rewrite
      puts it there. */
  lemma {:induction false} ListedIff(c: LineCipher, ops: seq<Op>)
    ensures After(c, ops).recorded.Some? <==> Listed(ops)
    ensures LastNote(ops).Some? <==> Listed(ops)
  {
    if ops != [] {
      ListedIff(c, ops[..|ops| - 1]);
      ListedSnoc(ops);
    }
  }

  function LastRewriteCut(ops: seq<Op>): Option<nat> {
    if ops == [] then None
    else if ops[|ops| - 1].RewriteCut? then Some(|ops| - 1)
    else LastRewriteCut(ops[..|ops| - 1])
  }

  lemma {:induction false} LastNoteIs(ops: seq<Op>)
    ensures LastNote(ops).Some? ==>
              LastNote(ops).value < |ops| && (ops[LastNote(ops).value].Appending? || ops[LastNote(ops).value].Rewriting?)
  {
    if ops != [] {
      LastNoteIs(ops[..|ops| - 1]);
    }
  }

  lemma {:induction false} LastRewriteCutIs(ops: seq<Op>)
    ensures LastRewriteCut(ops).Some? ==>
              LastRewriteCut(ops).value < |ops| && ops[LastRewriteCut(ops).value].RewriteCut?
  {
    if ops != [] {
      LastRewriteCutIs(ops[..|ops| - 1]);
    }
  }

  /** The bytes that cut appends have added since anything else happened. */
  function TornBytes(c: LineCipher, ops: seq<Op>): nat {
    if ops == [] || !ops[|ops| - 1].AppendCut? then 0
    else
      var before, op := ops[..|ops| - 1], ops[|ops| - 1];
      TornBytes(c, before) + |Cut(Added(c, After(c, before).text, op.plain), op.bytes)|
  }

  lemma {:induction false} RecordedIs(c: LineCipher, ops: seq<Op>, r: nat)
    requires LastNote(ops) == Some(r)
    ensures r < |ops| && After(c, ops).recorded == Some(|After(c, ops[..r + 1]).text|)
  {
    LastNoteIs(ops);
    if r == |ops| - 1 {
      assert ops[..r + 1] == ops;
      LastNoteIs(ops[..r]);
      ListedIff(c, ops[..r]);
    } else {
      var init := ops[..|ops| - 1];
      LastNoteIs(init);
      ListedIff(c, init);
      RecordedIs(c, init, r);
      assert init[..r + 1] == ops[..r + 1];
    }
  }

  /** A cut rewrite that nothing recorded since, of a log listed before it. */
  predicate Unrecorded(ops: seq<Op>) {
    LastRewriteCut(ops).Some? && LastNote(ops).Some? && LastNote(ops).value < LastRewriteCut(ops).value
  }

  /** Since then there have been nothing but cut appends. */
  lemma {:induction false} LengthSinceCut(c: LineCipher, ops: seq<Op>, k: nat)
    requires Unrecorded(ops) && LastRewriteCut(ops) == Some(k)
    ensures k < |ops| && ops[k].RewriteCut?
    ensures |After(c, ops).text| == |Written(c, ops[k].items)| + TornBytes(c, ops)
  {
    LastRewriteCutIs(ops);
    LastNoteIs(ops);
    if k < |ops| - 1 {
      var init := ops[..|ops| - 1];
      ListedIff(c, init);
      LengthSinceCut(c, init, k);
    }
  }

  lemma {:induction false} GrownSinceNote(c: LineCipher, ops: seq<Op>, r: nat)
    requires LastNote(ops) == Some(r) && !Unrecorded(ops)
    ensures r < |ops| && |After(c, ops).text| >= |After(c, ops[..r + 1]).text|
  {
    LastNoteIs(ops);
    LastRewriteCutIs(ops);
    if r == |ops| - 1 {
      assert ops[..r + 1] == ops;
    } else {
      var init := ops[..|ops| - 1];
      assert init[..r + 1] == ops[..r + 1];
      ListedIff(c, init);
      GrownSinceNote(c, init, r);
    }
  }

  /** Over every run: the store refuses its own file if and only if a rewrite was
      cut off before its length was recorded, nothing has been recorded since, and
      what it wrote with what cut appends have added is shorter than the record. */
  lemma {:induction false} OwnFileRefusedIff(c: LineCipher, ops: seq<Op>)
    ensures Refused(After(c, ops)) <==>
            && LastNote(ops).Some? && LastRewriteCut(ops).Some?
            && LastNote(ops).value < LastRewriteCut(ops).value < |ops|
            && ops[LastRewriteCut(ops).value].RewriteCut?
            && |Written(c, ops[LastRewriteCut(ops).value].items)| + TornBytes(c, ops) <
               |After(c, ops[..LastNote(ops).value + 1]).text|
  {
    LastRewriteCutIs(ops);
    if LastNote(ops).None? {
      ListedIff(c, ops);
    } else {
      var r := LastNote(ops).value;
      RecordedIs(c, ops, r);
      if Unrecorded(ops) {
        LengthSinceCut(c, ops, LastRewriteCut(ops).value);
      } else {
        GrownSinceNote(c, ops, r);
      }
    }
  }

  // --- older copies of a log -----------------------------------------------------------------------

  lemma {:induction false} HonestPrefix(c: LineCipher, ops: seq<Op>, i: nat)
    requires Honest(c, ops) && i <= |ops|
    ensures Honest(c, ops[..i])
  {
    forall k | 0 <= k < i ensures ops[..i][k] == ops[k] && ops[..i][..k] == ops[..k] {
    }
  }

  /** Any text put in the log's place is refused exactly when it is shorter than the
      log was when its length was last recorded. */
  lemma {:induction false} PutBackRefusedIff(c: LineCipher, ops: seq<Op>, text: Bytes)
    ensures Refused(File(text, After(c, ops).recorded)) <==>
            && LastNote(ops).Some? && LastNote(ops).value < |ops|
            && |text| < |After(c, ops[..LastNote(ops).value + 1]).text|
  {
    LastNoteIs(ops);
    if LastNote(ops).Some? {
      RecordedIs(c, ops, LastNote(ops).value);
    } else {
      ListedIff(c, ops);
    }
  }

  /** The copy of the log there was after `i` calls, put back later: it loads, with
      all it held then, if and only if it is not shorter than the record. */
  lemma {:induction false} OlderCopyLoadsIff(c: LineCipher, ops: seq<Op>, i: nat)
    requires Ideal(c) && Honest(c, ops) && i <= |ops|
    ensures var older := File(After(c, ops[..i]).text, After(c, ops).recorded);
            && (Load(c, older).Ok? <==>
                LastNote(ops).Some? ==>
                  LastNote(ops).value < |ops| && |older.text| >= |After(c, ops[..LastNote(ops).value + 1]).text|)
            && (Load(c, older).Ok? ==> Load(c, older).value == Contents(c, ops[..i]))
  {
    HonestPrefix(c, ops, i);
    RunReads(c, ops[..i]);
    LastNoteIs(ops);
    PutBackRefusedIff(c, ops, After(c, ops[..i]).text);
  }

  predicate OnlyAppends(ops: seq<Op>) {
    forall op | op in ops :: op.Appending? || op.AppendCut?
  }

  lemma {:induction false} AppendsGrow(c: LineCipher, ops: seq<Op>, i: nat)
    requires OnlyAppends(ops) && i <= |ops|
    ensures |After(c, ops[..i]).text| <= |After(c, ops).text|
    ensures i < |ops| && ops[|ops| - 1].Appending? ==> |After(c, ops[..i]).text| < |After(c, ops).text|
  {
    if i == |ops| {
      assert ops[..i] == ops;
    } else {
      var init := ops[..|ops| - 1];
      assert ops[|ops| - 1] in ops && forall op | op in init :: op in ops;
      assert init[..i] == ops[..i];
      AppendsGrow(c, init, i);
    }
  }

  /** A log that only grew: an older copy is refused if and only if an append has been
      recorded since, which is what recording the length is for. */
  lemma {:induction false} GrowingLogOlderRefusedIff(c: LineCipher, ops: seq<Op>, i: nat)
    requires OnlyAppends(ops) && i <= |ops|
    ensures Refused(File(After(c, ops[..i]).text, After(c, ops).recorded)) <==>
            LastNote(ops).Some? && i <= LastNote(ops).value
  {
    PutBackRefusedIff(c, ops, After(c, ops[..i]).text);
    LastNoteIs(ops);
    if LastNote(ops).Some? {
      var r := LastNote(ops).value;
      assert ops[r] in ops;
      LongerIff(c, ops, r, i);
    }
  }

  lemma {:induction false} LongerIff(c: LineCipher, ops: seq<Op>, r: nat, i: nat)
    requires OnlyAppends(ops) && r < |ops| && ops[r].Appending? && i <= |ops|
    ensures |After(c, ops[..i]).text| >= |After(c, ops[..r + 1]).text| <==> r < i
  {
    if r < i {
      AppendsGrowTo(c, ops, r + 1, i);
    } else {
      AppendsGrowTo(c, ops, i, r + 1);
    }
  }

  lemma {:induction false} AppendsGrowTo(c: LineCipher, ops: seq<Op>, i: nat, j: nat)
    requires OnlyAppends(ops) && i <= j <= |ops|
    ensures |After(c, ops[..i]).text| <= |After(c, ops[..j]).text|
    ensures i < j && ops[j - 1].Appending? ==> |After(c, ops[..i]).text| < |After(c, ops[..j]).text|
  {
    var part := ops[..j];
    forall op | op in part ensures op in ops {
    }
    assert part[..i] == ops[..i];
    assert j > 0 ==> part[j - 1] == ops[j - 1];
    AppendsGrow(c, part, i);
  }

  /** A log that was rewritten: the copy from before loads again, with the lines the
      rewrite removed, if and only if the log is in no record or the rewrite did not
      make it longer. */
  lemma {:induction false} CopyBeforeRewriteLoadsIff(c: LineCipher, ops: seq<Op>, items: seq<Item>)
    requires Ideal(c) && Honest(c, ops)
    ensures var older := File(After(c, ops).text, RewriteAndNote(c, After(c, ops), items).recorded);
            && (Load(c, older).Ok? <==> !Listed(ops) || |Written(c, items)| <= |After(c, ops).text|)
            && (Load(c, older).Ok? ==> Load(c, older).value == Contents(c, ops))
  {
    RunReads(c, ops);
    ListedIff(c, ops);
  }

  /** One line, then a rewrite that leaves a shorter one saying it is gone: put back,
      the line is there again. */
  lemma {:induction false} RemovedLineLoadsAgain(c: LineCipher, plain: Bytes, gone: Bytes)
    requires Ideal(c) && c.parses(plain) && c.parses(gone) && |c.seal(0, gone)| <= |c.seal(0, plain)|
    ensures var before := After(c, [Appending(plain)]);
            var after := RewriteAndNote(c, before, [Readable(gone)]);
            && Load(c, after) == Ok([Readable(gone)])
            && Load(c, File(before.text, after.recorded)) == Ok([Readable(plain)])
  {
    var ops := [Appending(plain)];
    assert ops[..0] == [] && [Readable(gone)][..0] == [];
    assert After(c, ops) == AppendAndNote(c, File([], None), plain);
    AppendReads(c, [], plain);
    assert Read(c, []) == [] && [] + [Readable(plain)] == [Readable(plain)];
    RewriteReads(c, [Readable(gone)]);
    assert Written(c, []) == [];
    assert |Written(c, [Readable(gone)])| == |c.seal(0, gone)| + 1;
  }

  // --- a log in no record ----------------------------------------------------------------------------

  /** A run on a log already there, as one an adoption moved and did not record is. */
  function From(c: LineCipher, f: File, ops: seq<Op>): File {
    if ops == [] then f else Step(c, From(c, f, ops[..|ops| - 1]), ops[|ops| - 1])
  }

  /** A log in no record stays out of it through every rewrite, until an append to it is
      finished; and as long as it is out, whatever is put in its place is read. */
  lemma {:induction false} UnlistedUntilAppendIff(c: LineCipher, f: File, ops: seq<Op>)
    requires f.recorded.None?
    ensures From(c, f, ops).recorded.None? <==> !Listed(ops)
    ensures !Listed(ops) ==> forall text :: Load(c, File(text, From(c, f, ops).recorded)) == Ok(Read(c, text))
  {
    if ops != [] {
      UnlistedUntilAppendIff(c, f, ops[..|ops| - 1]);
      ListedSnoc(ops);
    }
  }

  /** So a log whose first append was cut off before it was recorded, and which has been
      rewritten since, can be cut to nothing and loads. */
  lemma {:induction false} UnlistedEmptiedLoads(c: LineCipher, plain: Bytes, items: seq<Item>)
    ensures var ops := [AppendCut(plain, |Added(c, [], plain)|), Rewriting(items)];
            After(c, ops).text == Written(c, items) && Load(c, File([], After(c, ops).recorded)) == Ok([])
  {
    var ops := [AppendCut(plain, |Added(c, [], plain)|), Rewriting(items)];
    assert ops[..1] == [ops[0]];
    assert After(c, ops) == Step(c, After(c, ops[..1]), ops[1]);
    ListedIff(c, ops);
    assert Read(c, []) == [];
  }
}
