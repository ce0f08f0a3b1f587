/** The history file and the loops that read and rewrite it. */
module HistoryStore {
  import opened Wrappers
  import opened History
  import opened HistoryTheorems

  function UpdatesOf(lines: seq<Stored>): seq<Stored> {
    if lines == [] then []
    else
      var before, last := UpdatesOf(lines[..|lines| - 1]), lines[|lines| - 1];
      if last.Parsed? && !last.line.EntryLine? then before + [last] else before
  }

  lemma {:induction false} UpdatesSuffice(es: seq<Entry>, lines: seq<Stored>, c: Conversation)
    ensures Updated(es, UpdatesOf(lines), c) == Updated(es, lines, c)
  {
    if lines != [] {
      var init, last := lines[..|lines| - 1], lines[|lines| - 1];
      UpdatesSuffice(es, init, c);
      if last.Parsed? && !last.line.EntryLine? {
        UpdatedOneMore(es, UpdatesOf(init), last, c);
      }
    }
  }

  lemma {:induction false} EachAt(es: seq<Entry>, f: Entry -> Entry, i: nat)
    requires i < |es|
    ensures Each(es, f)[i] == f(es[i])
  {
    if i < |es| - 1 {
      EachAt(es[..|es| - 1], f, i);
    }
  }

  method ApplyEach(es: seq<Entry>, f: Entry -> Entry) returns (r: seq<Entry>)
    ensures r == Each(es, f)
  {
    r := es;
    for i := 0 to |es|
      invariant |r| == |es|
      invariant forall j | 0 <= j < |es| :: r[j] == if j < i then f(es[j]) else es[j]
    {
      r := r[i := f(r[i])];
    }
    forall j | 0 <= j < |es| ensures r[j] == Each(es, f)[j] {
      EachAt(es, f, j);
    }
  }

  method ApplyKeep(es: seq<Entry>, p: Entry -> bool) returns (r: seq<Entry>)
    ensures r == Keep(es, p)
  {
    r := [];
    var i := 0;
    while i < |es|
      invariant i <= |es| && r == Keep(es[..i], p)
    {
      assert es[..i + 1][..i] == es[..i];
      if p(es[i]) {
        r := r + [es[i]];
      }
      i := i + 1;
    }
    assert es[..i] == es;
  }

  /** From the end back to the latest entry with `id`. */
  method ApplyRevise(es: seq<Entry>, id: Id, f: Entry -> Entry) returns (r: seq<Entry>)
    ensures r == Revise(es, id, f)
  {
    var i := |es|;
    assert es[..i] == es;
    while i > 0
      invariant i <= |es| && Revise(es, id, f) == Revise(es[..i], id, f) + es[i..]
    {
      i := i - 1;
      assert es[..i + 1][..i] == es[..i];
      if es[i].id == id {
        if es[i].deleted {
          assert es == es[..i] + [es[i]] + es[i + 1..];
          return es;
        }
        assert es[i := f(es[i])] == es[..i] + [f(es[i])] + es[i + 1..];
        return es[i := f(es[i])];
      }
      assert [es[i]] + es[i + 1..] == es[i..];
    }
    return es;
  }

  method ApplyUpdate(es: seq<Entry>, u: Line, c: Conversation) returns (r: seq<Entry>)
    ensures r == Update(es, u, c)
  {
    if Revises(u) {
      r := ApplyRevise(es, Subject(u), Revision(u, c));
    } else if u.ReceiptLine? {
      r := ApplyEach(es, Receipted(u.receipt, u.ids));
    } else if u.ReadLine? {
      r := ApplyEach(es, Shown(u.read, u.at));
    } else if u.GoneLine? {
      r := ApplyKeep(es, Survives(u.gone, u.from, c));
    } else {
      r := es;
    }
  }

  /** The entry lines first, then the update lines in their order. */
  method LoadLines(lines: seq<Stored>, c: Conversation) returns (entries: seq<Entry>)
    ensures entries == Load(lines, c)
  {
    entries := [];
    var updates: seq<Stored> := [];
    var i := 0;
    while i < |lines|
      invariant i <= |lines|
      invariant entries == EntriesOf(lines[..i]) && updates == UpdatesOf(lines[..i])
    {
      assert lines[..i + 1][..i] == lines[..i];
      if lines[i].Parsed? {
        if lines[i].line.EntryLine? {
          entries := entries + [lines[i].line.entry];
        } else {
          updates := updates + [lines[i]];
        }
      }
      i := i + 1;
    }
    assert lines[..i] == lines;
    ghost var es := entries;
    i := 0;
    while i < |updates|
      invariant i <= |updates| && entries == Updated(es, updates[..i], c)
    {
      assert updates[..i + 1][..i] == updates[..i];
      if updates[i].Parsed? {
        entries := ApplyUpdate(entries, updates[i].line, c);
      }
      i := i + 1;
    }
    assert updates[..i] == updates;
    UpdatesSuffice(es, lines, c);
  }

  function In(ids: seq<Id>): Entry -> bool {
    (e: Entry) => e.id in ids
  }

  /** One conversation's file, or none yet. */
  class Log {
    const conversation: Conversation
    var file: Option<seq<Stored>>

    constructor (conversation: Conversation)
      ensures this.conversation == conversation && file == None
    {
      this.conversation := conversation;
      file := None;
    }

    /** What is in the file; a missing one reads as empty. */
    function Lines(): seq<Stored>
      reads this
    {
      if file.None? then [] else file.value
    }

    method Append(line: Line)
      modifies this
      ensures file == Some(Step(old(Lines()), Op.Append(line), conversation))
    {
      file := Some(Lines() + [Parsed(line)]);
    }

    /** Removes the messages `ids` and says what they were. A conversation
        without a file is left without one. */
    method RemoveMessages(ids: seq<Id>) returns (removed: seq<Entry>)
      modifies this
      ensures removed == Keep(Load(old(Lines()), conversation), In(ids))
      ensures file == if old(file).None? then None else Some(Removed(old(Lines()), ids))
      ensures Load(Lines(), conversation) == Keep(Load(old(Lines()), conversation), NotIn(ids))
    {
      if file.None? {
        return [];
      }
      var before := LoadLines(file.value, conversation);
      removed := ApplyKeep(before, In(ids));
      var lines, out, i := file.value, [], 0;
      while i < |lines|
        invariant i <= |lines| && out == StripAll(lines[..i], ids)
      {
        assert lines[..i + 1][..i] == lines[..i];
        var stripped := Strip(lines[i], ids);
        if stripped.Some? {
          out := out + [stripped.value];
        }
        i := i + 1;
      }
      assert lines[..i] == lines;
      i := 0;
      while i < |ids|
        invariant i <= |ids| && out == StripAll(lines, ids) + Tombstones(ids[..i])
      {
        assert ids[..i + 1][..i] == ids[..i];
        out := out + [Parsed(GoneLine(ids[i], None))];
        i := i + 1;
      }
      assert ids[..i] == ids;
      file := Some(out);
      LoadAfterRemove(lines, ids, conversation);
    }

    /** Deletes for everyone those of `ids` that `from` wrote, in one pass. */
    method MarkAllDeleted(ids: seq<Id>, from: Option<UserId>) returns (outcomes: seq<Deletion>)
      modifies this
      ensures |outcomes| == |ids|
      ensures forall i | 0 <= i < |ids| :: outcomes[i] == Outcome(old(Lines()), ids[i], from, conversation)
      ensures Lines() == MarkedDeleted(old(Lines()), ids, from, conversation)
      ensures Load(Lines(), conversation) ==
              Each(Load(old(Lines()), conversation), Blank(Going(old(Lines()), ids, from, conversation)))
    {
      var lines := Lines();
      LoadAfterMarkDeleted(lines, ids, from, conversation);
      outcomes := [];
      var going, i := [], 0;
      while i < |ids|
        invariant i <= |ids| && |outcomes| == i
        invariant forall k | 0 <= k < i :: outcomes[k] == Outcome(lines, ids[k], from, conversation)
        invariant going == Going(lines, ids[..i], from, conversation)
      {
        assert ids[..i + 1][..i] == ids[..i];
        var outcome := Outcome(lines, ids[i], from, conversation);
        outcomes := outcomes + [outcome];
        if outcome == Applied {
          going := going + [ids[i]];
        }
        i := i + 1;
      }
      assert ids[..i] == ids;
      if going == [] {
        return;
      }
      var out := [];
      i := 0;
      while i < |lines|
        invariant i <= |lines| && out == EraseAll(lines[..i], going)
      {
        assert lines[..i + 1][..i] == lines[..i];
        var erased := Erase(lines[i], going);
        if erased.Some? {
          out := out + [erased.value];
        }
        i := i + 1;
      }
      assert lines[..i] == lines;
      file := Some(out);
    }
  }
}
