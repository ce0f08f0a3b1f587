/** What removing and deleting mean for the conversation as it is shown. */
module HistoryTheorems {
  import opened Wrappers
  import opened History

  // --- one entry more ------------------------------------------------------------------

  lemma {:induction false} EachOneMore(es: seq<Entry>, e: Entry, f: Entry -> Entry)
    ensures Each(es + [e], f) == Each(es, f) + [f(e)]
  {
    assert (es + [e])[..|es|] == es;
  }

  lemma {:induction false} KeepOneMore(es: seq<Entry>, e: Entry, p: Entry -> bool)
    ensures Keep(es + [e], p) == if p(e) then Keep(es, p) + [e] else Keep(es, p)
  {
    assert (es + [e])[..|es|] == es;
  }

  lemma {:induction false} ReviseOneMore(es: seq<Entry>, e: Entry, id: Id, f: Entry -> Entry)
    ensures Revise(es + [e], id, f) ==
            if e.id == id then es + [if e.deleted then e else f(e)] else Revise(es, id, f) + [e]
  {
    assert (es + [e])[..|es|] == es;
  }

  lemma {:induction false} EntriesOneMore(ls: seq<Stored>, l: Stored)
    ensures EntriesOf(ls + [l]) == if l.Parsed? && l.line.EntryLine? then EntriesOf(ls) + [l.line.entry] else EntriesOf(ls)
  {
    assert (ls + [l])[..|ls|] == ls;
  }

  lemma {:induction false} UpdatedOneMore(es: seq<Entry>, ls: seq<Stored>, l: Stored, c: Conversation)
    ensures Updated(es, ls + [l], c) ==
            if l.Parsed? then Update(Updated(es, ls, c), l.line, c) else Updated(es, ls, c)
  {
    assert (ls + [l])[..|ls|] == ls;
  }

  // --- how the three kinds of update meet a filter and a rewrite ---------------------------

  lemma {:induction false} KeepEach(es: seq<Entry>, f: Entry -> Entry, g: Entry -> Entry, p: Entry -> bool)
    requires forall e | e in es :: p(f(e)) == p(e) && (p(e) ==> f(e) == g(e))
    ensures Keep(Each(es, f), p) == Each(Keep(es, p), g)
  {
    if es != [] {
      var init, last := es[..|es| - 1], es[|es| - 1];
      KeepEach(init, f, g, p);
      KeepOneMore(Each(init, f), f(last), p);
      EachOneMore(Keep(init, p), last, g);
    }
  }

  lemma {:induction false} EachSame(es: seq<Entry>, f: Entry -> Entry)
    requires forall e | e in es :: f(e) == e
    ensures Each(es, f) == es
  {
    if es != [] {
      EachSame(es[..|es| - 1], f);
    }
  }

  lemma {:induction false} KeepKeep(es: seq<Entry>, p: Entry -> bool, q: Entry -> bool)
    ensures Keep(Keep(es, p), q) == Keep(Keep(es, q), p)
  {
    if es != [] {
      var init, last := es[..|es| - 1], es[|es| - 1];
      KeepKeep(init, p, q);
      KeepOneMore(Keep(init, p), last, q);
      KeepOneMore(Keep(init, q), last, p);
    }
  }

  lemma {:induction false} KeepAll(es: seq<Entry>, p: Entry -> bool)
    requires forall e | e in es :: p(e)
    ensures Keep(es, p) == es
  {
    if es != [] {
      KeepAll(es[..|es| - 1], p);
    }
  }

  lemma {:induction false} KeepMembers(es: seq<Entry>, p: Entry -> bool)
    ensures forall e :: e in Keep(es, p) <==> e in es && p(e)
  {
    if es != [] {
      KeepMembers(es[..|es| - 1], p);
    }
  }

  /** A revision of an entry the filter drops does not show. */
  lemma {:induction false} KeepRevisedAway(es: seq<Entry>, id: Id, f: Entry -> Entry, p: Entry -> bool)
    requires forall e | e in es && e.id == id :: !p(e) && !p(f(e))
    ensures Keep(Revise(es, id, f), p) == Keep(es, p)
  {
    if es != [] {
      var init, last := es[..|es| - 1], es[|es| - 1];
      KeepRevisedAway(init, id, f, p);
      if last.id == id {
        KeepOneMore(init, if last.deleted then last else f(last), p);
      } else {
        KeepOneMore(Revise(init, id, f), last, p);
      }
    }
  }

  lemma {:induction false} KeepRevised(es: seq<Entry>, id: Id, f: Entry -> Entry, p: Entry -> bool)
    requires forall e | e in es && e.id == id :: p(e) && p(f(e))
    ensures Keep(Revise(es, id, f), p) == Revise(Keep(es, p), id, f)
  {
    if es != [] {
      var init, last := es[..|es| - 1], es[|es| - 1];
      KeepRevised(init, id, f, p);
      ReviseOneMore(Keep(init, p), last, id, f);
      if last.id == id {
        KeepOneMore(init, if last.deleted then last else f(last), p);
      } else {
        KeepOneMore(Revise(init, id, f), last, p);
      }
    }
  }

  lemma {:induction false} EachEach(es: seq<Entry>, f: Entry -> Entry, g: Entry -> Entry)
    requires forall e | e in es :: f(g(e)) == g(f(e))
    ensures Each(Each(es, f), g) == Each(Each(es, g), f)
  {
    if es != [] {
      var init, last := es[..|es| - 1], es[|es| - 1];
      EachEach(init, f, g);
      EachOneMore(Each(init, f), f(last), g);
      EachOneMore(Each(init, g), g(last), f);
    }
  }

  /** A revision of what is blanked anyway does not show. */
  lemma {:induction false} EachRevisedAway(es: seq<Entry>, id: Id, f: Entry -> Entry, g: Entry -> Entry)
    requires forall e | e in es && e.id == id :: g(f(e)) == g(e)
    ensures Each(Revise(es, id, f), g) == Each(es, g)
  {
    if es != [] {
      var init, last := es[..|es| - 1], es[|es| - 1];
      EachRevisedAway(init, id, f, g);
      if last.id == id {
        EachOneMore(init, if last.deleted then last else f(last), g);
      } else {
        EachOneMore(Revise(init, id, f), last, g);
      }
    }
  }

  lemma {:induction false} EachRevised(es: seq<Entry>, id: Id, f: Entry -> Entry, g: Entry -> Entry)
    requires forall e | e in es :: g(e).id == e.id
    requires forall e | e in es && e.id == id :: g(e) == e && g(f(e)) == f(e)
    ensures Each(Revise(es, id, f), g) == Revise(Each(es, g), id, f)
  {
    if es != [] {
      var init, last := es[..|es| - 1], es[|es| - 1];
      EachRevised(init, id, f, g);
      ReviseOneMore(Each(init, g), g(last), id, f);
      if last.id == id {
        EachOneMore(init, if last.deleted then last else f(last), g);
      } else {
        EachOneMore(Revise(init, id, f), last, g);
      }
    }
  }

  /** Entries that are all deleted for everyone are not revised. */
  lemma {:induction false} ReviseDeleted(es: seq<Entry>, id: Id, f: Entry -> Entry)
    requires forall e | e in es && e.id == id :: e.deleted
    ensures Revise(es, id, f) == es
  {
    if es != [] {
      ReviseDeleted(es[..|es| - 1], id, f);
    }
  }

  // --- removing ------------------------------------------------------------------------------

  function NotIn(ids: seq<Id>): Entry -> bool {
    (e: Entry) => e.id !in ids
  }

  lemma {:induction false} MinusMembers(ids: seq<Id>, gone: seq<Id>)
    ensures forall i :: i in Minus(ids, gone) <==> i in ids && i !in gone
  {
    if ids != [] {
      MinusMembers(ids[1..], gone);
    }
  }

  /** One update, filtered, is the stripped update of what the filter keeps. */
  lemma {:induction false} StripCommutes(es: seq<Entry>, line: Line, ids: seq<Id>, c: Conversation)
    ensures Keep(Update(es, line, c), NotIn(ids)) == UpdateIf(Keep(es, NotIn(ids)), Strip(Parsed(line), ids), c)
  {
    if Revises(line) {
      RevisionStripped(es, line, ids, c);
    } else if line.ReceiptLine? {
      ReceiptStripped(es, line, ids, c);
    } else if line.ReadLine? {
      ReadStripped(es, line, ids, c);
    } else if line.GoneLine? {
      GoneStripped(es, line, ids, c);
    }
  }

  lemma {:induction false} RevisionStripped(es: seq<Entry>, line: Line, ids: seq<Id>, c: Conversation)
    requires Revises(line)
    ensures Keep(Update(es, line, c), NotIn(ids)) == UpdateIf(Keep(es, NotIn(ids)), Strip(Parsed(line), ids), c)
  {
    RevisionKeepsId(line, c);
    ReviseCommutes(es, Subject(line), Revision(line, c), ids);
  }

  function UpdateIf(es: seq<Entry>, line: Option<Stored>, c: Conversation): seq<Entry> {
    if line.Some? && line.value.Parsed? then Update(es, line.value.line, c) else es
  }

  lemma {:induction false} ReceiptStripped(es: seq<Entry>, line: Line, ids: seq<Id>, c: Conversation)
    requires line.ReceiptLine?
    ensures Keep(Update(es, line, c), NotIn(ids)) == UpdateIf(Keep(es, NotIn(ids)), Strip(Parsed(line), ids), c)
  {
    ReceiptCommutes(es, line.receipt, line.ids, ids);
  }

  lemma {:induction false} ReceiptCommutes(es: seq<Entry>, receipt: Receipt, of: seq<Id>, ids: seq<Id>)
    ensures var left := Minus(of, ids);
            Keep(Each(es, Receipted(receipt, of)), NotIn(ids)) ==
            if left == [] then Keep(es, NotIn(ids)) else Each(Keep(es, NotIn(ids)), Receipted(receipt, left))
  {
    var left := Minus(of, ids);
    MinusMembers(of, ids);
    KeepEach(es, Receipted(receipt, of), Receipted(receipt, left), NotIn(ids));
    if left == [] {
      EachSame(Keep(es, NotIn(ids)), Receipted(receipt, left));
    }
  }

  lemma {:induction false} ReadStripped(es: seq<Entry>, line: Line, ids: seq<Id>, c: Conversation)
    requires line.ReadLine?
    ensures Keep(Update(es, line, c), NotIn(ids)) == UpdateIf(Keep(es, NotIn(ids)), Strip(Parsed(line), ids), c)
  {
    ReadCommutes(es, line.read, line.at, ids);
  }

  lemma {:induction false} ReadCommutes(es: seq<Entry>, of: seq<Id>, at: nat, ids: seq<Id>)
    ensures var left := Minus(of, ids);
            Keep(Each(es, Shown(of, at)), NotIn(ids)) ==
            if left == [] then Keep(es, NotIn(ids)) else Each(Keep(es, NotIn(ids)), Shown(left, at))
  {
    var left := Minus(of, ids);
    MinusMembers(of, ids);
    KeepEach(es, Shown(of, at), Shown(left, at), NotIn(ids));
    if left == [] {
      EachSame(Keep(es, NotIn(ids)), Shown(left, at));
    }
  }

  lemma {:induction false} GoneStripped(es: seq<Entry>, line: Line, ids: seq<Id>, c: Conversation)
    requires line.GoneLine?
    ensures Keep(Update(es, line, c), NotIn(ids)) == UpdateIf(Keep(es, NotIn(ids)), Strip(Parsed(line), ids), c)
  {
    var p := Survives(line.gone, line.from, c);
    KeepKeep(es, p, NotIn(ids));
    if line.gone in ids {
      KeepMembers(es, NotIn(ids));
      KeepAll(Keep(es, NotIn(ids)), p);
    }
  }

  lemma {:induction false} RevisionKeepsId(u: Line, c: Conversation)
    requires Revises(u)
    ensures forall e :: Revision(u, c)(e).id == e.id
  {
  }

  lemma {:induction false} ReviseCommutes(es: seq<Entry>, id: Id, f: Entry -> Entry, ids: seq<Id>)
    requires forall e | e in es :: f(e).id == e.id
    ensures Keep(Revise(es, id, f), NotIn(ids)) ==
            if id in ids then Keep(es, NotIn(ids)) else Revise(Keep(es, NotIn(ids)), id, f)
  {
    if id in ids {
      KeepRevisedAway(es, id, f, NotIn(ids));
    } else {
      KeepRevised(es, id, f, NotIn(ids));
    }
  }

  lemma {:induction false} StripKeepsKind(line: Stored, ids: seq<Id>)
    requires !(line.Parsed? && line.line.EntryLine?)
    ensures Strip(line, ids).Some? ==> !(Strip(line, ids).value.Parsed? && Strip(line, ids).value.line.EntryLine?)
  {
  }

  lemma {:induction false} StripEntries(lines: seq<Stored>, ids: seq<Id>)
    ensures EntriesOf(StripAll(lines, ids)) == Keep(EntriesOf(lines), NotIn(ids))
  {
    if lines != [] {
      var init, last := lines[..|lines| - 1], lines[|lines| - 1];
      StripEntries(init, ids);
      if last.Parsed? && last.line.EntryLine? {
        EntriesOneMore(StripAll(init, ids), last);
        KeepOneMore(EntriesOf(init), last.line.entry, NotIn(ids));
      } else {
        StripKeepsKind(last, ids);
        var stripped := Strip(last, ids);
        if stripped.Some? {
          EntriesOneMore(StripAll(init, ids), stripped.value);
        }
      }
    }
  }

  lemma {:induction false} StripUpdates(es: seq<Entry>, lines: seq<Stored>, ids: seq<Id>, c: Conversation)
    ensures Updated(Keep(es, NotIn(ids)), StripAll(lines, ids), c) == Keep(Updated(es, lines, c), NotIn(ids))
  {
    if lines != [] {
      var init, last := lines[..|lines| - 1], lines[|lines| - 1];
      StripUpdates(es, init, ids, c);
      var stripped := Strip(last, ids);
      if stripped.Some? {
        UpdatedOneMore(Keep(es, NotIn(ids)), StripAll(init, ids), stripped.value, c);
      }
      if last.Parsed? {
        StripCommutes(Updated(es, init, c), last.line, ids, c);
      }
    }
  }

  lemma {:induction false} TombstoneChangesNothing(es: seq<Entry>, lines: seq<Stored>, id: Id, c: Conversation)
    requires forall e | e in Updated(es, lines, c) :: e.id != id
    ensures Updated(es, lines + [Parsed(GoneLine(id, None))], c) == Updated(es, lines, c)
    ensures EntriesOf(lines + [Parsed(GoneLine(id, None))]) == EntriesOf(lines)
  {
    EntriesOneMore(lines, Parsed(GoneLine(id, None)));
    UpdatedOneMore(es, lines, Parsed(GoneLine(id, None)), c);
    KeepAll(Updated(es, lines, c), Survives(id, None, c));
  }

  lemma {:induction false} TombstonesChangeNothing(es: seq<Entry>, lines: seq<Stored>, ids: seq<Id>, c: Conversation)
    requires forall e | e in Updated(es, lines, c) :: e.id !in ids
    ensures Updated(es, lines + Tombstones(ids), c) == Updated(es, lines, c)
    ensures EntriesOf(lines + Tombstones(ids)) == EntriesOf(lines)
  {
    if ids == [] {
      assert lines + Tombstones(ids) == lines;
    } else {
      var init, last := ids[..|ids| - 1], ids[|ids| - 1];
      assert last in ids && forall i | i in init :: i in ids;
      TombstonesChangeNothing(es, lines, init, c);
      TombstoneChangesNothing(es, lines + Tombstones(init), last, c);
      assert lines + Tombstones(ids) == (lines + Tombstones(init)) + [Parsed(GoneLine(last, None))];
    }
  }

  /** Loading after a removal is loading before it, without those messages. */
  lemma {:induction false} LoadAfterRemove(lines: seq<Stored>, ids: seq<Id>, c: Conversation)
    ensures Load(Removed(lines, ids), c) == Keep(Load(lines, c), NotIn(ids))
  {
    var es := EntriesOf(lines);
    StripEntries(lines, ids);
    StripUpdates(es, lines, ids, c);
    KeepMembers(Updated(es, lines, c), NotIn(ids));
    TombstonesChangeNothing(Keep(es, NotIn(ids)), StripAll(lines, ids), ids, c);
  }

  // --- a removed message stays gone --------------------------------------------------------------

  /** What may happen to the file of a conversation. */
  datatype Op =
    | Append(line: Line)
    | Remove(ids: seq<Id>)
    | MarkDeleted(ids: seq<Id>, from: Option<UserId>)

  function Step(lines: seq<Stored>, op: Op, c: Conversation): seq<Stored> {
    match op
    case Append(line) => lines + [Parsed(line)]
    case Remove(ids) => Removed(lines, ids)
    case MarkDeleted(ids, from) => MarkedDeleted(lines, ids, from, c)
  }

  function After(lines: seq<Stored>, ops: seq<Op>, c: Conversation): seq<Stored> {
    if ops == [] then lines else Step(After(lines, ops[..|ops| - 1], c), ops[|ops| - 1], c)
  }

  predicate Buried(lines: seq<Stored>, id: Id) {
    Parsed(GoneLine(id, None)) in lines
  }

  lemma {:induction false} UpdateAddsNoId(es: seq<Entry>, u: Line, c: Conversation, id: Id)
    requires forall e | e in es :: e.id != id
    ensures forall e | e in Update(es, u, c) :: e.id != id
  {
    if Revises(u) {
      RevisionKeepsId(u, c);
      ReviseAddsNoId(es, Subject(u), Revision(u, c), id);
    } else if u.ReceiptLine? {
      EachAddsNoId(es, Receipted(u.receipt, u.ids), id);
    } else if u.ReadLine? {
      EachAddsNoId(es, Shown(u.read, u.at), id);
    } else if u.GoneLine? {
      KeepMembers(es, Survives(u.gone, u.from, c));
    }
  }

  lemma {:induction false} EachAddsNoId(es: seq<Entry>, f: Entry -> Entry, id: Id)
    requires forall e | e in es :: f(e).id == e.id && e.id != id
    ensures forall e | e in Each(es, f) :: e.id != id
  {
    if es != [] {
      EachAddsNoId(es[..|es| - 1], f, id);
    }
  }

  lemma {:induction false} ReviseAddsNoId(es: seq<Entry>, of: Id, f: Entry -> Entry, id: Id)
    requires forall e | e in es :: f(e).id == e.id && e.id != id
    ensures forall e | e in Revise(es, of, f) :: e.id != id
  {
    if es != [] {
      ReviseAddsNoId(es[..|es| - 1], of, f, id);
    }
  }

  /** A message with a tombstone is not shown, wherever its entries and the
      lines about it stand. */
  lemma {:induction false} BuriedIsNotShown(es: seq<Entry>, lines: seq<Stored>, c: Conversation, id: Id)
    requires Buried(lines, id)
    ensures forall e | e in Updated(es, lines, c) :: e.id != id
  {
    var init, last := lines[..|lines| - 1], lines[|lines| - 1];
    if last == Parsed(GoneLine(id, None)) {
      KeepMembers(Updated(es, init, c), Survives(id, None, c));
    } else {
      assert lines == init + [last];
      BuriedIsNotShown(es, init, c, id);
      if last.Parsed? {
        UpdateAddsNoId(Updated(es, init, c), last.line, c, id);
      }
    }
  }

  lemma {:induction false} StripKeepsBuried(lines: seq<Stored>, ids: seq<Id>, id: Id)
    requires Buried(lines, id) && id !in ids
    ensures Buried(StripAll(lines, ids), id)
  {
    var init, last := lines[..|lines| - 1], lines[|lines| - 1];
    if last != Parsed(GoneLine(id, None)) {
      assert lines == init + [last];
      StripKeepsBuried(init, ids, id);
    }
  }

  lemma {:induction false} TombstonesBury(ids: seq<Id>, id: Id)
    requires id in ids
    ensures Buried(Tombstones(ids), id)
  {
    var init, last := ids[..|ids| - 1], ids[|ids| - 1];
    if last != id {
      assert ids == init + [last];
      TombstonesBury(init, id);
    }
  }

  lemma {:induction false} EraseKeepsBuried(lines: seq<Stored>, going: seq<Id>, id: Id)
    requires Buried(lines, id)
    ensures Buried(EraseAll(lines, going), id)
  {
    var init, last := lines[..|lines| - 1], lines[|lines| - 1];
    if last != Parsed(GoneLine(id, None)) {
      assert lines == init + [last];
      EraseKeepsBuried(init, going, id);
    }
  }

  lemma {:induction false} StepKeepsBuried(lines: seq<Stored>, op: Op, c: Conversation, id: Id)
    requires Buried(lines, id)
    ensures Buried(Step(lines, op, c), id)
  {
    match op
    case Append(line) =>
    case Remove(ids) =>
      if id in ids {
        TombstonesBury(ids, id);
      } else {
        StripKeepsBuried(lines, ids, id);
      }
    case MarkDeleted(ids, from) =>
      EraseKeepsBuried(lines, Going(lines, ids, from, c), id);
  }

  lemma {:induction false} AfterKeepsBuried(lines: seq<Stored>, ops: seq<Op>, c: Conversation, id: Id)
    requires Buried(lines, id)
    ensures Buried(After(lines, ops, c), id)
  {
    if ops != [] {
      AfterKeepsBuried(lines, ops[..|ops| - 1], c, id);
      StepKeepsBuried(After(lines, ops[..|ops| - 1], c), ops[|ops| - 1], c, id);
    }
  }

  /** A removed message never shows again, whatever is appended, removed or
      deleted afterwards, entries of the same id included. */
  lemma {:induction false} RemovedStaysGone(lines: seq<Stored>, ids: seq<Id>, ops: seq<Op>, c: Conversation, id: Id)
    requires id in ids
    ensures forall e | e in Load(After(Removed(lines, ids), ops, c), c) :: e.id != id
  {
    TombstonesBury(ids, id);
    AfterKeepsBuried(Removed(lines, ids), ops, c, id);
    var file := After(Removed(lines, ids), ops, c);
    BuriedIsNotShown(EntriesOf(file), file, c, id);
  }

  // --- deleting for everyone --------------------------------------------------------------------------

  lemma {:induction false} KeepEachOther(es: seq<Entry>, p: Entry -> bool, g: Entry -> Entry)
    requires forall e | e in es :: p(g(e)) == p(e)
    ensures Each(Keep(es, p), g) == Keep(Each(es, g), p)
  {
    KeepEach(es, g, g, p);
  }

  lemma {:induction false} RevisionIsBlanked(u: Line, c: Conversation)
    requires Revises(u)
    ensures forall e :: Placeholder(Revision(u, c)(e)) == Placeholder(e)
  {
  }

  /** One update, then blanked, is what is left of the update after blanking. */
  lemma {:induction false} EraseCommutes(es: seq<Entry>, line: Line, going: seq<Id>, c: Conversation)
    ensures Each(Update(es, line, c), Blank(going)) == UpdateIf(Each(es, Blank(going)), Erase(Parsed(line), going), c)
  {
    if Revises(line) {
      RevisionErased(es, line, going, c);
    } else if line.ReceiptLine? {
      ReceiptErased(es, line, going, c);
    } else if line.ReadLine? {
      ReadErased(es, line, going, c);
    } else if line.GoneLine? {
      GoneErased(es, line, going, c);
    }
  }

  lemma {:induction false} RevisionErased(es: seq<Entry>, line: Line, going: seq<Id>, c: Conversation)
    requires Revises(line)
    ensures Each(Update(es, line, c), Blank(going)) == UpdateIf(Each(es, Blank(going)), Erase(Parsed(line), going), c)
  {
    var f := Revision(line, c);
    RevisionKeepsId(line, c);
    RevisionIsBlanked(line, c);
    if Subject(line) in going {
      EachRevisedAway(es, Subject(line), f, Blank(going));
    } else {
      EachRevised(es, Subject(line), f, Blank(going));
    }
  }

  lemma {:induction false} ReceiptErased(es: seq<Entry>, line: Line, going: seq<Id>, c: Conversation)
    requires line.ReceiptLine?
    ensures Each(Update(es, line, c), Blank(going)) == UpdateIf(Each(es, Blank(going)), Erase(Parsed(line), going), c)
  {
    EachEach(es, Receipted(line.receipt, line.ids), Blank(going));
  }

  lemma {:induction false} ReadErased(es: seq<Entry>, line: Line, going: seq<Id>, c: Conversation)
    requires line.ReadLine?
    ensures Each(Update(es, line, c), Blank(going)) == UpdateIf(Each(es, Blank(going)), Erase(Parsed(line), going), c)
  {
    EachEach(es, Shown(line.read, line.at), Blank(going));
  }

  lemma {:induction false} GoneErased(es: seq<Entry>, line: Line, going: seq<Id>, c: Conversation)
    requires line.GoneLine?
    ensures Each(Update(es, line, c), Blank(going)) == UpdateIf(Each(es, Blank(going)), Erase(Parsed(line), going), c)
  {
    KeepEachOther(es, Survives(line.gone, line.from, c), Blank(going));
  }

  lemma {:induction false} EraseEntries(lines: seq<Stored>, going: seq<Id>)
    ensures EntriesOf(EraseAll(lines, going)) == Each(EntriesOf(lines), Blank(going))
  {
    if lines != [] {
      var init, last := lines[..|lines| - 1], lines[|lines| - 1];
      EraseEntries(init, going);
      if last.Parsed? && last.line.EntryLine? {
        EntriesOneMore(EraseAll(init, going), Parsed(EntryLine(Blank(going)(last.line.entry))));
        EachOneMore(EntriesOf(init), last.line.entry, Blank(going));
      } else {
        EntriesOneMore(EraseAll(init, going), last);
      }
    }
  }

  lemma {:induction false} EraseUpdates(es: seq<Entry>, lines: seq<Stored>, going: seq<Id>, c: Conversation)
    ensures Updated(Each(es, Blank(going)), EraseAll(lines, going), c) == Each(Updated(es, lines, c), Blank(going))
  {
    if lines != [] {
      var init, last := lines[..|lines| - 1], lines[|lines| - 1];
      EraseUpdates(es, init, going, c);
      var erased := Erase(last, going);
      if erased.Some? {
        UpdatedOneMore(Each(es, Blank(going)), EraseAll(init, going), erased.value, c);
      }
      if last.Parsed? {
        EraseCommutes(Updated(es, init, c), last.line, going, c);
      }
    }
  }

  lemma {:induction false} GoingAreApplied(lines: seq<Stored>, ids: seq<Id>, from: Option<UserId>, c: Conversation)
    ensures forall id :: id in Going(lines, ids, from, c) <==> id in ids && Outcome(lines, id, from, c) == Applied
  {
    if ids != [] {
      var init, last := ids[..|ids| - 1], ids[|ids| - 1];
      GoingAreApplied(lines, init, from, c);
      assert ids == init + [last];
    }
  }

  predicate HasEntry(line: Stored, id: Id) {
    line.Parsed? && line.line.EntryLine? && line.line.entry.id == id
  }

  predicate LastEntryAt(lines: seq<Stored>, id: Id, k: nat) {
    k < |lines| && HasEntry(lines[k], id) && forall j | k < j < |lines| :: !HasEntry(lines[j], id)
  }

  lemma {:induction false} LastAuthorAt(lines: seq<Stored>, id: Id, c: Conversation, k: nat)
    requires LastEntryAt(lines, id, k)
    ensures LastAuthor(lines, id, c) == Some(AuthorOf(lines[k].line.entry, c))
  {
    var init := lines[..|lines| - 1];
    if k < |init| {
      assert !HasEntry(lines[|lines| - 1], id);
      forall j | k < j < |init| ensures !HasEntry(init[j], id) {
        assert init[j] == lines[j];
      }
      LastAuthorAt(init, id, c, k);
    }
  }

  lemma {:induction false} NoAuthorIff(lines: seq<Stored>, id: Id, c: Conversation)
    ensures LastAuthor(lines, id, c).None? <==> forall k | 0 <= k < |lines| :: !HasEntry(lines[k], id)
  {
    if lines != [] {
      var init, last := lines[..|lines| - 1], lines[|lines| - 1];
      NoAuthorIff(init, id, c);
      assert forall k | 0 <= k < |init| :: init[k] == lines[k];
      assert lines[|init|] == last;
    }
  }

  /** Who a deletion may delete: an id no entry has is left alone; one that has an
      entry goes exactly when the last of them was written by the one deleting. */
  lemma {:induction false} OutcomeIff(lines: seq<Stored>, id: Id, from: Option<UserId>, c: Conversation)
    ensures Outcome(lines, id, from, c) == Tombstoned <==> forall k | 0 <= k < |lines| :: !HasEntry(lines[k], id)
    ensures forall k: nat | LastEntryAt(lines, id, k) ::
              Outcome(lines, id, from, c) == if AuthorOf(lines[k].line.entry, c) == from then Applied else Refused
  {
    NoAuthorIff(lines, id, c);
    forall k: nat | LastEntryAt(lines, id, k)
      ensures LastAuthor(lines, id, c) == Some(AuthorOf(lines[k].line.entry, c))
    {
      LastAuthorAt(lines, id, c, k);
    }
  }

  /** Loading after a deletion is loading before it with exactly the messages
      the deletion was applied to turned into placeholders, receipts and read
      times kept; one refused or not held changes nothing. */
  lemma {:induction false} LoadAfterMarkDeleted(lines: seq<Stored>, ids: seq<Id>, from: Option<UserId>, c: Conversation)
    ensures Load(MarkedDeleted(lines, ids, from, c), c) == Each(Load(lines, c), Blank(Going(lines, ids, from, c)))
    ensures forall id :: id in Going(lines, ids, from, c) <==> id in ids && Outcome(lines, id, from, c) == Applied
  {
    var going := Going(lines, ids, from, c);
    GoingAreApplied(lines, ids, from, c);
    if going == [] {
      EachSame(Load(lines, c), Blank(going));
    } else {
      EraseEntries(lines, going);
      EraseUpdates(EntriesOf(lines), lines, going, c);
    }
  }

  // --- a placeholder stays one ---------------------------------------------------------------------------

  predicate IsPlaceholder(e: Entry) {
    e == Placeholder(e)
  }

  /** Every entry line of `id` is a placeholder. */
  ghost predicate Erased(lines: seq<Stored>, id: Id) {
    forall e | e in EntriesOf(lines) && e.id == id :: IsPlaceholder(e)
  }

  ghost predicate ShowsErased(es: seq<Entry>, id: Id) {
    forall e | e in es && e.id == id :: IsPlaceholder(e)
  }

  lemma {:induction false} EachKeepsErased(es: seq<Entry>, f: Entry -> Entry, id: Id)
    requires ShowsErased(es, id)
    requires forall e | e in es :: f(e).id == e.id && (IsPlaceholder(e) ==> IsPlaceholder(f(e)))
    ensures ShowsErased(Each(es, f), id)
  {
    if es != [] {
      EachKeepsErased(es[..|es| - 1], f, id);
    }
  }

  lemma {:induction false} ReviseKeepsErased(es: seq<Entry>, of: Id, f: Entry -> Entry, id: Id)
    requires ShowsErased(es, id) && of != id && forall e | e in es :: f(e).id == e.id
    ensures ShowsErased(Revise(es, of, f), id)
  {
    if es != [] {
      ReviseKeepsErased(es[..|es| - 1], of, f, id);
    }
  }

  lemma {:induction false} UpdateKeepsErased(es: seq<Entry>, u: Line, c: Conversation, id: Id)
    requires ShowsErased(es, id)
    ensures ShowsErased(Update(es, u, c), id)
    ensures Revises(u) && Subject(u) == id ==> Update(es, u, c) == es
  {
    if Revises(u) {
      RevisionKeepsId(u, c);
      if Subject(u) == id {
        ReviseDeleted(es, id, Revision(u, c));
      } else {
        ReviseKeepsErased(es, Subject(u), Revision(u, c), id);
      }
    } else if u.ReceiptLine? {
      EachKeepsErased(es, Receipted(u.receipt, u.ids), id);
    } else if u.ReadLine? {
      EachKeepsErased(es, Shown(u.read, u.at), id);
    } else if u.GoneLine? {
      KeepMembers(es, Survives(u.gone, u.from, c));
    }
  }

  lemma {:induction false} LoadShowsErased(es: seq<Entry>, lines: seq<Stored>, c: Conversation, id: Id)
    requires ShowsErased(es, id)
    ensures ShowsErased(Updated(es, lines, c), id)
  {
    if lines != [] {
      var init, last := lines[..|lines| - 1], lines[|lines| - 1];
      LoadShowsErased(es, init, c, id);
      if last.Parsed? {
        UpdateKeepsErased(Updated(es, init, c), last.line, c, id);
      }
    }
  }

  lemma {:induction false} StepKeepsErased(lines: seq<Stored>, op: Op, c: Conversation, id: Id)
    requires Erased(lines, id)
    requires op.Append? && op.line.EntryLine? ==> op.line.entry.id != id
    ensures Erased(Step(lines, op, c), id)
  {
    match op
    case Append(line) => EntriesOneMore(lines, Parsed(line));
    case Remove(ids) =>
      StripEntries(lines, ids);
      KeepMembers(EntriesOf(lines), NotIn(ids));
      OnlyTombstones(StripAll(lines, ids), ids);
    case MarkDeleted(ids, from) =>
      var going := Going(lines, ids, from, c);
      if going != [] {
        EraseEntries(lines, going);
        EachKeepsErased(EntriesOf(lines), Blank(going), id);
      }
  }

  lemma {:induction false} OnlyTombstones(lines: seq<Stored>, ids: seq<Id>)
    ensures EntriesOf(lines + Tombstones(ids)) == EntriesOf(lines)
  {
    if ids == [] {
      assert lines + Tombstones(ids) == lines;
    } else {
      var init, stone := ids[..|ids| - 1], Parsed(GoneLine(ids[|ids| - 1], None));
      OnlyTombstones(lines, init);
      EntriesOneMore(lines + Tombstones(init), stone);
      assert lines + Tombstones(ids) == (lines + Tombstones(init)) + [stone];
    }
  }

  lemma {:induction false} AfterKeepsErased(lines: seq<Stored>, ops: seq<Op>, c: Conversation, id: Id)
    requires Erased(lines, id)
    requires forall k | 0 <= k < |ops| && ops[k].Append? && ops[k].line.EntryLine? :: ops[k].line.entry.id != id
    ensures Erased(After(lines, ops, c), id)
  {
    if ops != [] {
      AfterKeepsErased(lines, ops[..|ops| - 1], c, id);
      StepKeepsErased(After(lines, ops[..|ops| - 1], c), ops[|ops| - 1], c, id);
    }
  }

  /** Once a message is deleted for everyone, nothing that follows shows more
      of it than a placeholder, and a new text, an edit or a reaction for it
      changes nothing at all, as long as no new entry takes its id. */
  lemma {:induction false} DeletedStaysBlank(
    lines: seq<Stored>, ids: seq<Id>, from: Option<UserId>, ops: seq<Op>, c: Conversation, id: Id, u: Line)
    requires id in ids && Outcome(lines, id, from, c) == Applied
    requires forall k | 0 <= k < |ops| && ops[k].Append? && ops[k].line.EntryLine? :: ops[k].line.entry.id != id
    ensures var file := After(MarkedDeleted(lines, ids, from, c), ops, c);
            && ShowsErased(Load(file, c), id)
            && (Revises(u) && Subject(u) == id ==> Load(file + [Parsed(u)], c) == Load(file, c))
  {
    var going := Going(lines, ids, from, c);
    GoingAreApplied(lines, ids, from, c);
    assert id in going;
    EraseEntries(lines, going);
    BlankErases(EntriesOf(lines), going, id);
    AfterKeepsErased(MarkedDeleted(lines, ids, from, c), ops, c, id);
    var file := After(MarkedDeleted(lines, ids, from, c), ops, c);
    LoadShowsErased(EntriesOf(file), file, c, id);
    EntriesOneMore(file, Parsed(u));
    UpdatedOneMore(EntriesOf(file), file, Parsed(u), c);
    UpdateKeepsErased(Load(file, c), u, c, id);
  }

  lemma {:induction false} BlankErases(es: seq<Entry>, going: seq<Id>, id: Id)
    requires id in going
    ensures ShowsErased(Each(es, Blank(going)), id)
  {
    if es != [] {
      BlankErases(es[..|es| - 1], going, id);
    }
  }

  /** An entry that takes the id again does show. */
  lemma NewEntryShows(e: Entry, c: Conversation)
    requires !IsPlaceholder(e)
    ensures var file := [Parsed(EntryLine(Placeholder(e)))];
            Erased(file, e.id) && !ShowsErased(Load(Step(file, Append(EntryLine(e)), c), c), e.id)
  {
    var old_, new_ := Parsed(EntryLine(Placeholder(e))), Parsed(EntryLine(e));
    EntriesOneMore([], old_);
    EntriesOneMore([old_], new_);
    assert [] + [old_] == [old_];
    var es := EntriesOf([old_] + [new_]);
    assert es == [Placeholder(e), e];
    UpdatedOneMore(es, [], old_, c);
    UpdatedOneMore(es, [old_], new_, c);
    assert es[1] == e;
  }
}
