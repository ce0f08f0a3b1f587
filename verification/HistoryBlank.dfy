/** When a message deleted for everyone shows as more than a placeholder again. */
module HistoryBlank {
  import opened Wrappers
  import opened History
  import opened HistoryTheorems

  // --- what loading leaves of one author's entries ---------------------------------------------

  /** An entry of `id`, by `author`, that is more than a placeholder. */
  predicate Bare(e: Entry, id: Id, author: Option<UserId>, c: Conversation) {
    e.id == id && !IsPlaceholder(e) && AuthorOf(e, c) == author
  }

  /** There is one among `es`. */
  predicate BareBy(es: seq<Entry>, id: Id, author: Option<UserId>, c: Conversation) {
    es != [] && (BareBy(es[..|es| - 1], id, author, c) || Bare(es[|es| - 1], id, author, c))
  }

  /** A tombstone that takes away what `author` wrote as `id`. */
  predicate Buries(line: Stored, id: Id, author: Option<UserId>) {
    line.Parsed? && line.line.GoneLine? && line.line.gone == id && (line.line.from.None? || line.line.from == author)
  }

  predicate BuriedBy(lines: seq<Stored>, id: Id, author: Option<UserId>) {
    lines != [] && (BuriedBy(lines[..|lines| - 1], id, author) || Buries(lines[|lines| - 1], id, author))
  }

  /** `f` changes neither whose an entry is nor whether it is a placeholder. */
  predicate Harmless(f: Entry -> Entry, e: Entry, c: Conversation) {
    f(e).id == e.id && AuthorOf(f(e), c) == AuthorOf(e, c) && IsPlaceholder(f(e)) == IsPlaceholder(e)
  }

  lemma {:induction false} EachBare(es: seq<Entry>, f: Entry -> Entry, id: Id, author: Option<UserId>, c: Conversation)
    requires forall e | e in es :: Harmless(f, e, c)
    ensures BareBy(Each(es, f), id, author, c) <==> BareBy(es, id, author, c)
  {
    if es != [] {
      EachBare(es[..|es| - 1], f, id, author, c);
      assert Harmless(f, es[|es| - 1], c);
    }
  }

  lemma {:induction false} ReviseBare(es: seq<Entry>, of: Id, f: Entry -> Entry, id: Id, author: Option<UserId>,
                                      c: Conversation)
    requires forall e | e in es && !e.deleted :: Harmless(f, e, c)
    ensures BareBy(Revise(es, of, f), id, author, c) <==> BareBy(es, id, author, c)
  {
    if es != [] {
      var init, last := es[..|es| - 1], es[|es| - 1];
      ReviseBare(init, of, f, id, author, c);
      var r := Revise(es, of, f);
      assert r[..|r| - 1] == if last.id == of then init else Revise(init, of, f);
    }
  }

  lemma {:induction false} KeepBare(es: seq<Entry>, p: Entry -> bool, id: Id, author: Option<UserId>, c: Conversation,
                                    kept: bool)
    requires forall e | e in es && Bare(e, id, author, c) :: p(e) == kept
    ensures BareBy(Keep(es, p), id, author, c) <==> kept && BareBy(es, id, author, c)
  {
    if es != [] {
      var init, last := es[..|es| - 1], es[|es| - 1];
      KeepBare(init, p, id, author, c, kept);
      var before := Keep(init, p);
      assert (before + [last])[..|before|] == before;
    }
  }

  lemma {:induction false} RevisionHarmless(u: Line, e: Entry, c: Conversation)
    requires Revises(u) && !e.deleted
    ensures Harmless(Revision(u, c), e, c)
  {
    assert !Revision(u, c)(e).deleted;
  }

  /** One line: an author's entries stay bare unless it is a tombstone over them. */
  lemma {:induction false} UpdateBare(es: seq<Entry>, u: Line, c: Conversation, id: Id, author: Option<UserId>)
    ensures BareBy(Update(es, u, c), id, author, c) <==>
            BareBy(es, id, author, c) && !Buries(Parsed(u), id, author)
  {
    if Revises(u) {
      forall e | e in es && !e.deleted ensures Harmless(Revision(u, c), e, c) {
        RevisionHarmless(u, e, c);
      }
      ReviseBare(es, Subject(u), Revision(u, c), id, author, c);
    } else if u.ReceiptLine? {
      EachBare(es, Receipted(u.receipt, u.ids), id, author, c);
    } else if u.ReadLine? {
      EachBare(es, Shown(u.read, u.at), id, author, c);
    } else if u.GoneLine? {
      KeepBare(es, Survives(u.gone, u.from, c), id, author, c, !Buries(Parsed(u), id, author));
    }
  }

  lemma {:induction false} UpdatedBare(es: seq<Entry>, lines: seq<Stored>, c: Conversation, id: Id, author: Option<UserId>)
    ensures BareBy(Updated(es, lines, c), id, author, c) <==>
            BareBy(es, id, author, c) && !BuriedBy(lines, id, author)
  {
    if lines != [] {
      var init, last := lines[..|lines| - 1], lines[|lines| - 1];
      UpdatedBare(es, init, c, id, author);
      if last.Parsed? {
        UpdateBare(Updated(es, init, c), last.line, c, id, author);
      }
    }
  }

  lemma {:induction false} BareByIs(es: seq<Entry>, id: Id, author: Option<UserId>, c: Conversation)
    ensures BareBy(es, id, author, c) <==> exists e :: e in es && Bare(e, id, author, c)
  {
    if es != [] {
      var init, last := es[..|es| - 1], es[|es| - 1];
      BareByIs(init, id, author, c);
      assert es == init + [last];
      assert forall e :: e in es <==> e in init || e == last;
    }
  }

  lemma {:induction false} BareIs(es: seq<Entry>, id: Id, c: Conversation)
    ensures ShowsErased(es, id) <==> forall author :: !BareBy(es, id, author, c)
  {
    if ShowsErased(es, id) {
      forall author ensures !BareBy(es, id, author, c) {
        BareByIs(es, id, author, c);
      }
    } else {
      var e :| e in es && e.id == id && !IsPlaceholder(e);
      BareByIs(es, id, AuthorOf(e, c), c);
      assert Bare(e, id, AuthorOf(e, c), c);
    }
  }

  /** Of any file: nothing but placeholders shows for an id if and only if every author of
      an entry of it that is more has a tombstone over it, wherever it stands. */
  lemma {:induction false} ShowsErasedIff(lines: seq<Stored>, c: Conversation, id: Id)
    ensures ShowsErased(Load(lines, c), id) <==>
            forall author :: BareBy(EntriesOf(lines), id, author, c) ==> BuriedBy(lines, id, author)
  {
    BareIs(Load(lines, c), id, c);
    if ShowsErased(Load(lines, c), id) {
      forall author | BareBy(EntriesOf(lines), id, author, c) ensures BuriedBy(lines, id, author) {
        UpdatedBare(EntriesOf(lines), lines, c, id, author);
      }
    } else {
      var author :| BareBy(Load(lines, c), id, author, c);
      UpdatedBare(EntriesOf(lines), lines, c, id, author);
    }
  }

  // --- over a run ---------------------------------------------------------------------------------

  /** A removal of the message, or a deletion of it for everyone that is applied. */
  predicate Wipes(lines: seq<Stored>, op: Op, c: Conversation, id: Id) {
    match op
    case Append(_) => false
    case Remove(ids) => id in ids
    case MarkDeleted(ids, from) => id in ids && Outcome(lines, id, from, c) == Applied
  }

  /** Since the run began, `author` has appended an entry of `id`, more than a placeholder,
      that has not been removed or deleted for everyone again. */
  predicate TakenBy(lines: seq<Stored>, ops: seq<Op>, c: Conversation, id: Id, author: Option<UserId>) {
    ops != [] &&
    var before, op := ops[..|ops| - 1], ops[|ops| - 1];
    || (op.Append? && op.line.EntryLine? && Bare(op.line.entry, id, author, c))
    || (TakenBy(lines, before, c, id, author) && !Wipes(After(lines, before, c), op, c, id))
  }

  lemma {:induction false} BlankBare(es: seq<Entry>, going: seq<Id>, id: Id, author: Option<UserId>, c: Conversation)
    ensures BareBy(Each(es, Blank(going)), id, author, c) <==> id !in going && BareBy(es, id, author, c)
  {
    if es != [] {
      BlankBare(es[..|es| - 1], going, id, author, c);
    }
  }

  lemma {:induction false} StepBare(lines: seq<Stored>, op: Op, c: Conversation, id: Id, author: Option<UserId>)
    ensures BareBy(EntriesOf(Step(lines, op, c)), id, author, c) <==>
            || (op.Append? && op.line.EntryLine? && Bare(op.line.entry, id, author, c))
            || (BareBy(EntriesOf(lines), id, author, c) && !Wipes(lines, op, c, id))
  {
    var es := EntriesOf(lines);
    match op
    case Append(line) =>
      EntriesOneMore(lines, Parsed(line));
      if line.EntryLine? {
        assert (es + [line.entry])[..|es|] == es;
      }
    case Remove(ids) =>
      StripEntries(lines, ids);
      OnlyTombstones(StripAll(lines, ids), ids);
      KeepBare(es, NotIn(ids), id, author, c, id !in ids);
    case MarkDeleted(ids, from) =>
      var going := Going(lines, ids, from, c);
      GoingAreApplied(lines, ids, from, c);
      if going != [] {
        EraseEntries(lines, going);
        BlankBare(es, going, id, author, c);
      }
  }

  lemma {:induction false} RunBare(lines: seq<Stored>, ops: seq<Op>, c: Conversation, id: Id, author: Option<UserId>)
    requires Erased(lines, id)
    ensures BareBy(EntriesOf(After(lines, ops, c)), id, author, c) <==> TakenBy(lines, ops, c, id, author)
  {
    if ops == [] {
      BareIs(EntriesOf(lines), id, c);
    } else {
      RunBare(lines, ops[..|ops| - 1], c, id, author);
      StepBare(After(lines, ops[..|ops| - 1], c), ops[|ops| - 1], c, id, author);
    }
  }

  /** Once a message is deleted for everyone, and whatever follows: nothing but placeholders
      shows for it if and only if everyone who has since appended an entry of its id, more
      than a placeholder and not removed or deleted again, has a tombstone over what they
      wrote. */
  lemma {:induction false} DeletedStaysBlankIff(lines: seq<Stored>, ids: seq<Id>, from: Option<UserId>, ops: seq<Op>,
                                                c: Conversation, id: Id)
    requires id in ids && Outcome(lines, id, from, c) == Applied
    ensures var start := MarkedDeleted(lines, ids, from, c);
            ShowsErased(Load(After(start, ops, c), c), id) <==>
            forall author :: TakenBy(start, ops, c, id, author) ==> BuriedBy(After(start, ops, c), id, author)
  {
    var start, going := MarkedDeleted(lines, ids, from, c), Going(lines, ids, from, c);
    GoingAreApplied(lines, ids, from, c);
    assert id in going;
    EraseEntries(lines, going);
    BlankErases(EntriesOf(lines), going, id);
    ShowsErasedIff(After(start, ops, c), c, id);
    forall author: Option<UserId>
      ensures BareBy(EntriesOf(After(start, ops, c)), id, author, c) <==> TakenBy(start, ops, c, id, author)
    {
      RunBare(start, ops, c, id, author);
    }
  }
}
