/**
 A conversation's log (`store.rs`): entries and later lines that update them,
 read back by a fold that takes the entries first, and rewritten when messages
 are removed or deleted for everyone.
 */
module History {
  import opened Wrappers

  type Id = string
  type UserId = string

  datatype Direction = Outgoing | Incoming

  datatype Receipt = Delivered | ReadByPeer

  /** `r < s` in the derived order. */
  predicate Below(r: Receipt, s: Receipt) {
    r.Delivered? && s.ReadByPeer?
  }

  datatype Reaction = Reaction(from: Option<UserId>, emoji: string)

  datatype Entry = Entry(
    id: Id,
    direction: Direction,
    timestamp: nat,
    text: string,
    receipt: Option<Receipt>,
    file: Option<string>,
    saved: Option<string>,
    from: Option<UserId>,
    note: Option<bool>,
    replyTo: Option<Id>,
    expireAfter: nat,
    readAt: Option<nat>,
    edited: bool,
    previous: seq<string>,
    deleted: bool,
    reactions: seq<Reaction>)

  datatype Line =
    | EntryLine(entry: Entry)
    | ReceiptLine(receipt: Receipt, ids: seq<Id>, at: nat)
    | TextLine(update: Id, text: string, saved: Option<string>)
    | ReadLine(read: seq<Id>, at: nat)
    | EditLine(edit: Id, text: string, editId: Id, at: nat, from: Option<UserId>)
    | ReactLine(react: Id, from: Option<UserId>, emoji: string)
    | GoneLine(gone: Id, from: Option<UserId>)

  /** A line of the file as read: understood, or kept as it is. */
  datatype Stored = Parsed(line: Line) | Raw(text: string)

  datatype Conversation = Contact(peer: UserId) | Group(group: string)

  function AuthorOf(e: Entry, c: Conversation): Option<UserId> {
    if e.from.Some? then e.from
    else if c.Contact? && e.direction.Incoming? then Some(c.peer)
    else None
  }

  // --- three ways an update acts on the entries ------------------------------------

  function Each(es: seq<Entry>, f: Entry -> Entry): (r: seq<Entry>)
    ensures |r| == |es|
  {
    if es == [] then [] else Each(es[..|es| - 1], f) + [f(es[|es| - 1])]
  }

  function Keep(es: seq<Entry>, p: Entry -> bool): seq<Entry> {
    if es == [] then []
    else
      var kept, last := Keep(es[..|es| - 1], p), es[|es| - 1];
      if p(last) then kept + [last] else kept
  }

  /** `f` of the latest entry with `id`, unless that is deleted for everyone. */
  function Revise(es: seq<Entry>, id: Id, f: Entry -> Entry): seq<Entry> {
    if es == [] then []
    else
      var init, last := es[..|es| - 1], es[|es| - 1];
      if last.id == id then init + [if last.deleted then last else f(last)] else Revise(init, id, f) + [last]
  }

  function Receipted(receipt: Receipt, ids: seq<Id>): Entry -> Entry {
    (e: Entry) =>
      if e.id in ids && (e.receipt.None? || Below(e.receipt.value, receipt)) then e.(receipt := Some(receipt)) else e
  }

  function Shown(ids: seq<Id>, at: nat): Entry -> Entry {
    (e: Entry) => if e.id in ids && e.readAt.None? then e.(readAt := Some(at)) else e
  }

  function Retexted(text: string, saved: Option<string>): Entry -> Entry {
    (e: Entry) => e.(text := text, saved := if saved.Some? then saved else e.saved)
  }

  function Edited(text: string, from: Option<UserId>, c: Conversation): Entry -> Entry {
    (e: Entry) =>
      if AuthorOf(e, c) == from then e.(text := text, previous := e.previous + [e.text], edited := true) else e
  }

  function Reacted(from: Option<UserId>, emoji: string): Entry -> Entry {
    (e: Entry) =>
      e.(reactions := NotFrom(e.reactions, from) + if emoji == "" then [] else [Reaction(from, emoji)])
  }

  function NotFrom(rs: seq<Reaction>, from: Option<UserId>): seq<Reaction> {
    if rs == [] then [] else (if rs[0].from == from then [] else [rs[0]]) + NotFrom(rs[1..], from)
  }

  function Survives(gone: Id, from: Option<UserId>, c: Conversation): Entry -> bool {
    (e: Entry) => e.id != gone || (from.Some? && AuthorOf(e, c) != from)
  }

  /** A new text, an edit or a reaction: what a deleted message is past. */
  predicate Revises(u: Line) {
    u.TextLine? || u.EditLine? || u.ReactLine?
  }

  function Subject(u: Line): Id
    requires Revises(u)
  {
    match u
    case TextLine(id, _, _) => id
    case EditLine(id, _, _, _, _) => id
    case ReactLine(id, _, _) => id
  }

  function Revision(u: Line, c: Conversation): Entry -> Entry
    requires Revises(u)
  {
    match u
    case TextLine(_, text, saved) => Retexted(text, saved)
    case EditLine(_, text, _, _, from) => Edited(text, from, c)
    case ReactLine(_, from, emoji) => Reacted(from, emoji)
  }

  function Update(es: seq<Entry>, u: Line, c: Conversation): seq<Entry> {
    if Revises(u) then Revise(es, Subject(u), Revision(u, c))
    else match u
         case ReceiptLine(receipt, ids, _) => Each(es, Receipted(receipt, ids))
         case ReadLine(ids, at) => Each(es, Shown(ids, at))
         case GoneLine(id, from) => Keep(es, Survives(id, from, c))
         case _ => es
  }

  // --- loading -------------------------------------------------------------------------

  function EntriesOf(lines: seq<Stored>): seq<Entry> {
    if lines == [] then []
    else
      var before, last := EntriesOf(lines[..|lines| - 1]), lines[|lines| - 1];
      if last.Parsed? && last.line.EntryLine? then before + [last.line.entry] else before
  }

  /** The entries of `lines`, then every update line applied in order. */
  function Updated(es: seq<Entry>, lines: seq<Stored>, c: Conversation): seq<Entry> {
    if lines == [] then es
    else
      var last := lines[|lines| - 1];
      var before := Updated(es, lines[..|lines| - 1], c);
      if last.Parsed? then Update(before, last.line, c) else before
  }

  function Load(lines: seq<Stored>, c: Conversation): seq<Entry> {
    Updated(EntriesOf(lines), lines, c)
  }

  // --- removing ---------------------------------------------------------------------------

  function Minus(ids: seq<Id>, gone: seq<Id>): seq<Id> {
    if ids == [] then [] else (if ids[0] in gone then [] else [ids[0]]) + Minus(ids[1..], gone)
  }

  /** What `line` becomes when the messages `ids` are removed, if it stays. */
  function Strip(line: Stored, ids: seq<Id>): Option<Stored> {
    if line.Raw? then Some(line)
    else if Revises(line.line) then if Subject(line.line) in ids then None else Some(line)
    else match line.line
         case ReceiptLine(receipt, of, at) =>
           var left := Minus(of, ids);
           if left == [] then None else Some(Parsed(ReceiptLine(receipt, left, at)))
         case ReadLine(of, at) =>
           var left := Minus(of, ids);
           if left == [] then None else Some(Parsed(ReadLine(left, at)))
         case EntryLine(e) => if e.id in ids then None else Some(line)
         case GoneLine(id, _) => if id in ids then None else Some(line)
  }

  function StripAll(lines: seq<Stored>, ids: seq<Id>): seq<Stored> {
    if lines == [] then []
    else
      var before, last := StripAll(lines[..|lines| - 1], ids), Strip(lines[|lines| - 1], ids);
      if last.Some? then before + [last.value] else before
  }

  function Tombstones(ids: seq<Id>): seq<Stored> {
    if ids == [] then [] else Tombstones(ids[..|ids| - 1]) + [Parsed(GoneLine(ids[|ids| - 1], None))]
  }

  /** The file after `remove_messages`. */
  function Removed(lines: seq<Stored>, ids: seq<Id>): seq<Stored> {
    StripAll(lines, ids) + Tombstones(ids)
  }

  // --- deleting for everyone ------------------------------------------------------------------

  datatype Deletion = Applied | Tombstoned | Refused

  /** Who wrote `id`, by the last entry line that has it. */
  function LastAuthor(lines: seq<Stored>, id: Id, c: Conversation): Option<Option<UserId>> {
    if lines == [] then None
    else
      var last := lines[|lines| - 1];
      if last.Parsed? && last.line.EntryLine? && last.line.entry.id == id then Some(AuthorOf(last.line.entry, c))
      else LastAuthor(lines[..|lines| - 1], id, c)
  }

  function Outcome(lines: seq<Stored>, id: Id, from: Option<UserId>, c: Conversation): Deletion {
    match LastAuthor(lines, id, c)
    case None => Tombstoned
    case Some(author) => if author != from then Refused else Applied
  }

  function Going(lines: seq<Stored>, ids: seq<Id>, from: Option<UserId>, c: Conversation): seq<Id> {
    if ids == [] then []
    else
      var before, last := Going(lines, ids[..|ids| - 1], from, c), ids[|ids| - 1];
      if Outcome(lines, last, from, c) == Applied then before + [last] else before
  }

  function Placeholder(e: Entry): Entry {
    e.(text := "", file := None, saved := None, replyTo := None, edited := false, previous := [], reactions := [],
       deleted := true)
  }

  function Blank(ids: seq<Id>): Entry -> Entry {
    (e: Entry) => if e.id in ids then Placeholder(e) else e
  }

  /** What `line` becomes when the messages `going` are deleted. */
  function Erase(line: Stored, going: seq<Id>): Option<Stored> {
    if line.Raw? then Some(line)
    else if Revises(line.line) then if Subject(line.line) in going then None else Some(line)
    else if line.line.EntryLine? then Some(Parsed(EntryLine(Blank(going)(line.line.entry))))
    else Some(line)
  }

  function EraseAll(lines: seq<Stored>, going: seq<Id>): seq<Stored> {
    if lines == [] then []
    else
      var before, last := EraseAll(lines[..|lines| - 1], going), Erase(lines[|lines| - 1], going);
      if last.Some? then before + [last.value] else before
  }

  /** The file after `mark_all_deleted`. */
  function MarkedDeleted(lines: seq<Stored>, ids: seq<Id>, from: Option<UserId>, c: Conversation): seq<Stored> {
    var going := Going(lines, ids, from, c);
    if going == [] then lines else EraseAll(lines, going)
  }
}
