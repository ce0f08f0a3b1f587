/**
 Tailing the relay's log within one connection (`tail.rs`): a state machine
 told what the relay and the contacts say. It holds a lookup's answer back
 until the log is replayed up to the head the answer came with, and decides
 who is to blame where two logs differ.
 */
module Tail {
  import opened Wrappers
  import opened Transparency

  type Peer = nat

  /** A lookup's answer; `ticket` stands for the callers waiting for it. */
  datatype Answer = Answer(
    ticket: nat,
    subject: Hash,
    shown: Shown,
    head: Option<LogHead>,
    devices: seq<DeviceBundle>,
    deviceRevocations: seq<DeviceRevocation>)

  datatype Mode =
    | Advance(target: LogHead, origin: Option<Peer>)
    | Verify(cursor: LogHead, check: LogHead, until: LogHead, peer: Peer, matched: Option<bool>)

  datatype Deferred =
    | DeferredAnswer(answer: Answer)
    | DeferredHead(peer: Peer, head: LogHead)

  datatype Why = NoHead | DoesNotChain | Withholds | Problem(what: Discrepancy)

  /** Frames sent, answers handed on or refused, and events raised. */
  datatype Out =
    | LogSince(index: nat)
    | Settled(answer: Answer)
    | Refused(answer: Answer, why: Why)
    | LookupProblem(who: Hash, what: Discrepancy)
    | Fork(peer: Option<Peer>, at: nat)
    | Withheld(peer: Option<Peer>, index: nat)
    | Rewound(from: nat, to: nat)
    | Synced(head: LogHead)

  /** `log` is `None` where transparency is off: everything passes unchecked. */
  datatype Tail = Tail(log: Option<LogState>, mode: Option<Mode>, deferred: seq<Deferred>, lastSynced: Option<LogHead>)

  datatype Step = Step(tail: Tail, outs: seq<Out>)

  function New(log: Option<LogState>): Tail {
    Tail(log, None, [], if log.Some? && log.value.head.index > 0 then Some(log.value.head) else None)
  }

  function Then(outs: seq<Out>, s: Step): Step {
    Step(s.tail, outs + s.outs)
  }

  function StartAdvance(t: Tail, target: LogHead, origin: Option<Peer>): Step {
    var ours := if t.log.Some? then t.log.value.head else EMPTY;
    Step(t.(mode := Some(Advance(target, origin))), [LogSince(ours.index)])
  }

  /** Start the replay again, because the relay's chain no longer agrees with it. */
  function Restart(t: Tail, head: LogHead): Step {
    StartAdvance(t.(log := Some(FRESH), mode := None, lastSynced := None), head, None)
  }

  predicate Restarts(t: Tail, head: LogHead) {
    t.log.Some? &&
    (head.index < t.log.value.head.index ||
     (head.index == t.log.value.head.index && head.hash != t.log.value.head.hash))
  }

  function OnRelayHead(t: Tail, head: LogHead): Step {
    if t.log.None? then Step(t, [])
    else
      var ours := t.log.value.head;
      if head.index < ours.index then Then([Rewound(ours.index, head.index)], Restart(t, head))
      else if head.index == ours.index && head.hash != ours.hash then
        Then([Fork(None, head.index)], Restart(t, head))
      else if head.index > ours.index && t.mode.None? then StartAdvance(t, head, None)
      else Step(t, [])
  }

  /** Whether the log bears an answer out. A revoked device's own lookup is answered
      with the device statement, which is logged like an identity's revocation. */
  predicate Passes(s: LogState, a: Answer) {
    match CheckLookup(s, a.subject, a.shown)
    case None => true
    case Some(problem) => problem.WithheldRevocation? && IsDeviceStatement(s, a.subject, a.deviceRevocations)
  }

  function LoggedOnes(s: LogState, rs: seq<DeviceRevocation>): seq<DeviceRevocation> {
    if rs == [] then []
    else
      var before, last := LoggedOnes(s, rs[..|rs| - 1]), rs[|rs| - 1];
      if IsLogged(s, last) then before + [last] else before
  }

  function UnloggedOuts(s: LogState, rs: seq<DeviceRevocation>): seq<Out> {
    if rs == [] then []
    else
      var before, last := UnloggedOuts(s, rs[..|rs| - 1]), rs[|rs| - 1];
      if IsLogged(s, last) then before else before + [LookupProblem(last.device, UnloggedStatement)]
  }

  /** The first statement about a device. */
  function StatementFor(rs: seq<DeviceRevocation>, device: Hash): Option<DeviceRevocation> {
    if rs == [] then None
    else
      var before, last := StatementFor(rs[..|rs| - 1], device), rs[|rs| - 1];
      if before.Some? then before else if last.device == device then Some(last) else None
  }

  /** The linked devices' bundles the log bears out, given the statements it does. */
  function BorneOut(s: LogState, ds: seq<DeviceBundle>, rs: seq<DeviceRevocation>): seq<DeviceBundle> {
    if ds == [] then []
    else
      var before, last := BorneOut(s, ds[..|ds| - 1], rs), ds[|ds| - 1];
      if CheckDevice(s, last, StatementFor(rs, last.device)).None? then before + [last] else before
  }

  function DeviceOuts(s: LogState, ds: seq<DeviceBundle>, rs: seq<DeviceRevocation>): seq<Out> {
    if ds == [] then []
    else
      var before, last := DeviceOuts(s, ds[..|ds| - 1], rs), ds[|ds| - 1];
      match CheckDevice(s, last, StatementFor(rs, last.device))
      case None => before
      case Some(problem) => before + [LookupProblem(last.device, problem)]
  }

  function ValidOnes(rs: seq<DeviceRevocation>): seq<DeviceRevocation> {
    if rs == [] then []
    else
      var before, last := ValidOnes(rs[..|rs| - 1]), rs[|rs| - 1];
      if last.valid then before + [last] else before
  }

  /** What the callers are given: of the device statements, the validly signed. */
  function Handed(a: Answer): Answer {
    a.(deviceRevocations := ValidOnes(a.deviceRevocations))
  }

  /** Check an answer and settle or refuse it; devices the log does not bear out are
      left out and reported, and the answer for the account stands. */
  function Resolve(s: LogState, a: Answer): seq<Out> {
    if !Passes(s, a) then [Refused(a, Problem(CheckLookup(s, a.subject, a.shown).value))]
    else
      var kept := LoggedOnes(s, a.deviceRevocations);
      UnloggedOuts(s, a.deviceRevocations) + DeviceOuts(s, a.devices, kept) +
      [Settled(Handed(a.(devices := BorneOut(s, a.devices, kept), deviceRevocations := kept)))]
  }

  function OnAnswer(t: Tail, a: Answer): Step {
    if t.log.None? then Step(t, [Settled(Handed(a))])
    else if a.head.None? then Step(t, [Refused(a, NoHead)])
    else
      var s := OnRelayHead(t, a.head.value);
      var u := s.tail.(deferred := s.tail.deferred + [DeferredAnswer(a)]);
      if s.tail.mode.Some? then Step(u, s.outs)
      else if s.tail.log.Some? && a.head.value.index > s.tail.log.value.head.index then
        Then(s.outs, StartAdvance(u, a.head.value, None))
      else if s.tail.log.Some? then Step(s.tail, s.outs + Resolve(s.tail.log.value, a))
      else s
  }

  /** Compare a contact's head with our chain, fetching what that needs. */
  function CheckHead(t: Tail, s: LogState, peer: Peer, head: LogHead): Step {
    match CheckPeerHead(s, head)
    case Consistent => Step(t, [])
    case Forked(at) => Step(t, [Fork(Some(peer), at)])
    case Ahead => StartAdvance(t, head, Some(peer))
    case NeedEntries(from, until) =>
      Step(t.(mode := Some(Verify(from, head, until, peer, None))), [LogSince(from.index)])
  }

  /** Deal with what waited, until something needs another fetch. */
  function ResolveDeferred(t: Tail, s: LogState): Step
    requires t.log == Some(s)
    decreases |t.deferred|
  {
    if t.mode.Some? || t.deferred == [] then Step(t, [])
    else
      var u := t.(deferred := t.deferred[1..]);
      match t.deferred[0]
      case DeferredAnswer(a) =>
        if a.head.Some? && a.head.value.index > s.head.index then StartAdvance(t, a.head.value, None)
        else Then(Resolve(s, a), ResolveDeferred(u, s))
      case DeferredHead(peer, head) =>
        var c := CheckHead(u, s, peer, head);
        Then(c.outs, ResolveDeferred(c.tail, s))
  }

  /** Refuse everything that waited. */
  function Refusals(deferred: seq<Deferred>, why: Why): seq<Out> {
    if deferred == [] then []
    else
      var before, last := Refusals(deferred[..|deferred| - 1], why), deferred[|deferred| - 1];
      if last.DeferredAnswer? then before + [Refused(last.answer, why)] else before
  }

  function FailDeferred(t: Tail, why: Why): Step {
    Step(t.(deferred := []), Refusals(t.deferred, why))
  }

  // --- a page, catching up ------------------------------------------------------------

  /** What catching up says about the head that asked for it. */
  function TargetOuts(s: LogState, target: LogHead, origin: Option<Peer>): seq<Out> {
    if target.index > s.head.index then [Withheld(origin, target.index)]
    else if !CanCheck(s, target.index) then []
    else if HashAt(s, target.index) != Some(target.hash) then [Fork(origin, target.index)]
    else []
  }

  function CaughtUp(t: Tail, s: LogState, target: LogHead, origin: Option<Peer>): Step
    requires t.log == Some(s)
  {
    var synced := if t.lastSynced != Some(s.head) then [Synced(s.head)] else [];
    Then(TargetOuts(s, target, origin) + synced, ResolveDeferred(t.(lastSynced := Some(s.head)), s))
  }

  function OnAdvancePage(h: Hashing, t: Tail, s: LogState, target: LogHead, origin: Option<Peer>,
                         entries: seq<LogEntry>, head: LogHead): Step
    requires t.log == Some(s) && t.mode.None?
  {
    match Apply(h, s, entries)
    case Err(broken) => Then([Fork(origin, broken.at)], FailDeferred(t, DoesNotChain))
    case Ok(now) =>
      var u := t.(log := Some(now));
      if now.head.index < head.index then
        if entries == [] then Then([Withheld(origin, head.index)], FailDeferred(u, Withholds))
        else Step(u.(mode := Some(Advance(target, origin))), [LogSince(now.head.index)])
      else if now.head.index == head.index && now.head.hash != head.hash then
        Then([Fork(None, head.index)], FailDeferred(u, DoesNotChain))
      else CaughtUp(u, now, target, origin)
  }

  // --- a page, checking a segment --------------------------------------------------------

  datatype Segment = Genuine | Doctored(at: nat) | Incomplete

  datatype Scanned = Scanned(segment: Segment, cursor: LogHead, matched: Option<bool>)

  /** Follow a page from `cursor`, noting whether `check` matched as it went by. */
  function Scan(h: Hashing, cursor: LogHead, check: LogHead, until: LogHead, matched: Option<bool>,
                entries: seq<LogEntry>): Scanned
    decreases |entries|
  {
    if entries == [] then Scanned(Incomplete, cursor, matched)
    else if !Follows(entries[0], cursor) then Scanned(Doctored(cursor.index + 1), cursor, matched)
    else
      var next := HeadOf(h, entries[0]);
      var passed := if next.index == check.index then Some(next.hash == check.hash) else matched;
      if next.index == until.index then
        Scanned(if next.hash == until.hash then Genuine else Doctored(until.index), next, passed)
      else Scan(h, next, check, until, passed, entries[1..])
  }

  /** What a finished segment says, and about whom. */
  function VerdictOuts(r: Scanned, check: LogHead, until: LogHead, peer: Peer): seq<Out> {
    match r.segment
    case Genuine => if r.matched == Some(false) then [Fork(Some(peer), check.index)] else []
    case Doctored(at) => [Fork(None, at)]
    case Incomplete => [Withheld(Some(peer), until.index)]
  }

  function OnVerifyPage(h: Hashing, t: Tail, s: LogState, m: Mode, entries: seq<LogEntry>): Step
    requires t.log == Some(s) && t.mode.None? && m.Verify?
  {
    var r := Scan(h, m.cursor, m.check, m.until, m.matched, entries);
    if r.segment.Incomplete? && entries != [] then
      Step(t.(mode := Some(m.(cursor := r.cursor, matched := r.matched))), [LogSince(r.cursor.index)])
    else Then(VerdictOuts(r, m.check, m.until, m.peer), ResolveDeferred(t, s))
  }

  function OnEntries(h: Hashing, t: Tail, entries: seq<LogEntry>, head: LogHead): Step {
    if t.log.None? || t.mode.None? then Step(t, [])
    else
      var u := t.(mode := None);
      match t.mode.value
      case Advance(target, origin) => OnAdvancePage(h, u, t.log.value, target, origin, entries, head)
      case Verify(_, _, _, _, _) => OnVerifyPage(h, u, t.log.value, t.mode.value, entries)
  }

  function OnPeerHead(t: Tail, peer: Peer, head: LogHead): Step {
    if t.log.None? then Step(t, [])
    else if t.mode.Some? then Step(t.(deferred := t.deferred + [DeferredHead(peer, head)]), [])
    else CheckHead(t, t.log.value, peer, head)
  }

  // --- evidence -----------------------------------------------------------------------

  /** What a head from the relay leaves as evidence. */
  function BreakOn(t: Tail, head: LogHead): seq<Break> {
    if !Restarts(t, head) then []
    else
      var s := t.log.value;
      [Break(head.index < s.head.index, s.head, head, s.checkpoints)]
  }

  // --- runs ---------------------------------------------------------------------------

  datatype Input =
    | RelayHead(head: LogHead)
    | AnswerIn(answer: Answer)
    | Page(entries: seq<LogEntry>, head: LogHead)
    | PeerHead(peer: Peer, head: LogHead)

  function On(h: Hashing, t: Tail, input: Input): Step {
    match input
    case RelayHead(head) => OnRelayHead(t, head)
    case AnswerIn(a) => OnAnswer(t, a)
    case Page(entries, head) => OnEntries(h, t, entries, head)
    case PeerHead(peer, head) => OnPeerHead(t, peer, head)
  }

  /** A whole run: where it ends, and everything it put out. */
  function Run(h: Hashing, t: Tail, inputs: seq<Input>): Step {
    if inputs == [] then Step(t, [])
    else
      var before := Run(h, t, inputs[..|inputs| - 1]);
      Then(before.outs, On(h, before.tail, inputs[|inputs| - 1]))
  }

  function BreaksOn(t: Tail, input: Input): seq<Break> {
    match input
    case RelayHead(head) => BreakOn(t, head)
    case AnswerIn(a) => if a.head.Some? then BreakOn(t, a.head.value) else []
    case Page(_, _) => []
    case PeerHead(_, _) => []
  }

  /** Every contradiction of a run, oldest first. */
  function BreaksOf(h: Hashing, t: Tail, inputs: seq<Input>): seq<Break> {
    if inputs == [] then []
    else
      var init := inputs[..|inputs| - 1];
      BreaksOf(h, t, init) + BreaksOn(Run(h, t, init).tail, inputs[|inputs| - 1])
  }

  /** The evidence held once there is `more` of it. */
  function Held(held: seq<Break>, more: seq<Break>): seq<Break> {
    if more == [] then held else NewestBreaks(held + more)
  }

  /** The evidence held after a run, each contradiction put to what was held. */
  function HeldBreaks(h: Hashing, t: Tail, held: seq<Break>, inputs: seq<Input>): seq<Break> {
    if inputs == [] then held
    else
      var init := inputs[..|inputs| - 1];
      Held(HeldBreaks(h, t, held, init), BreaksOn(Run(h, t, init).tail, inputs[|inputs| - 1]))
  }
}
