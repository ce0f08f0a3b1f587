/**
 The relay's key log as a client has replayed it (`transparency.rs`): a hash
 chain of entries, of which the head, some checkpoints and where each identity
 last appears are kept.

 The hash function is a parameter; where a result needs it to be injective,
 the result says so.
 */
module Transparency {
  import opened Wrappers

  type Hash = nat

  /** How many entries a log has, and the hash of the last. */
  datatype LogHead = LogHead(index: nat, hash: Hash)

  const EMPTY := LogHead(0, 0)

  datatype EntryKind = BundleEntry | RevocationEntry | SuccessionEntry

  datatype LogEntry = LogEntry(
    index: nat, prev: Hash, subject: Hash, kind: EntryKind, leaf: Hash, atMs: nat)

  type Hashing = LogEntry -> Hash

  function HeadOf(h: Hashing, e: LogEntry): LogHead {
    LogHead(e.index, h(e))
  }

  predicate Follows(e: LogEntry, head: LogHead) {
    e.index == head.index + 1 && e.prev == head.hash
  }

  /** Each entry follows the one before, the first follows `head`. */
  predicate Chains(h: Hashing, head: LogHead, entries: seq<LogEntry>)
    decreases |entries|
  {
    entries == [] || (Follows(entries[0], head) && Chains(h, HeadOf(h, entries[0]), entries[1..]))
  }

  /** Where a page ends. */
  function End(h: Hashing, head: LogHead, entries: seq<LogEntry>): LogHead {
    if entries == [] then head else HeadOf(h, entries[|entries| - 1])
  }

  // --- what is kept ------------------------------------------------------------------

  const DENSE := 4096
  const SPARSE := 256

  datatype LogPosition = LogPosition(index: nat, leaf: Hash)

  datatype Latest = Latest(
    last: LogPosition,
    kind: Option<EntryKind>,
    bundle: Option<LogPosition>,
    revocation: Option<LogPosition>,
    succession: Option<LogPosition>)

  datatype LogState = LogState(head: LogHead, checkpoints: seq<LogHead>, latest: map<Hash, Latest>)

  const FRESH := LogState(EMPTY, [], map[])

  const NOWHERE := Latest(LogPosition(0, 0), None, None, None, None)

  predicate KeepsCheckpoint(top: nat, index: nat) {
    index > (if top > DENSE then top - DENSE else 0) || index % SPARSE == 0
  }

  function Thinned(top: nat, checkpoints: seq<LogHead>): seq<LogHead> {
    if checkpoints == [] then []
    else
      var before, last := Thinned(top, checkpoints[..|checkpoints| - 1]), checkpoints[|checkpoints| - 1];
      if KeepsCheckpoint(top, last.index) then before + [last] else before
  }

  function NotedLatest(latest: Latest, e: LogEntry): Latest {
    var position := LogPosition(e.index, e.leaf);
    var noted := latest.(last := position, kind := Some(e.kind));
    match e.kind
    case BundleEntry => noted.(bundle := Some(position))
    case RevocationEntry => noted.(revocation := Some(position))
    case SuccessionEntry => noted.(succession := Some(position))
  }

  /** One entry more. */
  function Noted(h: Hashing, s: LogState, e: LogEntry): LogState {
    var was := if e.subject in s.latest then s.latest[e.subject] else NOWHERE;
    LogState(HeadOf(h, e),
             Thinned(e.index, s.checkpoints + [HeadOf(h, e)]),
             s.latest[e.subject := NotedLatest(was, e)])
  }

  function NotedAll(h: Hashing, s: LogState, entries: seq<LogEntry>): LogState {
    if entries == [] then s else Noted(h, NotedAll(h, s, entries[..|entries| - 1]), entries[|entries| - 1])
  }

  datatype ReplayError = Broken(at: nat, found: nat)

  /** Where a page that does not chain breaks. */
  function BreakOf(h: Hashing, head: LogHead, entries: seq<LogEntry>): ReplayError
    requires !Chains(h, head, entries)
    decreases |entries|
  {
    if !Follows(entries[0], head) then Broken(head.index, entries[0].index)
    else BreakOf(h, HeadOf(h, entries[0]), entries[1..])
  }

  /** Replay a page onto the head, all of it or none. */
  function Apply(h: Hashing, s: LogState, entries: seq<LogEntry>): Result<LogState, ReplayError> {
    if Chains(h, s.head, entries) then Ok(NotedAll(h, s, entries)) else Err(BreakOf(h, s.head, entries))
  }

  // --- looking things up --------------------------------------------------------------

  function FindCheckpoint(checkpoints: seq<LogHead>, index: nat): Option<Hash> {
    if checkpoints == [] then None
    else if checkpoints[|checkpoints| - 1].index == index then Some(checkpoints[|checkpoints| - 1].hash)
    else FindCheckpoint(checkpoints[..|checkpoints| - 1], index)
  }

  /** The hash held for an index: the head's, or a checkpoint's. */
  function HashAt(s: LogState, index: nat): Option<Hash> {
    if index == 0 then Some(EMPTY.hash)
    else if index == s.head.index then Some(s.head.hash)
    else FindCheckpoint(s.checkpoints, index)
  }

  predicate CanCheck(s: LogState, index: nat) {
    index == 0 || index == s.head.index || HashAt(s, index).Some?
  }

  /** How many checkpoints from the front are at or below `index`. */
  function CountTo(checkpoints: seq<LogHead>, index: nat): (n: nat)
    ensures n <= |checkpoints|
  {
    if checkpoints == [] || checkpoints[0].index > index then 0 else 1 + CountTo(checkpoints[1..], index)
  }

  /** The highest checkpoint at or below `index`. */
  function CheckpointBelow(s: LogState, index: nat): LogHead {
    var n := CountTo(s.checkpoints, index);
    if n == 0 then EMPTY else s.checkpoints[n - 1]
  }

  /** The lowest checkpoint at or above `index`, or the head. */
  function CheckpointAbove(s: LogState, index: nat): LogHead {
    var n := if index == 0 then 0 else CountTo(s.checkpoints, index - 1);
    if n < |s.checkpoints| && s.checkpoints[n].index <= s.head.index then s.checkpoints[n] else s.head
  }

  datatype HeadCheck = Consistent | Forked(at: nat) | NeedEntries(from: LogHead, until: LogHead) | Ahead

  /** How a contact's head compares with what was replayed. */
  function CheckPeerHead(s: LogState, head: LogHead): HeadCheck {
    if head.index > s.head.index then Ahead
    else
      match HashAt(s, head.index)
      case Some(hash) => if hash == head.hash then Consistent else Forked(head.index)
      case None => NeedEntries(CheckpointBelow(s, head.index), CheckpointAbove(s, head.index))
  }

  // --- lookups -----------------------------------------------------------------------

  /** What a lookup showed, by the leaves of what it carried. */
  datatype Shown = Shown(
    bundle: Option<Hash>, revocation: Option<Hash>, succession: Option<Hash>, claimed: Option<LogPosition>)

  datatype Discrepancy =
    | UnloggedBundle
    | NotLatestBundle(logged: nat)
    | ClaimMismatch(claimedAt: nat, seen: nat)
    | WithheldRevocation(logged: nat)
    | WithheldSuccession(logged: nat)
    | UnloggedStatement

  function LatestOf(s: LogState, subject: Hash): Latest {
    if subject in s.latest then s.latest[subject] else NOWHERE
  }

  /** A statement served against the one logged. */
  function CheckStatement(logged: Option<LogPosition>, served: Option<Hash>, withheld: Discrepancy): Option<Discrepancy> {
    match (logged, served)
    case (Some(_), None) => Some(withheld)
    case (Some(position), Some(leaf)) => if leaf == position.leaf then None else Some(UnloggedStatement)
    case (None, Some(_)) => Some(UnloggedStatement)
    case (None, None) => None
  }

  /** What a lookup showed, against the log as replayed. */
  function CheckLookup(s: LogState, subject: Hash, shown: Shown): Option<Discrepancy> {
    var latest := LatestOf(s, subject);
    if shown.claimed.Some? && shown.claimed.value != latest.last then
      Some(ClaimMismatch(shown.claimed.value.index, latest.last.index))
    else if shown.bundle.Some? && latest.bundle.None? then Some(UnloggedBundle)
    else if shown.bundle.Some? && latest.bundle.value.leaf != shown.bundle.value then
      Some(NotLatestBundle(latest.bundle.value.index))
    else
      var revoked := CheckStatement(latest.revocation, shown.revocation,
        WithheldRevocation(if latest.revocation.Some? then latest.revocation.value.index else 0));
      if revoked.Some? then revoked
      else if latest.revocation.Some? then None
      else CheckStatement(latest.succession, shown.succession,
        WithheldSuccession(if latest.succession.Some? then latest.succession.value.index else 0))
  }

  // --- linked devices ------------------------------------------------------------------

  /** A linked device's bundle as a lookup showed it. */
  datatype DeviceBundle = DeviceBundle(device: Hash, leaf: Hash)

  /** An account's statement that a device is revoked; `valid` is its signature. */
  datatype DeviceRevocation = DeviceRevocation(device: Hash, leaf: Hash, valid: bool)

  /** The revocation logged for `subject` is one of the device statements served. */
  predicate IsDeviceStatement(s: LogState, subject: Hash, served: seq<DeviceRevocation>) {
    var logged := LatestOf(s, subject).revocation;
    logged.Some? && exists r | r in served :: r.device == subject && r.valid && r.leaf == logged.value.leaf
  }

  /** A device revocation the log has as its device's latest. */
  predicate IsLogged(s: LogState, r: DeviceRevocation) {
    var logged := LatestOf(s, r.device).revocation;
    logged.Some? && logged.value.leaf == r.leaf
  }

  /** What a lookup showed about a linked device, against the log as replayed. */
  function CheckDevice(s: LogState, d: DeviceBundle, served: Option<DeviceRevocation>): Option<Discrepancy> {
    var latest := LatestOf(s, d.device);
    if latest.bundle.None? then Some(UnloggedBundle)
    else if latest.bundle.value.leaf != d.leaf then Some(NotLatestBundle(latest.bundle.value.index))
    else
      CheckStatement(latest.revocation, if served.Some? then Some(served.value.leaf) else None,
        WithheldRevocation(if latest.revocation.Some? then latest.revocation.value.index else 0))
  }

  // --- evidence ------------------------------------------------------------------------

  const BREAKS_KEPT := 8

  /** The relay's log contradicted the replay: what we held, and what it said. */
  datatype Break = Break(rewound: bool, ours: LogHead, theirs: LogHead, checkpoints: seq<LogHead>)

  function NewestBreaks(breaks: seq<Break>): seq<Break> {
    if |breaks| > BREAKS_KEPT then breaks[|breaks| - BREAKS_KEPT..] else breaks
  }
}
