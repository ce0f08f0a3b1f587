/**
 The session store (`sessions.rs`): ratchet sessions held per peer, and the
 prekeys others start sessions from.

 What the cryptography decides is a parameter: whether a message opens, what
 a handshake gives, which keys are generated. A stored session can always
 send: one we started has a sending chain, and one we answered is stored
 after its first message opened.
 */
module Sessions {
  import opened Wrappers

  type Peer = nat
  type SessionId = nat
  type Time = nat

  const ONE_TIME_TARGET := 20
  const ONE_TIME_MIN := 10
  const PQ_ONE_TIME_TARGET := 10
  const PQ_ONE_TIME_MIN := 5
  const DAY := 24 * 3600 * 1000
  const SIGNED_PREKEY_ROTATION := 7 * DAY
  const SIGNED_PREKEY_RETENTION := 21 * DAY
  const ONE_TIME_RETENTION := 30 * DAY
  const CROSSING_WINDOW := 10 * 60 * 1000
  const MAX_SESSIONS_PER_PEER := 5
  const MAX_SESSION_PEERS := 256
  const SESSION_RETENTION := 180 * DAY
  const HOUR := 3600 * 1000
  const TOP_UPS_PER_HOUR := 6
  const MAX_HANDED_OUT_KEPT := 4 * ONE_TIME_TARGET

  /** Time gone by, none where the clock went back. */
  function Since(now: Time, at: Time): Time {
    if now > at then now - at else 0
  }

  // --- sessions with one peer -----------------------------------------------------------

  /** The prekeys a handshake names. */
  datatype Init = Init(signedId: nat, oneTimeId: Option<nat>, pqId: Option<nat>)

  datatype PeerSession = PeerSession(
    id: SessionId,
    initiator: Peer,
    establishedAt: Time,
    lastUsed: Time,
    pendingInit: Option<Init>,
    active: bool)

  type Entry = seq<PeerSession>

  datatype Body = Body(session: SessionId, init: Option<Init>)

  function FindActive(entry: Entry): (r: Option<nat>)
    ensures r.Some? ==> r.value < |entry| && entry[r.value].active
    ensures r.None? ==> forall s | s in entry :: !s.active
  {
    if entry == [] then None
    else
      var before, last := FindActive(entry[..|entry| - 1]), |entry| - 1;
      assert entry == entry[..last] + [entry[last]];
      if before.Some? then before else if entry[last].active then Some(last) else None
  }

  function FindSession(entry: Entry, id: SessionId): (r: Option<nat>)
    ensures r.Some? ==> r.value < |entry| && entry[r.value].id == id
    ensures r.None? ==> forall s | s in entry :: s.id != id
  {
    if entry == [] then None
    else
      var before, last := FindSession(entry[..|entry| - 1], id), |entry| - 1;
      assert entry == entry[..last] + [entry[last]];
      if before.Some? then before else if entry[last].id == id then Some(last) else None
  }

  predicate AnyActive(entry: Entry) {
    exists s | s in entry :: s.active
  }

  /** Every session kept, none of them for sending. */
  function Retired(entry: Entry): Entry {
    seq(|entry|, i requires 0 <= i < |entry| => entry[i].(active := false))
  }

  /** The inactive session longest unused, the first of several. */
  function LeastUsed(entry: Entry): (r: Option<nat>)
    ensures r.Some? ==> r.value < |entry| && !entry[r.value].active
  {
    if entry == [] then None
    else
      var before, last := LeastUsed(entry[..|entry| - 1]), |entry| - 1;
      if entry[last].active then before
      else if before.None? || entry[last].lastUsed < entry[before.value].lastUsed then Some(last)
      else before
  }

  function Prune(entry: Entry): Entry
    decreases |entry|
  {
    if |entry| <= MAX_SESSIONS_PER_PEER then entry
    else
      match LeastUsed(entry)
      case None => entry
      case Some(victim) => Prune(entry[..victim] + entry[victim + 1..])
  }

  /** Send on the active session. */
  function UseActive(entry: Entry, i: nat, now: Time): Entry
    requires i < |entry|
  {
    entry[i := entry[i].(lastUsed := now)]
  }

  /** A session we start is the one to send on. */
  function StartSession(entry: Entry, me: Peer, id: SessionId, init: Init, now: Time): Entry {
    Prune(Retired(entry) + [PeerSession(id, me, now, now, Some(init), true)])
  }

  /** A message on a session we hold. */
  function HeardOn(entry: Entry, i: nat, now: Time): Entry
    requires i < |entry|
  {
    entry[i := entry[i].(lastUsed := now, pendingInit := None)]
  }

  /** A session of ours that crossed with this handshake and goes on. */
  predicate OursWins(entry: Entry, me: Peer, from: Peer, now: Time) {
    exists s | s in entry ::
      && s.active && s.initiator == me && s.pendingInit.Some?
      && Since(now, s.establishedAt) < CROSSING_WINDOW && me < from
  }

  /** A session they started, which is the one to send on unless ours wins. */
  function AcceptSession(entry: Entry, me: Peer, from: Peer, id: SessionId, now: Time): Entry {
    var ours := OursWins(entry, me, from, now);
    Prune((if ours then entry else Retired(entry)) + [PeerSession(id, from, now, now, None, !ours)])
  }

  // --- the store -----------------------------------------------------------------------------

  /** `material` tells one generated key from every other. */
  datatype Prekey = Prekey(id: nat, material: nat, createdAt: Time)

  datatype Deposited = Deposited(key: Prekey, handedOutAt: Option<Time>)

  datatype Store = Store(
    me: Peer,
    signed: seq<Prekey>,
    oneTime: seq<Deposited>,
    pqSigned: seq<Prekey>,
    pqOneTime: seq<Deposited>,
    peers: map<Peer, Entry>,
    topUps: seq<Time>)

  function Fresh(me: Peer): Store {
    Store(me, [], [], [], [], map[], [])
  }

  function EntryOf(peers: map<Peer, Entry>, peer: Peer): Entry {
    if peer in peers then peers[peer] else []
  }

  // --- room for one more peer ------------------------------------------------------------------

  predicate UsedSince(entry: Entry, cutoff: Time) {
    exists s | s in entry :: s.lastUsed >= cutoff
  }

  function Recent(peers: map<Peer, Entry>, now: Time): map<Peer, Entry> {
    map p | p in peers && UsedSince(peers[p], Since(now, SESSION_RETENTION)) :: peers[p]
  }

  predicate WrittenTo(entry: Entry, me: Peer) {
    exists s | s in entry :: s.initiator == me
  }

  function Newest(entry: Entry): Time {
    if entry == [] then 0
    else
      var before, last := Newest(entry[..|entry| - 1]), entry[|entry| - 1].lastUsed;
      if before > last then before else last
  }

  /** A stranger before somebody written to, then the longest unused. */
  predicate NoMoreUseful(a: Entry, b: Entry, me: Peer) {
    if WrittenTo(a, me) != WrittenTo(b, me) then WrittenTo(b, me) else Newest(a) <= Newest(b)
  }

  /** The peers kept where room is made: all of them for a peer already held; or
      those used lately, less the least useful past the limit. */
  predicate MadeRoom(peers: map<Peer, Entry>, me: Peer, peer: Peer, now: Time, room: map<Peer, Entry>) {
    if peer in peers then room == peers
    else
      var kept := Recent(peers, now);
      && (forall p | p in room :: p in kept && room[p] == kept[p])
      && |room| == (if |kept| >= MAX_SESSION_PEERS then MAX_SESSION_PEERS - 1 else |kept|)
      && forall d, r | d in kept && d !in room && r in room :: NoMoreUseful(kept[d], kept[r], me)
  }

  // --- sending --------------------------------------------------------------------------------

  datatype SessionError =
    | NoPrekeys
    | StalePrekeys(days: nat)
    | UnknownSession
    | UnknownPrekey(id: nat)
    | SessionMismatch
    | Protocol
    | InSession

  /** What of a bundle decides whether a session can start. */
  datatype Bundle = Bundle(owner: Peer, supportsSessions: bool, signedAt: Option<Time>)

  datatype Initiated = CannotInitiate | Initiated(id: SessionId, init: Init)

  datatype Sent = Sent(store: Store, result: Result<Body, SessionError>)

  /** `seals` is whether the active session seals, where there is one. */
  function Encrypt(s: Store, bundle: Bundle, now: Time, room: map<Peer, Entry>, start: Initiated, seals: bool): Sent {
    var peer := bundle.owner;
    var entry := EntryOf(room, peer);
    var active := FindActive(entry);
    if active.Some? && !seals then Sent(s.(peers := room[peer := entry]), Err(Protocol))
    else if active.Some? then
      var current := entry[active.value];
      Sent(s.(peers := room[peer := UseActive(entry, active.value, now)]), Ok(Body(current.id, current.pendingInit)))
    else
      var failed := s.(peers := room[peer := entry]);
      if !bundle.supportsSessions then Sent(failed, Err(NoPrekeys))
      else if bundle.signedAt.Some? && Since(now, bundle.signedAt.value) > SIGNED_PREKEY_RETENTION then
        Sent(failed, Err(StalePrekeys(Since(now, bundle.signedAt.value) / DAY)))
      else if start.CannotInitiate? then Sent(failed, Err(Protocol))
      else
        Sent(s.(peers := room[peer := StartSession(entry, s.me, start.id, start.init, now)]),
             Ok(Body(start.id, Some(start.init))))
  }

  // --- receiving ------------------------------------------------------------------------------

  function FindKey(keys: seq<Prekey>, id: nat): (r: Option<nat>)
    ensures r.Some? ==> r.value < |keys| && keys[r.value].id == id
    ensures r.None? ==> forall k | k in keys :: k.id != id
  {
    if keys == [] then None
    else
      var before, last := FindKey(keys[..|keys| - 1], id), |keys| - 1;
      assert keys == keys[..last] + [keys[last]];
      if before.Some? then before else if keys[last].id == id then Some(last) else None
  }

  function FindDeposit(deposit: seq<Deposited>, id: nat): (r: Option<nat>)
    ensures r.Some? ==> r.value < |deposit| && deposit[r.value].key.id == id
    ensures r.None? ==> forall d | d in deposit :: d.key.id != id
  {
    if deposit == [] then None
    else
      var before, last := FindDeposit(deposit[..|deposit| - 1], id), |deposit| - 1;
      assert deposit == deposit[..last] + [deposit[last]];
      if before.Some? then before else if deposit[last].key.id == id then Some(last) else None
  }

  /** What one handshake attempt came to. */
  datatype Attempt = RespondFails | OtherSession | DoesNotOpen | Opened

  /** What the cryptography makes of a body: on a session held, and as a
      handshake under the current key and, where one is held, the previous. */
  datatype Crypto = Crypto(opensInSession: bool, current: Attempt, previous: Option<Attempt>)

  function AttemptError(a: Attempt): SessionError {
    match a
    case RespondFails => Protocol
    case OtherSession => SessionMismatch
    case _ => InSession
  }

  function Respond(c: Crypto): Option<SessionError> {
    match c.current
    case Opened => None
    case DoesNotOpen =>
      if c.previous.None? then Some(InSession)
      else if c.previous.value.Opened? then None
      else Some(AttemptError(c.previous.value))
    case other => Some(AttemptError(other))
  }

  /** The keys a handshake names, where all are held. */
  datatype Named = Named(oneTime: Option<nat>, pqOneTime: Option<nat>)

  function FindNamed(s: Store, init: Init): Result<Named, SessionError> {
    if FindKey(s.signed, init.signedId).None? then Err(UnknownPrekey(init.signedId))
    else if init.oneTimeId.Some? && FindDeposit(s.oneTime, init.oneTimeId.value).None? then
      Err(UnknownPrekey(init.oneTimeId.value))
    else
      var oneTime := if init.oneTimeId.Some? then FindDeposit(s.oneTime, init.oneTimeId.value) else None;
      if init.pqId.None? then Ok(Named(oneTime, None))
      else if FindDeposit(s.pqOneTime, init.pqId.value).Some? then
        Ok(Named(oneTime, FindDeposit(s.pqOneTime, init.pqId.value)))
      else if FindKey(s.pqSigned, init.pqId.value).Some? then Ok(Named(oneTime, None))
      else Err(UnknownPrekey(init.pqId.value))
  }

  function Without(deposit: seq<Deposited>, i: Option<nat>): seq<Deposited> {
    if i.Some? && i.value < |deposit| then deposit[..i.value] + deposit[i.value + 1..] else deposit
  }

  datatype Heard = Heard(store: Store, result: Result<bool, SessionError>)

  /** A body from `from`; the result says whether it established a session. */
  function Decrypt(s: Store, from: Peer, body: Body, now: Time, c: Crypto, room: map<Peer, Entry>): Heard {
    var held := FindSession(EntryOf(s.peers, from), body.session);
    if held.Some? then
      if !c.opensInSession then Heard(s, Err(InSession))
      else Heard(s.(peers := s.peers[from := HeardOn(EntryOf(s.peers, from), held.value, now)]), Ok(false))
    else if body.init.None? then Heard(s, Err(UnknownSession))
    else
      match FindNamed(s, body.init.value)
      case Err(error) => Heard(s, Err(error))
      case Ok(named) =>
        var error := Respond(c);
        if error.Some? then Heard(s, Err(error.value))
        else
          Heard(s.(oneTime := Without(s.oneTime, named.oneTime),
                   pqOneTime := Without(s.pqOneTime, named.pqOneTime),
                   peers := room[from := AcceptSession(EntryOf(room, from), s.me, from, body.session, now)]),
                Ok(true))
  }

  function Forget(s: Store, peer: Peer): Store {
    s.(peers := s.peers - {peer})
  }

  function RetireAll(s: Store): Store {
    s.(peers := map p | p in s.peers :: Retired(s.peers[p]))
  }

  // --- prekeys -----------------------------------------------------------------------------------

  /** How many of the newest keys are young enough to keep. */
  function Young(keys: seq<Prekey>, now: Time): (n: nat)
    ensures n <= |keys|
  {
    if keys == [] || Since(now, keys[0].createdAt) >= SIGNED_PREKEY_RETENTION then 0
    else 1 + Young(keys[1..], now)
  }

  /** A fresh key when the newest is due, then the old ones dropped. */
  function Rotate(keys: seq<Prekey>, made: Prekey, now: Time): seq<Prekey> {
    var due := keys == [] || Since(now, keys[0].createdAt) >= SIGNED_PREKEY_ROTATION;
    var all := if due then [made] + keys else keys;
    var keep := Young(all, now);
    if keep == 0 then all[..1] else all[..keep]
  }

  predicate OnDeposit(d: Deposited) {
    d.handedOutAt.None?
  }

  function CountOnDeposit(deposit: seq<Deposited>): nat {
    if deposit == [] then 0
    else CountOnDeposit(deposit[..|deposit| - 1]) + if OnDeposit(deposit[|deposit| - 1]) then 1 else 0
  }

  /** Kept where handed out no earlier than `since`, or not handed out. */
  function HandedOutSince(deposit: seq<Deposited>, since: int): seq<Deposited> {
    if deposit == [] then []
    else
      var before, last := HandedOutSince(deposit[..|deposit| - 1], since), deposit[|deposit| - 1];
      if last.handedOutAt.None? || last.handedOutAt.value >= since then before + [last] else before
  }

  function HandedOutTimes(deposit: seq<Deposited>): seq<Time> {
    if deposit == [] then []
    else
      var before, last := HandedOutTimes(deposit[..|deposit| - 1]), deposit[|deposit| - 1];
      if last.handedOutAt.Some? then before + [last.handedOutAt.value] else before
  }

  function InsertTime(t: Time, sorted: seq<Time>): (r: seq<Time>)
    ensures |r| == |sorted| + 1
  {
    if sorted == [] || sorted[|sorted| - 1] <= t then sorted + [t]
    else InsertTime(t, sorted[..|sorted| - 1]) + [sorted[|sorted| - 1]]
  }

  function SortTimes(times: seq<Time>): (r: seq<Time>)
    ensures |r| == |times|
  {
    if times == [] then []
    else InsertTime(times[|times| - 1], SortTimes(times[..|times| - 1]))
  }

  /** The time of the last of the newest `cap`. */
  function Cutoff(times: seq<Time>, cap: nat): Time
    requires 0 < cap <= |times|
  {
    SortTimes(times)[|times| - cap]
  }

  /** Of the keys handed out, the newest. */
  function Capped(deposit: seq<Deposited>, cap: nat): seq<Deposited>
    requires 0 < cap
  {
    var times := HandedOutTimes(deposit);
    if |times| > cap then HandedOutSince(deposit, Cutoff(times, cap)) else deposit
  }

  /** One-time keys handed out too long ago dropped, and of the rest the newest. */
  function ForgetStale(deposit: seq<Deposited>, now: Time): seq<Deposited> {
    Capped(HandedOutSince(deposit, now - ONE_TIME_RETENTION + 1), MAX_HANDED_OUT_KEPT)
  }

  function Missing(deposit: seq<Deposited>, target: nat): nat {
    if CountOnDeposit(deposit) < target then target - CountOnDeposit(deposit) else 0
  }

  /** Fresh keys up to the target; `made` holds as many as are missing. */
  function TopUp(deposit: seq<Deposited>, target: nat, now: Time, made: seq<Prekey>): seq<Deposited> {
    ForgetStale(deposit, now) + seq(|made|, i requires 0 <= i < |made| => Deposited(made[i], None))
  }

  predicate Fills(deposit: seq<Deposited>, target: nat, now: Time, made: seq<Prekey>) {
    |made| == Missing(ForgetStale(deposit, now), target)
  }

  /** What the relay reports handed out. */
  function NoteConsumed(deposit: seq<Deposited>, consumed: set<nat>, now: Time): seq<Deposited> {
    seq(|deposit|, i requires 0 <= i < |deposit| =>
      if deposit[i].key.id in consumed && OnDeposit(deposit[i]) then deposit[i].(handedOutAt := Some(now))
      else deposit[i])
  }

  /** The deposits made within the last hour. */
  function LastHour(topUps: seq<Time>, now: Time): seq<Time> {
    if topUps == [] then []
    else
      var before, last := LastHour(topUps[..|topUps| - 1], now), topUps[|topUps| - 1];
      if Since(now, last) < HOUR && last <= now then before + [last] else before
  }

  predicate MayTopUp(topUps: seq<Time>, now: Time) {
    |LastHour(topUps, now)| < TOP_UPS_PER_HOUR
  }

  function AfterAsking(topUps: seq<Time>, now: Time): seq<Time> {
    LastHour(topUps, now) + if MayTopUp(topUps, now) then [now] else []
  }

  /** The keys one publish generates. */
  datatype Made = Made(signed: Prekey, pqSigned: Prekey, oneTime: seq<Prekey>, pqOneTime: seq<Prekey>)

  predicate Supplies(s: Store, now: Time, made: Made) {
    && made.signed.createdAt == now && made.pqSigned.createdAt == now
    && Fills(s.oneTime, ONE_TIME_TARGET, now, made.oneTime)
    && Fills(s.pqOneTime, PQ_ONE_TIME_TARGET, now, made.pqOneTime)
  }

  function Restocked(s: Store, now: Time, made: Made): Store {
    s.(oneTime := TopUp(s.oneTime, ONE_TIME_TARGET, now, made.oneTime),
       pqOneTime := TopUp(s.pqOneTime, PQ_ONE_TIME_TARGET, now, made.pqOneTime))
  }

  function Publish(s: Store, now: Time, made: Made): Store {
    Restocked(s.(signed := Rotate(s.signed, made.signed, now),
                 pqSigned := Rotate(s.pqSigned, made.pqSigned, now)), now, made)
  }

  /** The keys still on deposit, as far as we know. */
  function KeysOnDeposit(deposit: seq<Deposited>): seq<Prekey> {
    if deposit == [] then []
    else
      var before, last := KeysOnDeposit(deposit[..|deposit| - 1]), deposit[|deposit| - 1];
      if OnDeposit(last) then before + [last.key] else before
  }

  /** What a publish sends: the newest signed keys, and the one-time keys on deposit. */
  datatype Published = Published(signed: Prekey, oneTime: seq<Prekey>, pqSigned: Option<Prekey>, pqOneTime: seq<Prekey>)

  function PublicPrekeys(s: Store): Published
    requires s.signed != []
  {
    Published(s.signed[0], KeysOnDeposit(s.oneTime),
              if s.pqSigned == [] then None else Some(s.pqSigned[0]), KeysOnDeposit(s.pqOneTime))
  }

  /** The relay's report after a publish. */
  datatype Report = Report(remaining: nat, consumed: set<nat>, pqRemaining: Option<nat>, pqConsumed: set<nat>)

  function Noted(s: Store, report: Report, now: Time): Store {
    s.(oneTime := NoteConsumed(s.oneTime, report.consumed, now),
       pqOneTime := NoteConsumed(s.pqOneTime, report.pqConsumed, now))
  }

  predicate RunsLow(report: Report) {
    report.remaining < ONE_TIME_MIN || (report.pqRemaining.Some? && report.pqRemaining.value < PQ_ONE_TIME_MIN)
  }

  function ApplyStatus(s: Store, report: Report, now: Time, made: Made): Store {
    var noted := Noted(s, report, now);
    if !RunsLow(report) then noted
    else
      var asked := noted.(topUps := AfterAsking(s.topUps, now));
      if MayTopUp(s.topUps, now) then Restocked(asked, now, made) else asked
  }
}
