/** What every reachable session store keeps. */
module SessionTheorems {
  import opened Wrappers
  import opened Sessions

  // --- one peer's sessions --------------------------------------------------------------

  predicate OneActive(entry: Entry) {
    forall i, j | 0 <= i < j < |entry| :: !(entry[i].active && entry[j].active)
  }

  lemma {:induction false} LeastUsedIs(entry: Entry)
    ensures match LeastUsed(entry)
            case None => forall s | s in entry :: s.active
            case Some(i) => forall s | s in entry && !s.active :: entry[i].lastUsed <= s.lastUsed
  {
    if entry != [] {
      LeastUsedIs(entry[..|entry| - 1]);
      assert entry == entry[..|entry| - 1] + [entry[|entry| - 1]];
    }
  }

  lemma {:induction false} RemovedKeeps(entry: Entry, k: nat)
    requires k < |entry| && OneActive(entry)
    ensures var rest := entry[..k] + entry[k + 1..];
            && OneActive(rest)
            && (forall s | s in rest :: s in entry)
            && (forall s | s in entry :: s in rest || s == entry[k])
  {
    var rest := entry[..k] + entry[k + 1..];
    assert forall i | 0 <= i < |rest| :: rest[i] == entry[if i < k then i else i + 1];
    assert entry == entry[..k] + [entry[k]] + entry[k + 1..];
  }

  /** One round of pruning. */
  lemma {:induction false} PruneOnce(entry: Entry) returns (victim: PeerSession, rest: Entry)
    requires OneActive(entry) && |entry| > MAX_SESSIONS_PER_PEER
    ensures Prune(entry) == Prune(rest) && |rest| == |entry| - 1 && OneActive(rest)
    ensures forall s | s in rest :: s in entry
    ensures forall s | s in entry :: s in rest || s == victim
    ensures victim in entry && !victim.active
    ensures forall s | s in entry && !s.active :: victim.lastUsed <= s.lastUsed
  {
    LeastUsedIs(entry);
    assert entry[0] in entry && entry[1] in entry;
    var k := LeastUsed(entry).value;
    victim, rest := entry[k], entry[..k] + entry[k + 1..];
    RemovedKeeps(entry, k);
  }

  /** Pruning leaves at most five, all of them from before, the active one always. */
  lemma {:induction false} PruneKeeps(entry: Entry)
    requires OneActive(entry)
    ensures |Prune(entry)| <= MAX_SESSIONS_PER_PEER && OneActive(Prune(entry))
    ensures forall s | s in Prune(entry) :: s in entry
    ensures forall s | s in entry && s.active :: s in Prune(entry)
    decreases |entry|
  {
    if |entry| > MAX_SESSIONS_PER_PEER {
      var victim, rest := PruneOnce(entry);
      PruneKeeps(rest);
    }
  }

  /** And of the others it drops none before one less recently used. */
  lemma {:induction false} PruneDropsOldest(entry: Entry, dropped: PeerSession, kept: PeerSession)
    requires OneActive(entry) && dropped in entry && dropped !in Prune(entry)
    requires kept in Prune(entry) && !kept.active
    ensures dropped.lastUsed <= kept.lastUsed
    decreases |entry|
  {
    var victim, rest := PruneOnce(entry);
    PruneKeeps(rest);
    if dropped in rest {
      PruneDropsOldest(rest, dropped, kept);
    }
  }

  lemma {:induction false} RetiredIs(entry: Entry)
    ensures forall s | s in Retired(entry) :: !s.active
    ensures OneActive(Retired(entry))
  {
  }

  lemma {:induction false} JoinActive(entry: Entry, s: PeerSession)
    requires OneActive(entry) && (s.active ==> forall x | x in entry :: !x.active)
    ensures OneActive(entry + [s])
  {
  }

  predicate EntryOk(entry: Entry) {
    |entry| <= MAX_SESSIONS_PER_PEER && OneActive(entry)
  }

  lemma {:induction false} StartOk(entry: Entry, me: Peer, id: SessionId, init: Init, now: Time)
    ensures EntryOk(StartSession(entry, me, id, init, now))
    ensures PeerSession(id, me, now, now, Some(init), true) in StartSession(entry, me, id, init, now)
  {
    var s := PeerSession(id, me, now, now, Some(init), true);
    RetiredIs(entry);
    JoinActive(Retired(entry), s);
    PruneKeeps(Retired(entry) + [s]);
    assert s in Retired(entry) + [s];
  }

  /** A session they start: if ours wins it stays the active one, if not theirs is. */
  lemma {:induction false} AcceptOk(entry: Entry, me: Peer, from: Peer, id: SessionId, now: Time)
    requires OneActive(entry)
    ensures EntryOk(AcceptSession(entry, me, from, id, now))
    ensures OursWins(entry, me, from, now) ==>
              forall s | s in entry && s.active :: s in AcceptSession(entry, me, from, id, now)
    ensures !OursWins(entry, me, from, now) ==>
              PeerSession(id, from, now, now, None, true) in AcceptSession(entry, me, from, id, now)
  {
    var ours := OursWins(entry, me, from, now);
    var before := if ours then entry else Retired(entry);
    var s := PeerSession(id, from, now, now, None, !ours);
    RetiredIs(entry);
    JoinActive(before, s);
    PruneKeeps(before + [s]);
    assert s in before + [s];
  }

  // --- every run ---------------------------------------------------------------------------

  datatype Op =
    | Send(bundle: Bundle, now: Time, room: map<Peer, Entry>, start: Initiated, seals: bool)
    | Receive(from: Peer, body: Body, now: Time, crypto: Crypto, room: map<Peer, Entry>)
    | ForgetPeer(peer: Peer)
    | RetireEvery
    | PublishKeys(now: Time, made: Made)
    | Status(report: Report, now: Time, made: Made)

  function Step(s: Store, op: Op): Store {
    match op
    case Send(bundle, now, room, start, seals) => Encrypt(s, bundle, now, room, start, seals).store
    case Receive(from, body, now, crypto, room) => Decrypt(s, from, body, now, crypto, room).store
    case ForgetPeer(peer) => Forget(s, peer)
    case RetireEvery => RetireAll(s)
    case PublishKeys(now, made) => Publish(s, now, made)
    case Status(report, now, made) => ApplyStatus(s, report, now, made)
  }

  /** The peers dropped are ones the code may drop, and keys are made where it
      makes them. */
  predicate Possible(s: Store, op: Op) {
    match op
    case Send(bundle, now, room, _, _) => MadeRoom(s.peers, s.me, bundle.owner, now, room)
    case Receive(from, _, now, _, room) => MadeRoom(s.peers, s.me, from, now, room)
    case PublishKeys(now, made) => Supplies(s, now, made)
    case Status(report, now, made) => Supplies(Noted(s, report, now), now, made)
    case _ => true
  }

  function After(me: Peer, ops: seq<Op>): Store {
    if ops == [] then Fresh(me) else Step(After(me, ops[..|ops| - 1]), ops[|ops| - 1])
  }

  predicate PossibleRun(me: Peer, ops: seq<Op>) {
    forall k | 0 <= k < |ops| :: Possible(After(me, ops[..k]), ops[k])
  }

  predicate Bounded(peers: map<Peer, Entry>) {
    |peers| <= MAX_SESSION_PEERS && forall p | p in peers :: EntryOk(peers[p])
  }

  lemma {:induction false} SmallerSet(a: set<Peer>, b: set<Peer>)
    requires a <= b
    ensures |a| <= |b|
  {
    if a != {} {
      var x :| x in a;
      SmallerSet(a - {x}, b - {x});
    }
  }

  lemma {:induction false} PutBounded(peers: map<Peer, Entry>, me: Peer, peer: Peer, now: Time,
                                      room: map<Peer, Entry>, entry: Entry)
    requires Bounded(peers) && MadeRoom(peers, me, peer, now, room) && EntryOk(entry)
    ensures Bounded(room[peer := entry])
    ensures EntryOk(EntryOf(room, peer))
  {
    var put := room[peer := entry];
    if peer in peers {
      assert put.Keys == peers.Keys;
    } else {
      assert put.Keys == room.Keys + {peer};
    }
  }

  /** Making room drops, of the peers used lately, nobody written to while a
      stranger is kept, and nobody used after one of the same kind that is kept;
      a peer already held costs nobody. */
  lemma {:induction false} RoomKeepsTheUseful(peers: map<Peer, Entry>, me: Peer, peer: Peer, now: Time,
                                              room: map<Peer, Entry>, dropped: Peer, kept: Peer)
    requires MadeRoom(peers, me, peer, now, room)
    requires dropped in peers && dropped !in room && kept in room
    ensures peer !in peers && kept in peers && room[kept] == peers[kept]
    ensures UsedSince(peers[dropped], Since(now, SESSION_RETENTION)) ==>
              && (WrittenTo(peers[dropped], me) ==> WrittenTo(peers[kept], me))
              && (WrittenTo(peers[dropped], me) == WrittenTo(peers[kept], me) ==>
                    Newest(peers[dropped]) <= Newest(peers[kept]))
              && |room| == MAX_SESSION_PEERS - 1
  {
    var recent := Recent(peers, now);
    assert kept in recent;
    if UsedSince(peers[dropped], Since(now, SESSION_RETENTION)) {
      assert dropped in recent;
      assert NoMoreUseful(recent[dropped], recent[kept], me);
      if |recent| < MAX_SESSION_PEERS {
        SameSize(room.Keys, recent.Keys);
      }
    }
  }

  lemma {:induction false} SameSize(a: set<Peer>, b: set<Peer>)
    requires a <= b && |a| == |b|
    ensures a == b
  {
    if exists x :: x in b && x !in a {
      var x :| x in b && x !in a;
      SmallerSet(a, b - {x});
    }
  }

  lemma {:induction false} TouchOk(entry: Entry, i: nat, s: PeerSession)
    requires EntryOk(entry) && i < |entry| && s.active == entry[i].active
    ensures EntryOk(entry[i := s])
  {
  }

  lemma {:induction false} SendBounded(s: Store, bundle: Bundle, now: Time, room: map<Peer, Entry>, start: Initiated, seals: bool)
    requires Bounded(s.peers) && MadeRoom(s.peers, s.me, bundle.owner, now, room)
    ensures Bounded(Encrypt(s, bundle, now, room, start, seals).store.peers)
  {
    var entry := EntryOf(room, bundle.owner);
    PutBounded(s.peers, s.me, bundle.owner, now, room, []);
    PutBounded(s.peers, s.me, bundle.owner, now, room, entry);
    var active := FindActive(entry);
    if active.Some? {
      var used := UseActive(entry, active.value, now);
      TouchOk(entry, active.value, used[active.value]);
      PutBounded(s.peers, s.me, bundle.owner, now, room, used);
    } else if start.Initiated? {
      StartOk(entry, s.me, start.id, start.init, now);
      PutBounded(s.peers, s.me, bundle.owner, now, room, StartSession(entry, s.me, start.id, start.init, now));
    }
  }

  lemma {:induction false} ReceiveBounded(s: Store, from: Peer, body: Body, now: Time, c: Crypto, room: map<Peer, Entry>)
    requires Bounded(s.peers) && MadeRoom(s.peers, s.me, from, now, room)
    ensures Bounded(Decrypt(s, from, body, now, c, room).store.peers)
  {
    var held := FindSession(EntryOf(s.peers, from), body.session);
    if held.Some? {
      var heard := HeardOn(s.peers[from], held.value, now);
      TouchOk(s.peers[from], held.value, heard[held.value]);
      assert s.peers[from := heard].Keys == s.peers.Keys;
    } else {
      PutBounded(s.peers, s.me, from, now, room, []);
      var entry := EntryOf(room, from);
      AcceptOk(entry, s.me, from, body.session, now);
      PutBounded(s.peers, s.me, from, now, room, AcceptSession(entry, s.me, from, body.session, now));
    }
  }

  lemma {:induction false} StepBounded(s: Store, op: Op)
    requires Bounded(s.peers) && Possible(s, op)
    ensures Bounded(Step(s, op).peers)
  {
    match op
    case Send(bundle, now, room, start, seals) => SendBounded(s, bundle, now, room, start, seals);
    case Receive(from, body, now, c, room) => ReceiveBounded(s, from, body, now, c, room);
    case ForgetPeer(peer) =>
      SmallerSet(Forget(s, peer).peers.Keys, s.peers.Keys);
    case RetireEvery =>
      assert RetireAll(s).peers.Keys == s.peers.Keys;
      forall p | p in s.peers ensures EntryOk(Retired(s.peers[p])) {
        RetiredIs(s.peers[p]);
      }
    case _ =>
  }

  /** From an empty store, every reachable store holds at most 256 peers, at most
      five sessions with each, and at most one of them to send on. */
  lemma {:induction false} RunBounded(me: Peer, ops: seq<Op>)
    requires PossibleRun(me, ops)
    ensures Bounded(After(me, ops).peers)
  {
    if ops != [] {
      PossibleBefore(me, ops);
      RunBounded(me, ops[..|ops| - 1]);
      StepBounded(After(me, ops[..|ops| - 1]), ops[|ops| - 1]);
    }
  }

  lemma {:induction false} PossibleBefore(me: Peer, ops: seq<Op>)
    requires ops != [] && PossibleRun(me, ops)
    ensures PossibleRun(me, ops[..|ops| - 1]) && Possible(After(me, ops[..|ops| - 1]), ops[|ops| - 1])
  {
    var before := ops[..|ops| - 1];
    forall k | 0 <= k < |before| ensures before[..k] == ops[..k] && before[k] == ops[k] {
    }
  }

  // --- a message sent ---------------------------------------------------------------------------

  /** A message goes out exactly when the session there is to send on seals or, with
      none, one can be started from prekeys not past their 21 days; it is then on the
      one active session, and carries its handshake as long as that is unanswered. */
  lemma {:induction false} EncryptIff(s: Store, bundle: Bundle, now: Time, room: map<Peer, Entry>, start: Initiated, seals: bool)
    requires OneActive(EntryOf(room, bundle.owner))
    ensures var r := Encrypt(s, bundle, now, room, start, seals);
            && (r.result.Ok? <==>
                if AnyActive(EntryOf(room, bundle.owner)) then seals
                else
                  && bundle.supportsSessions && start.Initiated?
                  && (bundle.signedAt.Some? ==> Since(now, bundle.signedAt.value) <= SIGNED_PREKEY_RETENTION))
            && (r.result.Ok? ==>
                  exists x :: x in EntryOf(r.store.peers, bundle.owner) && x.active && x.lastUsed == now &&
                    r.result.value == Body(x.id, x.pendingInit))
            && (r.result.Err? ==> EntryOf(r.store.peers, bundle.owner) == EntryOf(room, bundle.owner))
  {
    var entry := EntryOf(room, bundle.owner);
    var active := FindActive(entry);
    var r := Encrypt(s, bundle, now, room, start, seals);
    if active.Some? {
      assert entry[active.value] in entry;
      if seals {
        var used := UseActive(entry, active.value, now);
        assert used[active.value] in EntryOf(r.store.peers, bundle.owner);
      }
    } else if r.result.Ok? {
      StartOk(entry, s.me, start.id, start.init, now);
      assert PeerSession(start.id, s.me, now, now, Some(start.init), true) in EntryOf(r.store.peers, bundle.owner);
    }
  }

  lemma {:induction false} RoomDropsIff(peers: map<Peer, Entry>, me: Peer, peer: Peer, now: Time, room: map<Peer, Entry>)
    requires MadeRoom(peers, me, peer, now, room)
    ensures (exists p :: p in peers && p !in room) <==>
            && peer !in peers
            && (|Recent(peers, now)| < |peers| || |Recent(peers, now)| >= MAX_SESSION_PEERS)
  {
    if peer !in peers {
      var kept := Recent(peers, now);
      SmallerSet(kept.Keys, peers.Keys);
      SmallerSet(room.Keys, kept.Keys);
      if forall p | p in peers :: p in room {
        assert room.Keys == peers.Keys;
      } else if |room| == |kept| && |kept| == |peers| {
        SameSize(kept.Keys, peers.Keys);
        SameSize(room.Keys, kept.Keys);
      }
    }
  }

  /** What a send costs others, whether it goes out or not, room being made before
      anything is checked: somebody is dropped if and only if nothing is held for the
      peer written to and somebody has gone unused too long or there is no room. A send
      that fails leaves the rest as they were, and the peer held with no session more. */
  lemma {:induction false} SendDropsIff(s: Store, bundle: Bundle, now: Time, room: map<Peer, Entry>, start: Initiated,
                                        seals: bool)
    requires MadeRoom(s.peers, s.me, bundle.owner, now, room)
    ensures var r := Encrypt(s, bundle, now, room, start, seals);
            && ((exists p :: p in s.peers && p !in r.store.peers) <==>
                && bundle.owner !in s.peers
                && (|Recent(s.peers, now)| < |s.peers| || |Recent(s.peers, now)| >= MAX_SESSION_PEERS))
            && (r.result.Err? ==>
                  && bundle.owner in r.store.peers
                  && r.store.peers[bundle.owner] == EntryOf(s.peers, bundle.owner)
                  && forall p | p in r.store.peers && p != bundle.owner ::
                       p in s.peers && r.store.peers[p] == s.peers[p])
  {
    var entry := SentEntry(s, bundle, now, room, start, seals);
    RoomDropsIff(s.peers, s.me, bundle.owner, now, room);
    PutDropsNobody(s.peers, room, bundle.owner, entry);
  }

  /** A send changes the entry of the peer written to, and that only if it goes out. */
  lemma {:induction false} SentEntry(s: Store, bundle: Bundle, now: Time, room: map<Peer, Entry>, start: Initiated,
                                     seals: bool) returns (entry: Entry)
    ensures var r := Encrypt(s, bundle, now, room, start, seals);
            r.store.peers == room[bundle.owner := entry] && (r.result.Err? ==> entry == EntryOf(room, bundle.owner))
  {
    entry := Encrypt(s, bundle, now, room, start, seals).store.peers[bundle.owner];
  }

  lemma {:induction false} PutDropsNobody(peers: map<Peer, Entry>, room: map<Peer, Entry>, peer: Peer, entry: Entry)
    requires peer in peers ==> peer in room
    ensures (exists p :: p in peers && p !in room[peer := entry]) <==> exists p :: p in peers && p !in room
  {
    if p :| p in peers && p !in room {
      assert p !in room[peer := entry];
    }
  }

  /** So writing to somebody who publishes no prekeys fails, and with the store full
      costs somebody else their sessions. */
  lemma {:induction false} FailedSendEvicts(s: Store, bundle: Bundle, now: Time, room: map<Peer, Entry>, start: Initiated,
                                            seals: bool)
    requires MadeRoom(s.peers, s.me, bundle.owner, now, room)
    requires bundle.owner !in s.peers && !bundle.supportsSessions && |Recent(s.peers, now)| >= MAX_SESSION_PEERS
    ensures var r := Encrypt(s, bundle, now, room, start, seals);
            r.result == Err(NoPrekeys) && exists p :: p in s.peers && p !in r.store.peers
  {
    SendDropsIff(s, bundle, now, room, start, seals);
    assert EntryOf(room, bundle.owner) == [];
  }

  // --- a body that does not open --------------------------------------------------------------

  /** Whether every key a handshake names is held. */
  predicate HoldsNamed(s: Store, init: Init) {
    && (exists k | k in s.signed :: k.id == init.signedId)
    && (init.oneTimeId.Some? ==> exists d | d in s.oneTime :: d.key.id == init.oneTimeId.value)
    && (init.pqId.Some? ==>
          || (exists d | d in s.pqOneTime :: d.key.id == init.pqId.value)
          || (exists k | k in s.pqSigned :: k.id == init.pqId.value))
  }

  /** A body is taken exactly when it opens on a session held for its sender, or
      names only keys still held and opens under one of ours; where it is not,
      nothing changes. */
  lemma {:induction false} DecryptIff(s: Store, from: Peer, body: Body, now: Time, c: Crypto, room: map<Peer, Entry>)
    ensures var r := Decrypt(s, from, body, now, c, room);
            && (r.result.Ok? <==>
                if exists x | x in EntryOf(s.peers, from) :: x.id == body.session then c.opensInSession
                else
                  && body.init.Some? && HoldsNamed(s, body.init.value)
                  && (c.current.Opened? || (c.current.DoesNotOpen? && c.previous == Some(Opened))))
            && (r.result.Err? ==> r.store == s)
  {
    var entry := EntryOf(s.peers, from);
    var held := FindSession(entry, body.session);
    if held.Some? {
      assert entry[held.value] in entry;
    } else if body.init.Some? {
      NamedIff(s, body.init.value);
    }
  }

  lemma {:induction false} NamedIff(s: Store, init: Init)
    ensures FindNamed(s, init).Ok? <==> HoldsNamed(s, init)
  {
    var signed := FindKey(s.signed, init.signedId);
    assert signed.Some? ==> s.signed[signed.value] in s.signed;
    if init.oneTimeId.Some? {
      var i := FindDeposit(s.oneTime, init.oneTimeId.value);
      assert i.Some? ==> s.oneTime[i.value] in s.oneTime;
    }
    if init.pqId.Some? {
      var i, k := FindDeposit(s.pqOneTime, init.pqId.value), FindKey(s.pqSigned, init.pqId.value);
      assert i.Some? ==> s.pqOneTime[i.value] in s.pqOneTime;
      assert k.Some? ==> s.pqSigned[k.value] in s.pqSigned;
    }
  }
}
