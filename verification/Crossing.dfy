/**
 Two clients that may each start a session before hearing from the other
 (`sessions.rs`), over channels that keep each direction in order.

 A message opens if its session is held or it carries a handshake; nothing is
 forgotten or retired, and neither side runs out of room.
 */
module Crossing {
  import opened Wrappers
  import opened Sessions

  /** The two sides, the lower id first, and the session each would start. */
  datatype Pair = Pair(a: Peer, b: Peer, sa: SessionId, sb: SessionId, ia: Init, ib: Init)

  predicate Apart(p: Pair) {
    p.a < p.b && p.sa != p.sb
  }

  // --- one side ---------------------------------------------------------------------------

  datatype SendResult = SendResult(entry: Entry, body: Body)

  /** Send on the active session, starting one if there is none. */
  function SendOn(entry: Entry, me: Peer, id: SessionId, init: Init, now: Time): SendResult {
    var active := FindActive(entry);
    if active.Some? then
      SendResult(UseActive(entry, active.value, now),
                 Body(entry[active.value].id, entry[active.value].pendingInit))
    else SendResult(StartSession(entry, me, id, init, now), Body(id, Some(init)))
  }

  /** Receive on a session held, or through the handshake a body carries. */
  function Hear(entry: Entry, me: Peer, from: Peer, body: Body, now: Time): Option<Entry> {
    var held := FindSession(entry, body.session);
    if held.Some? then Some(HeardOn(entry, held.value, now))
    else if body.init.Some? then Some(AcceptSession(entry, me, from, body.session, now))
    else None
  }

  /** This is what the store does to the peer's entry where a session can start. */
  lemma {:induction false} StoreSends(s: Store, bundle: Bundle, now: Time, room: map<Peer, Entry>, id: SessionId, init: Init)
    requires bundle.supportsSessions
    requires bundle.signedAt.None? || Since(now, bundle.signedAt.value) <= SIGNED_PREKEY_RETENTION
    ensures var r := Encrypt(s, bundle, now, room, Initiated(id, init), true);
            var sent := SendOn(EntryOf(room, bundle.owner), s.me, id, init, now);
            r.result == Ok(sent.body) && EntryOf(r.store.peers, bundle.owner) == sent.entry
  {
  }

  /** And where every message opens and every key named is held. */
  lemma {:induction false} StoreHears(s: Store, from: Peer, body: Body, now: Time, c: Crypto)
    requires c.opensInSession && c.current.Opened?
    requires body.init.Some? ==> FindNamed(s, body.init.value).Ok?
    ensures var r := Decrypt(s, from, body, now, c, s.peers);
            var heard := Hear(EntryOf(s.peers, from), s.me, from, body, now);
            && (r.result.Ok? <==> heard.Some?)
            && (heard.Some? ==> EntryOf(r.store.peers, from) == heard.value)
  {
  }

  // --- both sides and what is on its way ---------------------------------------------------

  /** `late` notes that their handshake reached the lower id after its window;
      `lost` that a body reached a side that could not open it. */
  datatype World = World(ea: Entry, eb: Entry, toB: seq<Body>, toA: seq<Body>, late: bool, lost: bool)

  const NEW_WORLD := World([], [], [], [], false, false)

  datatype Event = SendA(now: Time) | SendB(now: Time) | DeliverA(now: Time) | DeliverB(now: Time)

  /** A handshake finds a session of the lower id's own whose window has passed. */
  predicate PastWindow(entry: Entry, body: Body, now: Time) {
    && FindSession(entry, body.session).None? && entry != []
    && Since(now, entry[0].establishedAt) >= CROSSING_WINDOW
  }

  function Step(p: Pair, w: World, e: Event): World {
    match e
    case SendA(now) =>
      var r := SendOn(w.ea, p.a, p.sa, p.ia, now);
      w.(ea := r.entry, toB := w.toB + [r.body])
    case SendB(now) =>
      var r := SendOn(w.eb, p.b, p.sb, p.ib, now);
      w.(eb := r.entry, toA := w.toA + [r.body])
    case DeliverA(now) =>
      if w.toA == [] then w
      else
        var r := Hear(w.ea, p.a, p.b, w.toA[0], now);
        w.(ea := if r.Some? then r.value else w.ea, toA := w.toA[1..],
           late := w.late || PastWindow(w.ea, w.toA[0], now), lost := w.lost || r.None?)
    case DeliverB(now) =>
      if w.toB == [] then w
      else
        var r := Hear(w.eb, p.b, p.a, w.toB[0], now);
        w.(eb := if r.Some? then r.value else w.eb, toB := w.toB[1..], lost := w.lost || r.None?)
  }

  function After(p: Pair, events: seq<Event>): World {
    if events == [] then NEW_WORLD else Step(p, After(p, events[..|events| - 1]), events[|events| - 1])
  }

  /** The session a side sends on. */
  function Active(entry: Entry): Option<SessionId> {
    var i := FindActive(entry);
    if i.Some? then Some(entry[i.value].id) else None
  }
}
