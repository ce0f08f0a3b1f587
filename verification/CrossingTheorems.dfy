/** That crossed sessions settle, on which one, and when they do not. */
module CrossingTheorems {
  import opened Wrappers
  import opened Sessions
  import opened Crossing

  // --- what each side can hold ----------------------------------------------------------------

  predicate Own(s: PeerSession, id: SessionId, me: Peer, init: Init) {
    s.id == id && s.initiator == me && (s.pendingInit.None? || s.pendingInit == Some(init))
  }

  predicate Theirs(s: PeerSession, id: SessionId, them: Peer) {
    s.id == id && s.initiator == them && s.pendingInit.None?
  }

  /** The lower id: nothing, its own session, theirs, or both. */
  predicate ShapeA(p: Pair, e: Entry, late: bool) {
    || (e == [] && !late)
    || (|e| == 1 && Own(e[0], p.sa, p.a, p.ia) && e[0].active && !late)
    || (|e| == 1 && Theirs(e[0], p.sb, p.b) && e[0].active && !late)
    || (|e| == 2 && Own(e[0], p.sa, p.a, p.ia) && Theirs(e[1], p.sb, p.b) && e[0].active == !late && e[1].active == late)
  }

  /** The higher id, whose own session always gives way. */
  predicate ShapeB(p: Pair, e: Entry) {
    || e == []
    || (|e| == 1 && Own(e[0], p.sb, p.b, p.ib) && e[0].active)
    || (|e| == 1 && Theirs(e[0], p.sa, p.a) && e[0].active)
    || (|e| == 2 && Own(e[0], p.sb, p.b, p.ib) && Theirs(e[1], p.sa, p.a) && !e[0].active && e[1].active)
  }

  predicate Holds(e: Entry, id: SessionId) {
    (|e| > 0 && e[0].id == id) || (|e| > 1 && e[1].id == id)
  }

  predicate Bodies(p: Pair, bodies: seq<Body>, e: Entry) {
    forall b | b in bodies :: (b.session == p.sa || b.session == p.sb) && Holds(e, b.session)
  }

  /** What every reachable world keeps. A side that has not heard the other's
      handshake has it first in line, and has heard nothing before it. */
  predicate Inv(p: Pair, w: World) {
    && ShapeA(p, w.ea, w.late) && ShapeB(p, w.eb) && !w.lost
    && Bodies(p, w.toB, w.ea) && Bodies(p, w.toA, w.eb)
    && (Holds(w.eb, p.sa) ==> Holds(w.ea, p.sa))
    && (Holds(w.ea, p.sb) ==> Holds(w.eb, p.sb))
    && (Holds(w.ea, p.sa) && !Holds(w.eb, p.sa) ==>
          && w.toB != [] && w.toB[0] == Body(p.sa, Some(p.ia))
          && w.ea[0].pendingInit.Some?)
    && (Holds(w.eb, p.sb) && !Holds(w.ea, p.sb) ==>
          && w.toA != [] && w.toA[0] == Body(p.sb, Some(p.ib))
          && (Holds(w.ea, p.sa) ==> w.ea[0].pendingInit.Some?))
  }

  // --- the steps on entries this small -------------------------------------------------------------

  lemma {:induction false} FindActiveSmall(e: Entry)
    requires |e| <= 2
    ensures FindActive(e) == if |e| > 0 && e[0].active then Some(0) else if |e| > 1 && e[1].active then Some(1) else None
  {
    if |e| > 0 {
      assert e[..1] == [e[0]] && [e[0]][..0] == [];
      assert FindActive([e[0]]) == if e[0].active then Some(0) else None;
      if |e| == 2 {
        assert e[..|e| - 1] == [e[0]];
      } else {
        assert e == [e[0]];
      }
    }
  }

  lemma {:induction false} FindSessionSmall(e: Entry, id: SessionId)
    requires |e| <= 2
    ensures FindSession(e, id) == if |e| > 0 && e[0].id == id then Some(0) else if |e| > 1 && e[1].id == id then Some(1) else None
  {
    if |e| > 0 {
      assert e[..1] == [e[0]] && [e[0]][..0] == [];
      assert FindSession([e[0]], id) == if e[0].id == id then Some(0) else None;
      if |e| == 2 {
        assert e[..|e| - 1] == [e[0]];
      } else {
        assert e == [e[0]];
      }
    }
  }

  /** Accepting a session beside at most one other. */
  lemma {:induction false} AcceptSmall(e: Entry, me: Peer, from: Peer, id: SessionId, now: Time)
    requires |e| <= 1
    ensures var ours := |e| == 1 && e[0].active && e[0].initiator == me && e[0].pendingInit.Some?
                        && Since(now, e[0].establishedAt) < CROSSING_WINDOW && me < from;
            var s := PeerSession(id, from, now, now, None, !ours);
            AcceptSession(e, me, from, id, now) ==
            if |e| == 0 then [s] else [if ours then e[0] else e[0].(active := false), s]
  {
    if |e| == 1 {
      assert e[0] in e;
      assert Retired(e) == [e[0].(active := false)];
    } else {
      assert Retired(e) == [];
    }
  }

  lemma {:induction false} StartSmall(me: Peer, id: SessionId, init: Init, now: Time)
    ensures StartSession([], me, id, init, now) == [PeerSession(id, me, now, now, Some(init), true)]
  {
    assert Retired([]) == [];
  }

  // --- each event keeps the invariant ------------------------------------------------------------------

  lemma {:induction false} SendAKeeps(p: Pair, w: World, now: Time)
    requires Apart(p) && Inv(p, w)
    ensures Inv(p, Step(p, w, SendA(now)))
  {
    FindActiveSmall(w.ea);
    StartSmall(p.a, p.sa, p.ia, now);
  }

  lemma {:induction false} SendBKeeps(p: Pair, w: World, now: Time)
    requires Apart(p) && Inv(p, w)
    ensures Inv(p, Step(p, w, SendB(now)))
  {
    FindActiveSmall(w.eb);
    StartSmall(p.b, p.sb, p.ib, now);
  }

  lemma {:induction false} DeliverAKeeps(p: Pair, w: World, now: Time)
    requires Apart(p) && Inv(p, w)
    ensures Inv(p, Step(p, w, DeliverA(now)))
  {
    if w.toA != [] {
      var body := w.toA[0];
      assert body in w.toA;
      assert forall b | b in w.toA[1..] :: b in w.toA;
      FindSessionSmall(w.ea, body.session);
      if !Holds(w.ea, body.session) {
        AcceptSmall(w.ea, p.a, p.b, body.session, now);
      }
    }
  }

  lemma {:induction false} DeliverBKeeps(p: Pair, w: World, now: Time)
    requires Apart(p) && Inv(p, w)
    ensures Inv(p, Step(p, w, DeliverB(now)))
  {
    if w.toB != [] {
      var body := w.toB[0];
      assert body in w.toB;
      assert forall b | b in w.toB[1..] :: b in w.toB;
      FindSessionSmall(w.eb, body.session);
      if !Holds(w.eb, body.session) {
        AcceptSmall(w.eb, p.b, p.a, body.session, now);
      }
    }
  }

  lemma {:induction false} RunInv(p: Pair, events: seq<Event>)
    requires Apart(p)
    ensures Inv(p, After(p, events))
  {
    if events != [] {
      RunInv(p, events[..|events| - 1]);
      var w := After(p, events[..|events| - 1]);
      match events[|events| - 1]
      case SendA(now) => SendAKeeps(p, w, now);
      case SendB(now) => SendBKeeps(p, w, now);
      case DeliverA(now) => DeliverAKeeps(p, w, now);
      case DeliverB(now) => DeliverBKeeps(p, w, now);
    }
  }

  // --- the theorems -------------------------------------------------------------------------------------

  /** In every interleaving, every body opens. */
  lemma {:induction false} EveryBodyOpens(p: Pair, events: seq<Event>)
    requires Apart(p)
    ensures !After(p, events).lost
  {
    RunInv(p, events);
  }

  /** Once each side has heard the other's handshake, the higher id sends on the
      lower id's session; and the lower id does too exactly when their handshake
      reached it within the window of starting its own. From then on for good. */
  lemma {:induction false} CrossedSettleIff(p: Pair, events: seq<Event>)
    requires Apart(p)
    requires var w := After(p, events);
             Holds(w.ea, p.sa) && Holds(w.ea, p.sb) && Holds(w.eb, p.sa) && Holds(w.eb, p.sb)
    ensures var w := After(p, events);
            && Active(w.eb) == Some(p.sa)
            && Active(w.ea) == (if w.late then Some(p.sb) else Some(p.sa))
            && (Active(w.ea) == Active(w.eb) <==> !w.late)
  {
    RunInv(p, events);
    var w := After(p, events);
    FindActiveSmall(w.ea);
    FindActiveSmall(w.eb);
  }

  /** With nothing on its way, both sides hold every session either started; they
      agree on the lower id's if it started one, the higher's if only it did. */
  lemma {:induction false} QuietAgree(p: Pair, events: seq<Event>)
    requires Apart(p)
    requires var w := After(p, events); w.toA == [] && w.toB == [] && !w.late
    ensures var w := After(p, events);
            && (Holds(w.ea, p.sa) <==> Holds(w.eb, p.sa)) && (Holds(w.ea, p.sb) <==> Holds(w.eb, p.sb))
            && Active(w.ea) == Active(w.eb) ==
               (if Holds(w.ea, p.sa) then Some(p.sa) else if Holds(w.eb, p.sb) then Some(p.sb) else None)
  {
    RunInv(p, events);
    var w := After(p, events);
    FindActiveSmall(w.ea);
    FindActiveSmall(w.eb);
  }

  /** The window is what decides: the same crossing, with their handshake heard
      at `heard` by a side that started at `started`. */
  lemma {:induction false} WindowDecides(p: Pair, started: Time, heard: Time)
    requires Apart(p)
    ensures var w := Step(p, Step(p, Step(p, Step(p, NEW_WORLD, SendA(started)), SendB(started)),
                                  DeliverA(heard)), DeliverB(heard));
            && w.toA == [] && w.toB == [] && Active(w.eb) == Some(p.sa)
            && (Active(w.ea) == Some(p.sa) <==> Since(heard, started) < CROSSING_WINDOW)
  {
    StartSmall(p.a, p.sa, p.ia, started);
    StartSmall(p.b, p.sb, p.ib, started);
    var w1 := Step(p, NEW_WORLD, SendA(started));
    var w2 := Step(p, w1, SendB(started));
    FindSessionSmall(w2.ea, p.sb);
    AcceptSmall(w2.ea, p.a, p.b, p.sb, heard);
    var w3 := Step(p, w2, DeliverA(heard));
    FindSessionSmall(w3.eb, p.sa);
    AcceptSmall(w3.eb, p.b, p.a, p.sa, heard);
    var w4 := Step(p, w3, DeliverB(heard));
    FindActiveSmall(w4.ea);
    FindActiveSmall(w4.eb);
  }

  /** So does the order: a side that heard on its own session before their
      handshake no longer has one pending, and moves to theirs in any window. */
  lemma {:induction false} OrderDecides(p: Pair, e: PeerSession, now: Time)
    requires Apart(p) && e.active && e.initiator == p.a && e.pendingInit.Some?
    ensures var answered := HeardOn([e], 0, now);
            Active(AcceptSession(answered, p.a, p.b, p.sb, now)) == Some(p.sb)
  {
    var answered := HeardOn([e], 0, now);
    AcceptSmall(answered, p.a, p.b, p.sb, now);
    FindActiveSmall(AcceptSession(answered, p.a, p.b, p.sb, now));
  }
}
