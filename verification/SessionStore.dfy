/** The session store's own operations (`sessions.rs`), updated in place. */
module SessionStores {
  import opened Wrappers
  import Spec = Sessions

  lemma {:induction false} NoMoreUsefulTrans(a: Spec.Entry, b: Spec.Entry, c: Spec.Entry, me: Spec.Peer)
    requires Spec.NoMoreUseful(a, b, me) && Spec.NoMoreUseful(b, c, me)
    ensures Spec.NoMoreUseful(a, c, me)
  {
  }

  /** The inactive session longest unused. */
  method FindLeastUsed(entry: Spec.Entry) returns (r: Option<nat>)
    ensures r == Spec.LeastUsed(entry)
  {
    r := None;
    for i := 0 to |entry|
      invariant r == Spec.LeastUsed(entry[..i])
    {
      assert entry[..i + 1][..i] == entry[..i];
      if !entry[i].active && (r.None? || entry[i].lastUsed < entry[r.value].lastUsed) {
        r := Some(i);
      }
    }
    assert entry[..|entry|] == entry;
  }

  method PruneEntry(entry: Spec.Entry) returns (r: Spec.Entry)
    ensures r == Spec.Prune(entry)
  {
    r := entry;
    while |r| > Spec.MAX_SESSIONS_PER_PEER
      invariant Spec.Prune(r) == Spec.Prune(entry)
      decreases |r|
    {
      var victim := FindLeastUsed(r);
      if victim.None? {
        return;
      }
      r := r[..victim.value] + r[victim.value + 1..];
    }
  }

  /** A fresh key when the newest is due, then the old ones dropped. */
  method RotateKeys(keys: seq<Spec.Prekey>, made: Spec.Prekey, now: Spec.Time) returns (r: seq<Spec.Prekey>)
    ensures r == Spec.Rotate(keys, made, now) && r != []
  {
    r := keys;
    if keys == [] || Spec.Since(now, keys[0].createdAt) >= Spec.SIGNED_PREKEY_ROTATION {
      r := [made] + keys;
    }
    var keep := 0;
    while keep < |r| && Spec.Since(now, r[keep].createdAt) < Spec.SIGNED_PREKEY_RETENTION
      invariant keep <= |r| && Spec.Young(r, now) == keep + Spec.Young(r[keep..], now)
    {
      assert r[keep..][1..] == r[keep + 1..];
      keep := keep + 1;
    }
    r := if keep == 0 then r[..1] else r[..keep];
  }

  class SessionStore {
    const me: Spec.Peer
    var signed: seq<Spec.Prekey>
    var oneTime: seq<Spec.Deposited>
    var pqSigned: seq<Spec.Prekey>
    var pqOneTime: seq<Spec.Deposited>
    var peers: map<Spec.Peer, Spec.Entry>
    var topUps: seq<Spec.Time>

    function View(): Spec.Store
      reads this
    {
      Spec.Store(me, signed, oneTime, pqSigned, pqOneTime, peers, topUps)
    }

    constructor (me: Spec.Peer)
      ensures View() == Spec.Fresh(me)
    {
      this.me := me;
      signed, oneTime, pqSigned, pqOneTime, peers, topUps := [], [], [], [], map[], [];
    }

    /** The least useful of the peers held. */
    method LeastUseful() returns (victim: Spec.Peer)
      requires peers.Keys != {}
      ensures victim in peers && forall p | p in peers :: Spec.NoMoreUseful(peers[victim], peers[p], me)
    {
      var left := peers.Keys;
      victim :| victim in left;
      left := left - {victim};
      while left != {}
        invariant left <= peers.Keys && victim in peers
        invariant forall p | p in peers && p !in left :: Spec.NoMoreUseful(peers[victim], peers[p], me)
        decreases |left|
      {
        var p :| p in left;
        if !Spec.NoMoreUseful(peers[victim], peers[p], me) {
          forall q | q in peers && q !in left ensures Spec.NoMoreUseful(peers[p], peers[q], me) {
            NoMoreUsefulTrans(peers[p], peers[victim], peers[q], me);
          }
          victim := p;
        }
        left := left - {p};
      }
    }

    /** Room for a session with `peer`. */
    method MakeRoom(peer: Spec.Peer, now: Spec.Time)
      modifies this`peers
      ensures Spec.MadeRoom(old(peers), me, peer, now, peers)
    {
      if peer in peers {
        return;
      }
      ghost var kept := Spec.Recent(peers, now);
      peers := Spec.Recent(peers, now);
      while |peers| >= Spec.MAX_SESSION_PEERS
        invariant forall p | p in peers :: p in kept && peers[p] == kept[p]
        invariant |kept| < Spec.MAX_SESSION_PEERS ==> |peers| == |kept|
        invariant |kept| >= Spec.MAX_SESSION_PEERS ==> |peers| >= Spec.MAX_SESSION_PEERS - 1
        invariant forall d, r | d in kept && d !in peers && r in peers :: Spec.NoMoreUseful(kept[d], kept[r], me)
        decreases |peers|
      {
        var victim := LeastUseful();
        ghost var before := peers;
        peers := peers - {victim};
        assert before.Keys == peers.Keys + {victim};
      }
    }

    /** Encrypt for the owner of a bundle, starting a session if there is none. */
    method Encrypt(bundle: Spec.Bundle, now: Spec.Time, start: Spec.Initiated, seals: bool)
      returns (r: Result<Spec.Body, Spec.SessionError>, ghost room: map<Spec.Peer, Spec.Entry>)
      modifies this`peers
      ensures Spec.MadeRoom(old(peers), me, bundle.owner, now, room)
      ensures Spec.Sent(View(), r) == Spec.Encrypt(old(View()), bundle, now, room, start, seals)
    {
      var peer := bundle.owner;
      MakeRoom(peer, now);
      room := peers;
      var entry := if peer in peers then peers[peer] else [];
      var active := Spec.FindActive(entry);
      if active.Some? && !seals {
        peers := peers[peer := entry];
        r := Err(Spec.Protocol);
        return;
      }
      if active.Some? {
        var current := entry[active.value];
        peers := peers[peer := entry[active.value := current.(lastUsed := now)]];
        r := Ok(Spec.Body(current.id, current.pendingInit));
        return;
      }
      var refusal := Refusal(bundle, now, start);
      if refusal.Some? {
        peers := peers[peer := entry];
        r := Err(refusal.value);
        return;
      }
      var started := Spec.PeerSession(start.id, me, now, now, Some(start.init), true);
      var pruned := PruneEntry(Spec.Retired(entry) + [started]);
      peers := peers[peer := pruned];
      r := Ok(Spec.Body(start.id, Some(start.init)));
    }

    /** Why no session can start from a bundle, if none can. */
    method Refusal(bundle: Spec.Bundle, now: Spec.Time, start: Spec.Initiated) returns (r: Option<Spec.SessionError>)
      ensures r == if !bundle.supportsSessions then Some(Spec.NoPrekeys)
                   else if bundle.signedAt.Some? && Spec.Since(now, bundle.signedAt.value) > Spec.SIGNED_PREKEY_RETENTION
                   then Some(Spec.StalePrekeys(Spec.Since(now, bundle.signedAt.value) / Spec.DAY))
                   else if start.CannotInitiate? then Some(Spec.Protocol) else None
    {
      if !bundle.supportsSessions {
        return Some(Spec.NoPrekeys);
      }
      if bundle.signedAt.Some? {
        var age := Spec.Since(now, bundle.signedAt.value);
        if age > Spec.SIGNED_PREKEY_RETENTION {
          return Some(Spec.StalePrekeys(age / Spec.DAY));
        }
      }
      return if start.CannotInitiate? then Some(Spec.Protocol) else None;
    }

    /** The handshake under the current key and then, where held, the previous. */
    method TryKeys(c: Spec.Crypto) returns (error: Option<Spec.SessionError>)
      ensures error == Spec.Respond(c)
    {
      var attempts := [c.current] + if c.previous.Some? then [c.previous.value] else [];
      for k := 0 to |attempts|
        invariant k > 0 ==> c.current.DoesNotOpen?
        invariant k > 1 ==> attempts[1].DoesNotOpen?
      {
        match attempts[k] {
          case Opened => return None;
          case RespondFails => return Some(Spec.Protocol);
          case OtherSession => return Some(Spec.SessionMismatch);
          case DoesNotOpen =>
            if k + 1 == |attempts| {
              return Some(Spec.InSession);
            }
        }
      }
      return Some(Spec.InSession);
    }

    /** Decrypt a body, deriving a session from our prekeys where it carries a
        handshake not seen before. */
    method Decrypt(from: Spec.Peer, body: Spec.Body, now: Spec.Time, c: Spec.Crypto)
      returns (r: Result<bool, Spec.SessionError>, ghost room: map<Spec.Peer, Spec.Entry>)
      modifies this`peers, this`oneTime, this`pqOneTime
      ensures r == Ok(true) ==> Spec.MadeRoom(old(peers), me, from, now, room)
      ensures Spec.Heard(View(), r) == Spec.Decrypt(old(View()), from, body, now, c, room)
      ensures r.Err? ==> View() == old(View())
    {
      room := peers;
      var entry := if from in peers then peers[from] else [];
      var held := Spec.FindSession(entry, body.session);
      if held.Some? {
        if !c.opensInSession {
          r := Err(Spec.InSession);
          return;
        }
        peers := peers[from := entry[held.value := entry[held.value].(lastUsed := now, pendingInit := None)]];
        r := Ok(false);
        return;
      }
      if body.init.None? {
        r := Err(Spec.UnknownSession);
        return;
      }
      var named := Spec.FindNamed(View(), body.init.value);
      if named.Err? {
        r := Err(named.error);
        return;
      }
      var error := TryKeys(c);
      if error.Some? {
        r := Err(error.value);
        return;
      }
      oneTime := Spec.Without(oneTime, named.value.oneTime);
      pqOneTime := Spec.Without(pqOneTime, named.value.pqOneTime);
      MakeRoom(from, now);
      room := peers;
      entry := if from in peers then peers[from] else [];
      var ours := Spec.OursWins(entry, me, from, now);
      if !ours {
        entry := Spec.Retired(entry);
      }
      entry := PruneEntry(entry + [Spec.PeerSession(body.session, from, now, now, None, !ours)]);
      peers := peers[from := entry];
      r := Ok(true);
    }

    method Forget(peer: Spec.Peer)
      modifies this`peers
      ensures View() == Spec.Forget(old(View()), peer)
    {
      peers := peers - {peer};
    }

    /** Retire every session with everybody, keeping them. */
    method RetireAll() returns (retired: set<Spec.Peer>)
      modifies this`peers
      ensures View() == Spec.RetireAll(old(View()))
      ensures forall p :: p in retired <==> p in old(peers) && Spec.AnyActive(old(peers)[p])
    {
      ghost var before := peers;
      retired := {};
      var left := peers.Keys;
      while left != {}
        invariant left <= before.Keys && peers.Keys == before.Keys
        invariant forall p | p in before :: peers[p] == if p in left then before[p] else Spec.Retired(before[p])
        invariant forall p :: p in retired <==> p in before && p !in left && Spec.AnyActive(before[p])
        decreases |left|
      {
        var p :| p in left;
        if Spec.AnyActive(peers[p]) {
          retired := retired + {p};
        }
        peers := peers[p := Spec.Retired(peers[p])];
        left := left - {p};
      }
      assert peers == map p | p in before :: Spec.Retired(before[p]);
    }

    /** The prekeys to publish: rotated where due, topped up. */
    method PrekeysForPublish(now: Spec.Time, made: Spec.Made) returns (published: Spec.Published)
      requires Spec.Supplies(View(), now, made)
      modifies this`signed, this`pqSigned, this`oneTime, this`pqOneTime
      ensures View() == Spec.Publish(old(View()), now, made)
      ensures signed != [] && published == Spec.PublicPrekeys(View())
    {
      signed := RotateKeys(signed, made.signed, now);
      pqSigned := RotateKeys(pqSigned, made.pqSigned, now);
      oneTime := Spec.TopUp(oneTime, Spec.ONE_TIME_TARGET, now, made.oneTime);
      pqOneTime := Spec.TopUp(pqOneTime, Spec.PQ_ONE_TIME_TARGET, now, made.pqOneTime);
      published := PublicPrekeys();
    }

    method PublicPrekeys() returns (published: Spec.Published)
      requires signed != []
      ensures published == Spec.PublicPrekeys(View())
    {
      var keys := PublicHalves(oneTime);
      var pqKeys := PublicHalves(pqOneTime);
      published := Spec.Published(signed[0], keys, if pqSigned == [] then None else Some(pqSigned[0]), pqKeys);
    }

    /** Whether a deposit may be made now. */
    method MayTopUp(now: Spec.Time) returns (r: bool)
      modifies this`topUps
      ensures r == Spec.MayTopUp(old(topUps), now) && topUps == Spec.AfterAsking(old(topUps), now)
    {
      topUps := Spec.LastHour(topUps, now);
      if |topUps| >= Spec.TOP_UPS_PER_HOUR {
        return false;
      }
      topUps := topUps + [now];
      return true;
    }

    /** What the relay reported after a publish; whether a new one is needed. */
    method ApplyPrekeyStatus(report: Spec.Report, now: Spec.Time, made: Spec.Made) returns (republish: bool)
      modifies this`oneTime, this`pqOneTime, this`topUps
      ensures View() == Spec.ApplyStatus(old(View()), report, now, made)
      ensures republish <==> Spec.RunsLow(report) && Spec.MayTopUp(old(topUps), now)
    {
      oneTime := MarkConsumed(oneTime, report.consumed, now);
      pqOneTime := MarkConsumed(pqOneTime, report.pqConsumed, now);
      republish := false;
      if report.remaining < Spec.ONE_TIME_MIN ||
         (report.pqRemaining.Some? && report.pqRemaining.value < Spec.PQ_ONE_TIME_MIN) {
        republish := MayTopUp(now);
      }
      if republish {
        oneTime := Spec.TopUp(oneTime, Spec.ONE_TIME_TARGET, now, made.oneTime);
        pqOneTime := Spec.TopUp(pqOneTime, Spec.PQ_ONE_TIME_TARGET, now, made.pqOneTime);
      }
    }
  }

  method PublicHalves(deposit: seq<Spec.Deposited>) returns (keys: seq<Spec.Prekey>)
    ensures keys == Spec.KeysOnDeposit(deposit)
  {
    keys := [];
    for k := 0 to |deposit|
      invariant keys == Spec.KeysOnDeposit(deposit[..k])
    {
      assert deposit[..k + 1][..k] == deposit[..k];
      if deposit[k].handedOutAt.None? {
        keys := keys + [deposit[k].key];
      }
    }
    assert deposit[..|deposit|] == deposit;
  }

  method MarkConsumed(deposit: seq<Spec.Deposited>, consumed: set<nat>, now: Spec.Time) returns (r: seq<Spec.Deposited>)
    ensures r == Spec.NoteConsumed(deposit, consumed, now)
  {
    r := deposit;
    for i := 0 to |deposit|
      invariant |r| == |deposit|
      invariant forall j | 0 <= j < |deposit| ::
                  r[j] == if j < i then Spec.NoteConsumed(deposit, consumed, now)[j] else deposit[j]
    {
      if r[i].key.id in consumed && r[i].handedOutAt.None? {
        r := r[i := r[i].(handedOutAt := Some(now))];
      }
    }
  }
}
