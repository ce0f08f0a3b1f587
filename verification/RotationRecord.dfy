/**
 A key rotation and the record of generations (`store.rs`, `vault.rs`): a rotation
 writes the vault anew, with the generation of the record in use for its anchor, and
 moves `state` onto the new key but not `state.prev`. What the next unlock finds.
 */
module RotationRecord {
  import opened Wrappers
  import Rollback
  import RollbackTheorems
  import Keys = Rotation

  /** A record as it lies on disk, sealed under a key. */
  datatype Kept = Kept(state: Rollback.State, key: Keys.Key)

  /** `anchor` is none in a vault that carries no generation. */
  datatype Disk = Disk(vault: Keys.Keys, anchor: Option<nat>, state: Option<Kept>, previous: Option<Kept>)

  /** What a session has in hand: a record, none it could accept, or none to look for. */
  datatype InHand = Bound(record: Rollback.State) | Unreadable | Adopting

  predicate Accepts(d: Disk, kept: Option<Kept>) {
    && kept.Some? && Keys.Opens(d.vault, kept.value.key) && d.anchor.Some?
    && Rollback.Anchored(Some(kept.value.state), d.anchor.value)
  }

  /** `state`, else `state.prev`, whichever opens and the anchor bears out first; a vault
      with no anchor has the directory adopted anew. */
  function Unlock(d: Disk): InHand {
    if d.anchor.None? then Adopting
    else if Accepts(d, d.state) then Bound(d.state.value.state)
    else if Accepts(d, d.previous) then Bound(d.previous.value.state)
    else Unreadable
  }

  /** Both keys and the anchor in the vault; then `state` onto the new key; then the old
      key dropped. */
  function Rotate(d: Disk, hand: InHand, newKey: Keys.Key, steps: nat): Disk {
    if steps == 0 then d
    else
      var anchor := if hand.Bound? then Some(hand.record.generation) else None;
      var state := if steps >= 2 && d.state.Some? then Some(d.state.value.(key := newKey)) else d.state;
      Disk(Keys.Keys(newKey, if steps >= 3 then None else Some(d.vault.key)), anchor, state, d.previous)
  }

  /** An unlock finishes what a crash left of a rotation before it looks for the record. */
  function Finish(d: Disk): Disk {
    if d.vault.previous.None? then d
    else
      d.(vault := Keys.Keys(d.vault.key, None),
         state := if d.state.Some? then Some(d.state.value.(key := d.vault.key)) else None)
  }

  /** One key in the vault, and the record under it. */
  predicate Whole(d: Disk) {
    d.vault.previous.None? && (d.state.Some? ==> d.state.value.key == d.vault.key)
  }

  /** However far a rotation got, once begun: the next unlock finds the record in hand if
      that was in `state`. One found in `state.prev` it does not find again: it takes up
      the `state` it was found in place of if that is exactly one generation on, and
      finds none if it is not. With no record in hand the anchor is dropped, and the
      next unlock adopts the directory as it stands. */
  lemma {:induction false} RotatedUnlockIs(d: Disk, newKey: Keys.Key, steps: nat)
    requires Whole(d) && newKey != d.vault.key && (d.previous.Some? ==> d.previous.value.key != newKey) && steps >= 1
    ensures var hand, next := Unlock(d), Unlock(Finish(Rotate(d, Unlock(d), newKey, steps)));
            && (Accepts(d, d.state) ==> next == hand)
            && (hand.Bound? && !Accepts(d, d.state) ==>
                  next == if d.state.Some? && d.state.value.state.generation == hand.record.generation + 1
                          then Bound(d.state.value.state) else Unreadable)
            && (!hand.Bound? ==> next == Adopting)
  {
  }

  /** So it finds the record in hand if and only if that is the one in `state`. */
  lemma {:induction false} RotatedKeepsRecordIff(d: Disk, newKey: Keys.Key, steps: nat)
    requires Whole(d) && newKey != d.vault.key && (d.previous.Some? ==> d.previous.value.key != newKey) && steps >= 1
    requires Unlock(d).Bound?
    ensures Unlock(Finish(Rotate(d, Unlock(d), newKey, steps))) == Unlock(d) <==> Accepts(d, d.state)
  {
    RotatedUnlockIs(d, newKey, steps);
  }

  /** The record of a running directory, both copies under its key. */
  function Of(w: Rollback.World, key: Keys.Key): Disk {
    Disk(Keys.Keys(key, None), Some(w.disk.anchor),
         if w.disk.state.Some? then Some(Kept(w.disk.state.value, key)) else None,
         if w.disk.previous.Some? then Some(Kept(w.disk.previous.value, key)) else None)
  }

  /** After any run of writes, crashes and all, that leaves a record: a rotation keeps it,
      and the anchor no longer lags, unless two records are ahead of the anchor; then the
      second of them, refused until now, is the one taken up. */
  lemma {:induction false} RotationAfterRun(w: Rollback.World, events: seq<Rollback.Event>, key: Keys.Key,
                                            newKey: Keys.Key, steps: nat)
    requires Rollback.Settled(w) && Rollback.After(w, events).Some? && newKey != key && steps >= 1
    ensures var now := Rollback.After(w, events).value;
            var d := Of(now, key);
            var rotated := Rotate(d, Unlock(d), newKey, steps);
            && Unlock(d) == Bound(now.record) && rotated.anchor == Some(now.record.generation)
            && (RollbackTheorems.Lag(events) < 2 ==> Unlock(Finish(rotated)) == Bound(now.record))
            && (RollbackTheorems.Lag(events) >= 2 ==>
                  && now.disk.state.Some? && now.disk.state.value.generation == now.record.generation + 1
                  && Unlock(Finish(rotated)) == Bound(now.disk.state.value))
  {
    RollbackTheorems.UnlockAcceptsIff(w, events);
    RotatedUnlockIs(Of(Rollback.After(w, events).value, key), newKey, steps);
  }

  /** A bind of two files cut between record and anchor leaves its record in `state.prev`
      and a `state` two generations on: there a rotation loses the record. */
  lemma {:induction false} RotationStrands(record: Rollback.State, ahead: Rollback.State, key: Keys.Key,
                                           newKey: Keys.Key, steps: nat)
    requires ahead.generation == record.generation + 2 && newKey != key && steps >= 1
    ensures var d := Disk(Keys.Keys(key, None), Some(record.generation), Some(Kept(ahead, key)), Some(Kept(record, key)));
            Unlock(d) == Bound(record) && Unlock(Finish(Rotate(d, Unlock(d), newKey, steps))) == Unreadable
  {
    var d := Disk(Keys.Keys(key, None), Some(record.generation), Some(Kept(ahead, key)), Some(Kept(record, key)));
    RotatedUnlockIs(d, newKey, steps);
  }
}
