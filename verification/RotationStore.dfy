/** The directory moving from key to key (`store.rs`), loop by loop. */
module RotationStore {
  import opened Wrappers
  import Spec = Rotation

  class Directory {
    var vault: Spec.Keys
    var items: seq<Spec.Item>
    var statePrevious: Option<Spec.File>

    function At(phase: Spec.Phase): Spec.World
      reads this
    {
      Spec.World(vault, items, statePrevious, phase)
    }

    constructor (vault: Spec.Keys, items: seq<Spec.Item>, statePrevious: Option<Spec.File>)
      ensures At(Spec.Down) == Spec.World(vault, items, statePrevious, Spec.Down)
    {
      this.vault, this.items, this.statePrevious := vault, items, statePrevious;
    }

    /** Rewrite everything under the vault's key, reading through `from`; stop
        at the first that does not open. */
    method RecryptAll(from: Spec.Keys, ghost settling: bool, ghost unlocking: bool) returns (ok: bool)
      modifies this`items
      ensures Spec.Drive(old(At(Spec.Recrypting(0, from, settling, unlocking)))) ==
              Spec.Drive(At(if ok then Spec.Recrypting(|items|, from, settling, unlocking)
                            else if unlocking then Spec.Down else Spec.Running))
    {
      var i := 0;
      while i < |items|
        invariant i <= |items|
        invariant Spec.Drive(old(At(Spec.Recrypting(0, from, settling, unlocking)))) ==
                  Spec.Drive(At(Spec.Recrypting(i, from, settling, unlocking)))
      {
        var r := Spec.RecryptItem(from, vault.key, items[i]);
        if r.None? {
          return false;
        }
        items := items[i := r.value];
        i := i + 1;
      }
      return true;
    }

    /** Move onto a new key: the vault names both first, then everything is
        rewritten, then the old key is dropped. */
    method RotateKey(newKey: Spec.Key) returns (ok: bool)
      modifies this
      ensures At(Spec.Running) == Spec.Drive(Spec.Step(old(At(Spec.Running)), Spec.Rotate(newKey)))
      ensures ok <==> vault.previous.None?
    {
      var before := vault;
      vault := Spec.Keys(newKey, Some(before.key));
      ok := RecryptAll(before, true, false);
      if ok {
        vault := Spec.Keys(newKey, None);
      }
    }

    /** Finish a rotation a crash cut short. */
    method FinishRotation() returns (ok: bool)
      modifies this
      ensures At(if ok then Spec.Running else Spec.Down) ==
              Spec.Drive(old(At(Spec.FinishPhase(vault))))
    {
      if vault.previous.None? {
        return true;
      }
      ok := RecryptAll(vault, true, true);
      if ok {
        vault := Spec.Keys(vault.key, None);
      }
    }

    /** Whether any file the data key covers lies in the clear. */
    method LookForPlain() returns (r: bool)
      ensures r == Spec.AnyPlain(items)
    {
      for i := 0 to |items|
        invariant forall j | 0 <= j < i :: !Spec.LeftPlain(items[j])
      {
        if Spec.LeftPlain(items[i]) {
          return true;
        }
      }
      return false;
    }

    /** Seal what was left plain, then finish a rotation, as an unlock does. */
    method Unlock() returns (ok: bool)
      modifies this
      ensures At(if ok then Spec.Running else Spec.Down) == Spec.Drive(Spec.Step(old(At(Spec.Down)), Spec.Unlock))
    {
      var plain := LookForPlain();
      if plain {
        ok := RecryptAll(vault, false, true);
        if !ok {
          return false;
        }
      }
      ok := FinishRotation();
    }
  }
}
