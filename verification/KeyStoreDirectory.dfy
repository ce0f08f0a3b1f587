/** The same changes, as the store makes them to its directory. */
module KeyStoreDirectory {
  import opened Wrappers
  import opened KeyStoreEntries

  lemma {:induction false} Then(d: Disk, done: seq<Atom>, a: Atom)
    ensures ApplyAll(d, done + [a]) == Apply(ApplyAll(d, done), a)
  {
    ApplyConcat(d, done, [a]);
    assert [a][1..] == [];
  }

  lemma {:induction false} ForgottenFrom(pending: seq<Name>, name: Name, i: nat, kept: seq<Name>)
    requires i < |pending|
    ensures kept + Forgotten(pending[i..], name) ==
            (if pending[i] == name then kept else kept + [pending[i]]) + Forgotten(pending[i + 1..], name)
  {
    var rest := pending[i..];
    assert rest[0] == pending[i] && rest[1..] == pending[i + 1..];
  }

  lemma {:induction false} SettleFrom(d: Disk, names: seq<Name>, i: nat, readable: bool, stuck: set<Name>)
    requires i < |names|
    ensures ApplyAll(d, Settle(d.vault, names[i..], readable, stuck)) ==
            ApplyAll(ApplyAll(d, DropUnused(d.vault, names[i], readable, stuck)),
                     Settle(d.vault, names[i + 1..], readable, stuck))
  {
    var rest := names[i..];
    assert rest[0] == names[i] && rest[1..] == names[i + 1..];
    ApplyConcat(d, DropUnused(d.vault, names[i], readable, stuck), Settle(d.vault, names[i + 1..], readable, stuck));
  }

  class Directory {
    var vault: Vault
    var pending: seq<Name>
    var store: set<Name>

    ghost function View(): Disk
      reads this
    {
      Disk(vault, pending, store)
    }

    constructor ()
      ensures View() == Disk(NoVault, [], {}) && Accounted(View())
    {
      vault, pending, store := NoVault, [], {};
    }

    method AddPending(name: Name)
      modifies this`pending
      ensures View() == Apply(old(View()), Note(name))
    {
      if name !in pending {
        pending := pending + [name];
      }
    }

    method ClearPending(name: Name)
      modifies this`pending
      ensures View() == Apply(old(View()), Forget(name))
    {
      var kept: seq<Name> := [];
      var i := 0;
      while i < |pending|
        invariant i <= |pending| && pending == old(pending)
        invariant Forgotten(pending, name) == kept + Forgotten(pending[i..], name)
      {
        ForgottenFrom(pending, name, i, kept);
        if pending[i] != name {
          kept := kept + [pending[i]];
        }
        i := i + 1;
      }
      assert pending[i..] == [] && kept + [] == kept;
      pending := kept;
    }

    /** `stuck` are the entries the key store will not give up. */
    method TakeOut(name: Name, stuck: set<Name>)
      modifies this`pending, this`store
      ensures View() == ApplyAll(old(View()), Take(name, stuck))
    {
      if name !in stuck {
        store := store - {name};
        ClearPending(name);
        Then(old(View()), [], Delete(name));
        Then(old(View()), [Delete(name)], Forget(name));
        assert [] + [Delete(name)] == [Delete(name)];
        assert [Delete(name)] + [Forget(name)] == Take(name, stuck);
      }
    }

    method DropUnusedKek(name: Name, readable: bool, stuck: set<Name>)
      modifies this`pending, this`store
      ensures View() == ApplyAll(old(View()), DropUnused(old(vault), name, readable, stuck))
    {
      if !readable {
        return;
      }
      if Entry(vault) == Some(name) {
        ClearPending(name);
        Then(old(View()), [], Forget(name));
        assert [] + [Forget(name)] == [Forget(name)];
      } else {
        TakeOut(name, stuck);
      }
    }

    /** What `open` does first. */
    method SettlePending(readable: bool, stuck: set<Name>)
      modifies this`pending, this`store
      ensures View() == ApplyAll(old(View()), Script(old(View()), Open(readable, stuck)))
    {
      var names := pending;
      var i := 0;
      while i < |names|
        invariant i <= |names| && vault == old(vault)
        invariant ApplyAll(old(View()), Settle(vault, names, readable, stuck)) ==
                  ApplyAll(View(), Settle(vault, names[i..], readable, stuck))
      {
        SettleFrom(View(), names, i, readable, stuck);
        DropUnusedKek(names[i], readable, stuck);
        i := i + 1;
      }
    }

    /** A fresh key, noted, made, named by the vault and settled: protecting a
        directory, and moving one off its passphrase. */
    method MakeKek(name: Name, created: Created, vaultWritten: bool, readable: bool, stuck: set<Name>)
      requires Entry(vault).None?
      modifies this
      ensures View() == ApplyAll(old(View()), MakeKey(old(View()), name, created, vaultWritten, readable, stuck))
    {
      ghost var d := View();
      AddPending(name);
      Then(d, [], Note(name));
      assert [] + [Note(name)] == [Note(name)];
      if created == FailedWithout {
        return;
      }
      store := store + {name};
      Then(d, [Note(name)], Create(name));
      assert [Note(name)] + [Create(name)] == [Note(name), Create(name)];
      if created == FailedWith {
        return;
      }
      ghost var done := [Note(name), Create(name)];
      if vaultWritten {
        vault := Vault(Some(name));
        Then(d, done, PutVault(vault));
        done := done + [PutVault(vault)];
        assert done == [Note(name), Create(name), PutVault(vault)];
      }
      ApplyConcat(d, done, DropUnused(vault, name, readable, stuck));
      DropUnusedKek(name, readable, stuck);
    }

    method ProtectWithKeyStore(name: Name, created: Created, vaultWritten: bool, readable: bool, stuck: set<Name>)
      modifies this
      ensures View() ==
              ApplyAll(old(View()), Script(old(View()), Op.ProtectWithKeyStore(name, created, vaultWritten, readable, stuck)))
    {
      if vault == NoVault {
        MakeKek(name, created, vaultWritten, readable, stuck);
      }
    }

    /** Off the key store, onto a passphrase or a security key: the old key is
        noted before the rotation and taken out after it. */
    method LeaveKeyStore(rotated: bool, stuck: set<Name>)
      modifies this
      ensures View() == ApplyAll(old(View()), Script(old(View()), Op.LeaveKeyStore(rotated, stuck)))
    {
      ghost var d := View();
      if Entry(vault).None? {
        return;
      }
      var name := Entry(vault).value;
      AddPending(name);
      Then(d, [], Note(name));
      assert [] + [Note(name)] == [Note(name)];
      vault := Vault(None);
      Then(d, [Note(name)], PutVault(vault));
      ghost var open := [Note(name), PutVault(vault)];
      assert [Note(name)] + [PutVault(vault)] == open == open + [];
      if rotated {
        vault := Vault(None);
        Then(d, open, PutVault(vault));
        ApplyConcat(d, open + [PutVault(vault)], Take(name, stuck));
        assert (open + [PutVault(vault)]) + Take(name, stuck) == open + ([PutVault(vault)] + Take(name, stuck));
        TakeOut(name, stuck);
      }
    }

    method RemovePassphrase(name: Name, created: Created, vaultWritten: bool, readable: bool, stuck: set<Name>)
      modifies this
      ensures View() ==
              ApplyAll(old(View()), Script(old(View()), EnterKeyStore(name, created, vaultWritten, readable, stuck)))
    {
      if vault == Vault(None) {
        MakeKek(name, created, vaultWritten, readable, stuck);
      }
    }

    method RemoveProtection(stuck: set<Name>)
      modifies this
      ensures View() == ApplyAll(old(View()), Unprotect(old(vault), stuck))
    {
      ghost var d := View();
      var entry := Entry(vault);
      ghost var done: seq<Atom> := [];
      if entry.Some? {
        AddPending(entry.value);
        Then(d, [], Note(entry.value));
        done := [Note(entry.value)];
        assert [] + done == done;
      }
      vault := NoVault;
      Then(d, done, PutVault(vault));
      if entry.Some? {
        ApplyConcat(d, done + [PutVault(vault)], Take(entry.value, stuck));
        assert done + [PutVault(vault)] == [Note(entry.value), PutVault(vault)];
        TakeOut(entry.value, stuck);
      } else {
        assert done + [PutVault(vault)] == [PutVault(vault)];
      }
    }

    /** The erase of an unlinked device; an unreadable vault goes unnoted. */
    method Wipe(readable: bool, stuck: set<Name>)
      modifies this
      ensures View() == ApplyAll(old(View()), Script(old(View()), Op.Wipe(readable, stuck)))
    {
      if readable {
        RemoveProtection(stuck);
      } else {
        vault := NoVault;
        Then(old(View()), [], PutVault(vault));
        assert [] + [PutVault(vault)] == [PutVault(vault)];
      }
    }
  }
}
