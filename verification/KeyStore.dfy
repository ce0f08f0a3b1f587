/**
 Which keys the operating system's key store is left holding (`store.rs`).

 A directory protected by the key store names one of its entries in
 `vault.json`. Every change of protection writes the key store and the vault
 in separate steps, so a crash between two of them could leave a key nobody
 needs, or take away one somebody does. The note in `vault.pending` is there
 to prevent both. Each change is the sequence of its durable steps; a crash is
 a change of which only the first steps happened.
 */
module KeyStoreEntries {
  import opened Wrappers

  type Name = string

  /** `vault.json`: absent, or there and naming a key store entry or none. */
  datatype Vault = NoVault | Vault(entry: Option<Name>)

  datatype Disk = Disk(vault: Vault, pending: seq<Name>, store: set<Name>)

  /** One durable step. */
  datatype Atom =
    | Note(name: Name)
    | Create(name: Name)
    | PutVault(vault: Vault)
    | Delete(name: Name)
    | Forget(name: Name)

  function Noted(pending: seq<Name>, name: Name): seq<Name> {
    if name in pending then pending else pending + [name]
  }

  function Forgotten(pending: seq<Name>, name: Name): seq<Name> {
    if pending == [] then []
    else (if pending[0] == name then [] else [pending[0]]) + Forgotten(pending[1..], name)
  }

  function Apply(d: Disk, a: Atom): Disk {
    match a
    case Note(name) => d.(pending := Noted(d.pending, name))
    case Create(name) => d.(store := d.store + {name})
    case PutVault(vault) => d.(vault := vault)
    case Delete(name) => d.(store := d.store - {name})
    case Forget(name) => d.(pending := Forgotten(d.pending, name))
  }

  function ApplyAll(d: Disk, atoms: seq<Atom>): Disk
    decreases atoms
  {
    if atoms == [] then d else ApplyAll(Apply(d, atoms[0]), atoms[1..])
  }

  // --- the changes, as their steps -----------------------------------------------

  /** How making a key went: kept, or failed with or without one left behind. */
  datatype Created = Kept | FailedWithout | FailedWith

  /** A change of protection, with what its environment does to it: whether the
      vault can be read, which entries the key store will not give up. */
  datatype Op =
    | Open(readable: bool, stuck: set<Name>)
    | ProtectWithKeyStore(name: Name, created: Created, vaultWritten: bool, readable: bool, stuck: set<Name>)
    | SetPassphrase
    | LeaveKeyStore(rotated: bool, stuck: set<Name>)
    | EnterKeyStore(name: Name, created: Created, vaultWritten: bool, readable: bool, stuck: set<Name>)
    | RemoveProtection(stuck: set<Name>)
    | Wipe(readable: bool, stuck: set<Name>)

  function Entry(vault: Vault): Option<Name> {
    if vault.NoVault? then None else vault.entry
  }

  /** Keep the key if the vault names it, take it out if not, and leave both
      the key and the note if that cannot be told. */
  function DropUnused(vault: Vault, name: Name, readable: bool, stuck: set<Name>): seq<Atom> {
    if !readable then []
    else if Entry(vault) == Some(name) then [Forget(name)]
    else Take(name, stuck)
  }

  function Take(name: Name, stuck: set<Name>): seq<Atom> {
    if name in stuck then [] else [Delete(name), Forget(name)]
  }

  function Settle(vault: Vault, names: seq<Name>, readable: bool, stuck: set<Name>): seq<Atom> {
    if names == [] then []
    else DropUnused(vault, names[0], readable, stuck) + Settle(vault, names[1..], readable, stuck)
  }

  /** A key made, noted first, then named by the vault, then settled. */
  function MakeKey(d: Disk, name: Name, created: Created, vaultWritten: bool, readable: bool, stuck: set<Name>): seq<Atom> {
    match created
    case FailedWithout => [Note(name)]
    case FailedWith => [Note(name), Create(name)]
    case Kept =>
      if vaultWritten
      then [Note(name), Create(name), PutVault(Vault(Some(name)))] + DropUnused(Vault(Some(name)), name, readable, stuck)
      else [Note(name), Create(name)] + DropUnused(d.vault, name, readable, stuck)
  }

  function Script(d: Disk, op: Op): seq<Atom> {
    match op
    case Open(readable, stuck) => Settle(d.vault, d.pending, readable, stuck)
    case ProtectWithKeyStore(name, created, vaultWritten, readable, stuck) =>
      if d.vault != NoVault then [] else MakeKey(d, name, created, vaultWritten, readable, stuck)
    case SetPassphrase => if d.vault != NoVault then [] else [PutVault(Vault(None))]
    case LeaveKeyStore(rotated, stuck) =>
      if Entry(d.vault).None? then []
      else
        var name := Entry(d.vault).value;
        [Note(name), PutVault(Vault(None))] + if rotated then [PutVault(Vault(None))] + Take(name, stuck) else []
    case EnterKeyStore(name, created, vaultWritten, readable, stuck) =>
      if d.vault != Vault(None) then [] else MakeKey(d, name, created, vaultWritten, readable, stuck)
    case RemoveProtection(stuck) => Unprotect(d.vault, stuck)
    case Wipe(readable, stuck) => if readable then Unprotect(d.vault, stuck) else [PutVault(NoVault)]
  }

  function Unprotect(vault: Vault, stuck: set<Name>): seq<Atom> {
    if Entry(vault).Some?
    then [Note(Entry(vault).value), PutVault(NoVault)] + Take(Entry(vault).value, stuck)
    else [PutVault(NoVault)]
  }

  /** New entries are named at random: none is in use yet. */
  predicate Fresh(d: Disk, op: Op) {
    op.ProtectWithKeyStore? || op.EnterKeyStore? ==>
      op.name !in d.store && op.name !in d.pending && Entry(d.vault) != Some(op.name)
  }

  /** The one case the note cannot cover: erasing a directory whose vault, which
      cannot be read just then, names a key not noted already. */
  predicate Orphans(d: Disk, op: Op) {
    op.Wipe? && !op.readable && Entry(d.vault).Some? && Entry(d.vault).value !in d.pending
  }

  // --- what every step keeps --------------------------------------------------------

  /** No key is unaccounted for, and the one the vault names is there. */
  ghost predicate Accounted(d: Disk) {
    && (forall k | k in d.store :: Entry(d.vault) == Some(k) || k in d.pending)
    && (Entry(d.vault).Some? ==> Entry(d.vault).value in d.store)
  }

  /** `atoms` keep that at every step on the way. */
  ghost predicate Safe(d: Disk, atoms: seq<Atom>)
    decreases atoms
  {
    Accounted(d) && (atoms == [] || Safe(Apply(d, atoms[0]), atoms[1..]))
  }

  lemma {:induction false} ForgottenMembers(pending: seq<Name>, name: Name)
    ensures forall n :: n in Forgotten(pending, name) <==> n in pending && n != name
  {
    if pending != [] {
      ForgottenMembers(pending[1..], name);
    }
  }

  lemma {:induction false} ApplyConcat(d: Disk, a: seq<Atom>, b: seq<Atom>)
    ensures ApplyAll(d, a + b) == ApplyAll(ApplyAll(d, a), b)
    decreases a
  {
    if a == [] {
      assert a + b == b;
    } else {
      assert (a + b)[1..] == a[1..] + b;
      ApplyConcat(Apply(d, a[0]), a[1..], b);
    }
  }

  lemma {:induction false} SafeConcat(d: Disk, a: seq<Atom>, b: seq<Atom>)
    requires Safe(d, a) && Safe(ApplyAll(d, a), b)
    ensures Safe(d, a + b)
    decreases a
  {
    if a == [] {
      assert a + b == b;
    } else {
      assert (a + b)[1..] == a[1..] + b;
      SafeConcat(Apply(d, a[0]), a[1..], b);
    }
  }

  lemma {:induction false} SafeOne(d: Disk, a: Atom)
    requires Accounted(d) && Accounted(Apply(d, a))
    ensures Safe(d, [a]) && ApplyAll(d, [a]) == Apply(d, a)
  {
    assert [a][1..] == [];
  }

  lemma {:induction false} SafeTwo(d: Disk, a: Atom, b: Atom)
    requires Accounted(d) && Accounted(Apply(d, a)) && Accounted(Apply(Apply(d, a), b))
    ensures Safe(d, [a, b]) && ApplyAll(d, [a, b]) == Apply(Apply(d, a), b)
  {
    SafeOne(d, a);
    SafeOne(Apply(d, a), b);
    SafeConcat(d, [a], [b]);
    ApplyConcat(d, [a], [b]);
    assert [a] + [b] == [a, b];
  }

  lemma {:induction false} SafePrefix(d: Disk, atoms: seq<Atom>, k: nat)
    requires Safe(d, atoms) && k <= |atoms|
    ensures Accounted(ApplyAll(d, atoms[..k]))
    decreases k
  {
    if k > 0 {
      SafePrefix(Apply(d, atoms[0]), atoms[1..], k - 1);
      assert atoms[..k][1..] == atoms[1..][..k - 1];
    }
  }

  /** Taking a key out that the vault does not name. */
  lemma {:induction false} TakeSafe(d: Disk, name: Name, stuck: set<Name>)
    requires Accounted(d) && Entry(d.vault) != Some(name)
    ensures Safe(d, Take(name, stuck))
    ensures ApplyAll(d, Take(name, stuck)).vault == d.vault
    ensures name !in stuck ==>
              var e := ApplyAll(d, Take(name, stuck)); e.store == d.store - {name} && e.pending == Forgotten(d.pending, name)
  {
    if name !in stuck {
      ForgottenMembers(d.pending, name);
      SafeTwo(d, Delete(name), Forget(name));
    }
  }

  lemma {:induction false} DropUnusedSafe(d: Disk, name: Name, readable: bool, stuck: set<Name>)
    requires Accounted(d)
    ensures var atoms := DropUnused(d.vault, name, readable, stuck);
            && Safe(d, atoms)
            && ApplyAll(d, atoms).vault == d.vault
            && (readable && name !in stuck ==>
                  && ApplyAll(d, atoms).pending == Forgotten(d.pending, name)
                  && ApplyAll(d, atoms).store == if Entry(d.vault) == Some(name) then d.store else d.store - {name})
  {
    if readable {
      if Entry(d.vault) == Some(name) {
        ForgottenMembers(d.pending, name);
        SafeOne(d, Forget(name));
      } else {
        TakeSafe(d, name, stuck);
      }
    }
  }

  lemma {:induction false} SettleSafe(d: Disk, names: seq<Name>, readable: bool, stuck: set<Name>)
    requires Accounted(d)
    ensures Safe(d, Settle(d.vault, names, readable, stuck))
    ensures ApplyAll(d, Settle(d.vault, names, readable, stuck)).vault == d.vault
    decreases names
  {
    if names != [] {
      var first := DropUnused(d.vault, names[0], readable, stuck);
      DropUnusedSafe(d, names[0], readable, stuck);
      var e := ApplyAll(d, first);
      SafePrefix(d, first, |first|);
      assert first[..|first|] == first;
      SettleSafe(e, names[1..], readable, stuck);
      SafeConcat(d, first, Settle(d.vault, names[1..], readable, stuck));
      ApplyConcat(d, first, Settle(d.vault, names[1..], readable, stuck));
    }
  }

  lemma {:induction false} MakeKeySafe(d: Disk, name: Name, created: Created, vaultWritten: bool, readable: bool, stuck: set<Name>)
    requires Accounted(d) && Entry(d.vault).None? && name !in d.store && name !in d.pending
    ensures Safe(d, MakeKey(d, name, created, vaultWritten, readable, stuck))
  {
    var noted := Apply(d, Note(name));
    SafeOne(d, Note(name));
    if created != FailedWithout {
      var made := Apply(noted, Create(name));
      SafeTwo(d, Note(name), Create(name));
      if created == Kept {
        if vaultWritten {
          var named := Apply(made, PutVault(Vault(Some(name))));
          SafeOne(made, PutVault(Vault(Some(name))));
          DropUnusedSafe(named, name, readable, stuck);
          var rest := DropUnused(Vault(Some(name)), name, readable, stuck);
          SafeConcat(made, [PutVault(Vault(Some(name)))], rest);
          SafeConcat(d, [Note(name), Create(name)], [PutVault(Vault(Some(name)))] + rest);
          assert [Note(name), Create(name)] + ([PutVault(Vault(Some(name)))] + rest) ==
                 [Note(name), Create(name), PutVault(Vault(Some(name)))] + rest;
        } else {
          DropUnusedSafe(made, name, readable, stuck);
          SafeConcat(d, [Note(name), Create(name)], DropUnused(d.vault, name, readable, stuck));
        }
      }
    }
  }

  lemma {:induction false} UnprotectSafe(d: Disk, stuck: set<Name>)
    requires Accounted(d)
    ensures Safe(d, Unprotect(d.vault, stuck))
  {
    if Entry(d.vault).Some? {
      var name := Entry(d.vault).value;
      SafeTwo(d, Note(name), PutVault(NoVault));
      var e := ApplyAll(d, [Note(name), PutVault(NoVault)]);
      TakeSafe(e, name, stuck);
      SafeConcat(d, [Note(name), PutVault(NoVault)], Take(name, stuck));
    } else {
      SafeOne(d, PutVault(NoVault));
    }
  }

  lemma {:induction false} LeaveSafe(d: Disk, rotated: bool, stuck: set<Name>)
    requires Accounted(d) && Entry(d.vault).Some?
    ensures Safe(d, Script(d, LeaveKeyStore(rotated, stuck)))
  {
    var name := Entry(d.vault).value;
    var open := [Note(name), PutVault(Vault(None))];
    SafeTwo(d, Note(name), PutVault(Vault(None)));
    if rotated {
      var e := ApplyAll(d, open);
      SafeOne(e, PutVault(Vault(None)));
      TakeSafe(e, name, stuck);
      SafeConcat(e, [PutVault(Vault(None))], Take(name, stuck));
      SafeConcat(d, open, [PutVault(Vault(None))] + Take(name, stuck));
    }
  }

  /** Every change keeps the account straight at every one of its steps. */
  lemma {:induction false} ScriptSafe(d: Disk, op: Op)
    requires Accounted(d) && Fresh(d, op) && !Orphans(d, op)
    ensures Safe(d, Script(d, op))
  {
    match op
    case Open(readable, stuck) => SettleSafe(d, d.pending, readable, stuck);
    case ProtectWithKeyStore(name, created, vaultWritten, readable, stuck) =>
      if d.vault == NoVault {
        MakeKeySafe(d, name, created, vaultWritten, readable, stuck);
      }
    case SetPassphrase =>
      if d.vault == NoVault {
        SafeOne(d, PutVault(Vault(None)));
      }
    case LeaveKeyStore(rotated, stuck) =>
      if Entry(d.vault).Some? {
        LeaveSafe(d, rotated, stuck);
      }
    case EnterKeyStore(name, created, vaultWritten, readable, stuck) =>
      if d.vault == Vault(None) {
        MakeKeySafe(d, name, created, vaultWritten, readable, stuck);
      }
    case RemoveProtection(stuck) => UnprotectSafe(d, stuck);
    case Wipe(readable, stuck) =>
      if readable {
        UnprotectSafe(d, stuck);
      } else {
        SafeOne(d, PutVault(NoVault));
      }
  }

  // --- whole runs, cut short anywhere ---------------------------------------------------

  /** A change of which the first `steps` durable steps happened. */
  datatype Cut = Cut(op: Op, steps: nat)

  function CutShort(d: Disk, c: Cut): Disk {
    var script := Script(d, c.op);
    ApplyAll(d, script[..if c.steps <= |script| then c.steps else |script|])
  }

  function After(d: Disk, run: seq<Cut>): Disk {
    if run == [] then d else CutShort(After(d, run[..|run| - 1]), run[|run| - 1])
  }

  /** Every key a run makes has a new name. */
  predicate FreshRun(d: Disk, run: seq<Cut>) {
    run != [] ==>
      var before := run[..|run| - 1];
      FreshRun(d, before) && Fresh(After(d, before), run[|run| - 1].op)
  }

  /** No change of a run gets as far as erasing a vault whose key nothing else names. */
  predicate NeverOrphans(d: Disk, run: seq<Cut>) {
    run != [] ==>
      var before, c := run[..|run| - 1], run[|run| - 1];
      NeverOrphans(d, before) && !(Orphans(After(d, before), c.op) && c.steps >= 1)
  }

  /** The account is straight after a run, and at every point on the way. */
  ghost predicate AlwaysStraight(d: Disk, run: seq<Cut>) {
    Accounted(After(d, run)) && (run != [] ==> AlwaysStraight(d, run[..|run| - 1]))
  }

  lemma {:induction false} ApplyOne(d: Disk, a: Atom)
    ensures ApplyAll(d, [a]) == Apply(d, a)
  {
    assert [a][1..] == [];
  }

  /** One change, cut short anywhere, keeps the account exactly when it does not orphan. */
  lemma {:induction false} CutAccountedIff(d: Disk, c: Cut)
    requires Accounted(d) && Fresh(d, c.op)
    ensures Accounted(CutShort(d, c)) <==> !(Orphans(d, c.op) && c.steps >= 1)
  {
    var script := Script(d, c.op);
    var n := if c.steps <= |script| then c.steps else |script|;
    if Orphans(d, c.op) {
      assert script == [PutVault(NoVault)] && script[..1] == script && script[..0] == [];
      ApplyOne(d, PutVault(NoVault));
      assert Entry(d.vault).value in d.store;
    } else {
      ScriptSafe(d, c.op);
      SafePrefix(d, script, n);
    }
  }

  /** Through any changes, each cut short at any step: every key in the key store is
      one the vault names or the note lists, and the key the vault names is never gone,
      all along the way, if and only if no change erases an unreadable vault whose key
      is not noted. */
  lemma {:induction false} AlwaysAccountedIff(d: Disk, run: seq<Cut>)
    requires Accounted(d) && FreshRun(d, run)
    ensures AlwaysStraight(d, run) <==> NeverOrphans(d, run)
  {
    if run != [] {
      var before, c := run[..|run| - 1], run[|run| - 1];
      AlwaysAccountedIff(d, before);
      if NeverOrphans(d, before) {
        CutAccountedIff(After(d, before), c);
      }
    }
  }

  /** Settling some names, with a vault that reads and a key store that works,
      leaves none of them noted and none of their keys but the vault's. */
  lemma {:induction false} SettleSettles(d: Disk, names: seq<Name>)
    requires Accounted(d)
    ensures var e := ApplyAll(d, Settle(d.vault, names, true, {}));
            && e.vault == d.vault
            && (forall n :: n in e.pending <==> n in d.pending && n !in names)
            && (forall n :: n in e.store <==> n in d.store && (n !in names || Entry(d.vault) == Some(n)))
    decreases names
  {
    if names != [] {
      var first := DropUnused(d.vault, names[0], true, {});
      DropUnusedSafe(d, names[0], true, {});
      var e := ApplyAll(d, first);
      SafePrefix(d, first, |first|);
      assert first[..|first|] == first;
      ForgottenMembers(d.pending, names[0]);
      SettleSettles(e, names[1..]);
      ApplyConcat(d, first, Settle(d.vault, names[1..], true, {}));
    }
  }

  /** After any such run, the next start on which the vault reads and the key
      store works leaves exactly the vault's key, and no note. */
  lemma {:induction false} ReopenSettles(d: Disk, run: seq<Cut>)
    requires Accounted(d) && FreshRun(d, run) && NeverOrphans(d, run)
    ensures var left := After(d, run);
            var e := ApplyAll(left, Script(left, Open(true, {})));
            && e.vault == left.vault && (forall n :: n !in e.pending)
            && e.store == match Entry(left.vault) case None => {} case Some(k) => {k}
  {
    AlwaysAccountedIff(d, run);
    var left := After(d, run);
    SettleSettles(left, left.pending);
  }

  /** The excluded case fails always: erasing an unreadable vault that names a
      key leaves the key with nothing to say that it is there, unless an
      earlier change had noted it. */
  lemma {:induction false} WipeAccountedIff(d: Disk, readable: bool, stuck: set<Name>)
    requires Accounted(d)
    ensures Accounted(ApplyAll(d, Script(d, Wipe(readable, stuck)))) <==>
            readable || Entry(d.vault).None? || Entry(d.vault).value in d.pending
  {
    if Orphans(d, Wipe(readable, stuck)) {
      var e := Apply(d, PutVault(NoVault));
      assert [PutVault(NoVault)][1..] == [];
      assert ApplyAll(d, Script(d, Wipe(readable, stuck))) == e;
      assert Entry(d.vault).value in e.store;
    } else {
      ScriptSafe(d, Wipe(readable, stuck));
      var script := Script(d, Wipe(readable, stuck));
      SafePrefix(d, script, |script|);
      assert script[..|script|] == script;
    }
  }
}
