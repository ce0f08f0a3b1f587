/** That no crash during a rotation loses anything, and what ends one. */
module RotationTheorems {
  import opened Wrappers
  import opened Rotation

  // --- which keys an item is under ----------------------------------------------------------

  predicate FileUnder(keys: Keys, file: File) {
    file.Under? ==> Opens(keys, file.key)
  }

  predicate LineUnder(keys: Keys, line: Line) {
    line.SealedLine? ==> Opens(keys, line.key)
  }

  /** Every part of an item that is sealed is under one of these keys. */
  predicate ItemUnder(keys: Keys, item: Item) {
    match item
    case Log(lines) => forall line | line in lines :: LineUnder(keys, line)
    case Whole(file) => FileUnder(keys, file)
    case Record(file) => FileUnder(keys, file)
    case Download(file) => FileUnder(keys, file)
  }

  /** Everything in the directory opens with a key the vault on disk names. */
  predicate Held(w: World) {
    forall item | item in w.items :: ItemUnder(w.vault, item)
  }

  predicate Undamaged(item: Item) {
    match item
    case Log(lines) => forall line | line in lines :: !line.DamagedLine?
    case Whole(file) => !file.Damaged?
    case Record(file) => !file.Damaged?
    case Download(file) => !file.Damaged?
  }

  /** What an item holds, keys aside. */
  function Truth(item: Item): Contents {
    match item
    case Whole(file) => FileTruth(file)
    case Record(file) => FileTruth(file)
    case Download(file) => FileTruth(file)
    case Log(lines) => LogContents(seq(|lines|, i requires 0 <= i < |lines| => LineTruth(lines[i])))
  }

  function FileTruth(file: File): Contents {
    match file
    case Plain(text) => FileContents(None, text)
    case Under(_, generation, text) => FileContents(generation, text)
    case Damaged(_) => Lost
  }

  function LineTruth(line: Line): Option<string> {
    match line
    case PlainLine(text) => Some(text)
    case SealedLine(_, text) => Some(text)
    case DamagedLine(_) => None
  }

  lemma {:induction false} HeldReads(keys: Keys, item: Item)
    requires ItemUnder(keys, item)
    ensures Read(keys, item) == Truth(item)
  {
    if item.Log? {
      assert forall i | 0 <= i < |item.lines| :: LineUnder(keys, item.lines[i]);
    }
  }

  /** Rewriting an item that opens: it succeeds exactly when nothing in it is
      damaged, moves it onto the one key, and changes nothing it holds. */
  lemma {:induction false} RecryptKeeps(from: Keys, to: Key, item: Item)
    requires ItemUnder(from, item)
    ensures RecryptItem(from, to, item).Some? <==> Undamaged(item)
    ensures RecryptItem(from, to, item).Some? ==>
              var r := RecryptItem(from, to, item).value;
              ItemUnder(Keys(to, None), r) && Undamaged(r) && !LeftPlain(r) && Truth(r) == Truth(item)
  {
    if item.Log? {
      RecryptLinesKeeps(from, to, item.lines);
    }
  }

  lemma {:induction false} RecryptLinesKeeps(from: Keys, to: Key, lines: seq<Line>)
    requires forall line | line in lines :: LineUnder(from, line)
    ensures AllOpen(from, lines) <==> forall line | line in lines :: !line.DamagedLine?
    ensures AllOpen(from, lines) ==>
              var r := RecryptLines(from, to, lines);
              && (forall line | line in r :: line.SealedLine? && line.key == to)
              && Truth(Log(r)) == Truth(Log(lines))
  {
    if AllOpen(from, lines) {
      var r := RecryptLines(from, to, lines);
      forall i | 0 <= i < |lines| ensures LineTruth(r[i]) == LineTruth(lines[i]) {
        assert LineUnder(from, lines[i]) && lines[i] in lines;
      }
    }
  }

  // --- the invariant ----------------------------------------------------------------------------

  /** Where a pass has got to: what is done is under the new key alone, and what
      is not done opens with what the pass reads through. */
  predicate Progress(w: World) {
    w.phase.Recrypting? ==>
      var p := w.phase;
      && p.done <= |w.items|
      && (p.settling ==> w.vault.previous.Some?)
      && (forall i | 0 <= i < p.done :: ItemUnder(Keys(w.vault.key, None), w.items[i]))
      && (forall i | p.done <= i < |w.items| :: ItemUnder(p.from, w.items[i]))
      && (p.unlocking ==> p.from == w.vault)
      && (!p.settling ==> p.unlocking)
  }

  lemma {:induction false} UnderMore(a: Keys, b: Keys, item: Item)
    requires ItemUnder(a, item)
    requires Opens(b, a.key) && (a.previous.Some? ==> Opens(b, a.previous.value))
    ensures ItemUnder(b, item)
  {
  }

  lemma {:induction false} AdvanceKeeps(w: World)
    requires w.phase.Recrypting? && Held(w) && Progress(w)
    ensures var n := AdvanceStep(w);
            && Held(n) && Progress(n) && |n.items| == |w.items|
            && n.statePrevious == w.statePrevious && n.vault.key == w.vault.key
            && forall i | 0 <= i < |w.items| :: Truth(n.items[i]) == Truth(w.items[i])
  {
    var p := w.phase;
    if p.done < |w.items| {
      RecryptKeeps(p.from, w.vault.key, w.items[p.done]);
      var r := RecryptItem(p.from, w.vault.key, w.items[p.done]);
      if r.Some? {
        UnderMore(Keys(w.vault.key, None), w.vault, r.value);
      }
    }
  }

  /** Some part of an item is sealed under `k`. */
  predicate HasUnder(k: Key, item: Item) {
    match item
    case Log(lines) => exists line | line in lines :: line.SealedLine? && line.key == k
    case Whole(file) => file.Under? && file.key == k
    case Record(file) => file.Under? && file.key == k
    case Download(file) => file.Under? && file.key == k
  }

  /** Beginning a rotation to `newKey` drops no key anything is under: the one the
      vault calls previous, if it names one, is done with. */
  predicate DropsNothing(w: World, newKey: Key) {
    forall item | item in w.items ::
      w.vault.previous.Some? && !Opens(Keys(newKey, Some(w.vault.key)), w.vault.previous.value)
      ==> !HasUnder(w.vault.previous.value, item)
  }

  predicate Careful(w: World, e: Event) {
    e.Rotate? && w.phase.Running? ==> DropsNothing(w, e.newKey)
  }

  lemma {:induction false} StepKeeps(w: World, e: Event)
    requires Held(w) && Progress(w) && Careful(w, e)
    ensures var n := Step(w, e);
            && Held(n) && Progress(n) && |n.items| == |w.items|
            && forall i | 0 <= i < |w.items| && n.items[i] != w.items[i] && e.Put? :: i == e.index
    ensures !e.Put? ==> forall i | 0 <= i < |w.items| :: Truth(Step(w, e).items[i]) == Truth(w.items[i])
  {
    match e
    case Advance =>
      if w.phase.Recrypting? {
        AdvanceKeeps(w);
      }
    case Put(index, item) =>
      if w.phase.Running? && index < |w.items| && SealedBy(w.vault.key, item) {
        assert ItemUnder(w.vault, item);
      }
    case Rotate(newKey) =>
      if w.phase.Running? {
        RotateKeepsIff(w, newKey);
      }
    case _ =>
  }

  // --- whole runs ----------------------------------------------------------------------------------

  predicate CarefulAt(w: World, events: seq<Event>, k: nat)
    requires k < |events|
  {
    Careful(After(w, events[..k]), events[k])
  }

  predicate CarefulRun(w: World, events: seq<Event>) {
    forall k | 0 <= k < |events| :: CarefulAt(w, events, k)
  }

  lemma {:induction false} CarefulPrefix(w: World, events: seq<Event>, n: nat)
    requires n <= |events| && forall k | 0 <= k < n :: CarefulAt(w, events, k)
    ensures CarefulRun(w, events[..n])
  {
    forall k | 0 <= k < n ensures CarefulAt(w, events[..n], k) {
      assert events[..n][..k] == events[..k];
      assert CarefulAt(w, events, k);
    }
  }

  predicate Puts(w: World, e: Event, i: nat) {
    e.Put? && e.index == i && w.phase.Running? && i < |w.items| && SealedBy(w.vault.key, e.item)
  }

  /** What item `i` should hold after a run: what was last put there. */
  function LastPut(w: World, events: seq<Event>, i: nat): Contents
    requires i < |w.items|
  {
    if events == [] then Truth(w.items[i])
    else
      var before, e := events[..|events| - 1], events[|events| - 1];
      if Puts(After(w, before), e, i) then Truth(e.item) else LastPut(w, before, i)
  }

  /** Through any number of rotations and crashes, each rotation begun when nothing
      is left under the key it drops: every item opens with a key the vault on disk
      names, and gives what was last written there. */
  lemma {:induction false} RunKeeps(w: World, events: seq<Event>)
    requires Held(w) && Progress(w) && CarefulRun(w, events)
    ensures var n := After(w, events);
            && Held(n) && Progress(n) && |n.items| == |w.items|
            && forall i: nat | i < |w.items| :: Read(n.vault, n.items[i]) == LastPut(w, events, i)
  {
    var n := After(w, events);
    if events != [] {
      var before, e := events[..|events| - 1], events[|events| - 1];
      CarefulPrefix(w, events, |before|);
      assert CarefulAt(w, events, |before|);
      RunKeeps(w, before);
      var m := After(w, before);
      StepKeeps(m, e);
      forall i: nat | i < |w.items| ensures Truth(n.items[i]) == LastPut(w, events, i) {
        HeldReads(m.vault, m.items[i]);
      }
    }
    forall i: nat | i < |w.items| ensures Read(n.vault, n.items[i]) == Truth(n.items[i]) {
      HeldReads(n.vault, n.items[i]);
    }
  }

  /** And that care is exactly what it takes: everything is under a key the vault on
      disk names, at every point of a run, if and only if every rotation of the run
      was begun when nothing was left under the key it drops. */
  lemma {:induction false} RunKeepsIff(w: World, events: seq<Event>)
    requires Held(w) && Progress(w)
    ensures (forall k | 0 <= k <= |events| :: Held(After(w, events[..k]))) <==> CarefulRun(w, events)
  {
    if CarefulRun(w, events) {
      forall k | 0 <= k <= |events| ensures Held(After(w, events[..k])) {
        CarefulPrefix(w, events, k);
        RunKeeps(w, events[..k]);
      }
    } else {
      var k := FirstCareless(w, events);
      RunKeeps(w, events[..k]);
      RotateKeepsIff(After(w, events[..k]), events[k].newKey);
      assert events[..k + 1][..k] == events[..k];
      assert !Held(After(w, events[..k + 1]));
    }
  }

  lemma {:induction false} FirstCareless(w: World, events: seq<Event>) returns (k: nat)
    requires !CarefulRun(w, events)
    ensures k < |events| && !CarefulAt(w, events, k) && CarefulRun(w, events[..k])
  {
    k := 0;
    while CarefulAt(w, events, k)
      invariant k < |events| && forall j | 0 <= j < k :: CarefulAt(w, events, j)
      decreases |events| - k
    {
      k := k + 1;
    }
    CarefulPrefix(w, events, k);
  }

  /** Once the vault names one key, everything sealed is under it. */
  lemma {:induction false} SettledUnderOneKey(w: World, events: seq<Event>, item: Item, oldKey: Key)
    requires Held(w) && Progress(w) && CarefulRun(w, events)
    requires var n := After(w, events); n.vault.previous.None? && item in n.items && oldKey != n.vault.key
    ensures match item
            case Log(lines) => forall line | line in lines && line.SealedLine? :: line.key != oldKey
            case Whole(file) => file.Under? ==> file.key != oldKey
            case Record(file) => file.Under? ==> file.key != oldKey
            case Download(file) => file.Under? ==> file.key != oldKey
  {
    RunKeeps(w, events);
    assert ItemUnder(After(w, events).vault, item);
  }

  // --- when a rotation settles ---------------------------------------------------------------------------

  predicate AllUndamaged(items: seq<Item>) {
    forall item | item in items :: Undamaged(item)
  }

  lemma {:induction false} DrivePass(w: World)
    requires w.phase.Recrypting? && w.phase.settling && Held(w) && Progress(w)
    requires forall i | 0 <= i < w.phase.done :: Undamaged(w.items[i])
    ensures var n := Drive(w);
            && (n.vault.previous.None? <==> AllUndamaged(w.items))
            && n.vault.key == w.vault.key && n.statePrevious == w.statePrevious
            && (AllUndamaged(w.items) ==> n.phase == Running)
            && Held(n) && |n.items| == |w.items|
            && forall i | 0 <= i < |w.items| :: Truth(n.items[i]) == Truth(w.items[i])
    decreases |w.items| - w.phase.done
  {
    var p := w.phase;
    AdvanceKeeps(w);
    var n := AdvanceStep(w);
    if p.done < |w.items| {
      RecryptKeeps(p.from, w.vault.key, w.items[p.done]);
      if n.phase.Recrypting? {
        DrivePass(n);
        UndamagedReplaced(w.items, p.done, n.items[p.done]);
      } else {
        assert w.items[p.done] in w.items;
      }
    }
  }

  lemma {:induction false} UndamagedReplaced(items: seq<Item>, k: nat, item: Item)
    requires k < |items| && Undamaged(items[k]) && Undamaged(item)
    ensures AllUndamaged(items[k := item]) <==> AllUndamaged(items)
  {
    var replaced := items[k := item];
    assert forall i | 0 <= i < |items| && i != k :: replaced[i] == items[i];
    if AllUndamaged(replaced) {
      forall i | 0 <= i < |items| ensures Undamaged(items[i]) {
        assert replaced[i] in replaced;
      }
    }
    if AllUndamaged(items) {
      forall i | 0 <= i < |items| ensures Undamaged(replaced[i]) {
        assert items[i] in items;
      }
    }
  }

  /** A rotation left alone settles on the new key exactly when nothing is
      damaged; one line a crash cut short holds it open. */
  lemma {:induction false} RotationSettlesIff(w: World, newKey: Key)
    requires w.phase.Running? && w.vault.previous.None? && Held(w)
    ensures var n := Drive(Step(w, Rotate(newKey)));
            n.vault == (if AllUndamaged(w.items) then Keys(newKey, None) else Keys(newKey, Some(w.vault.key)))
  {
    var m := Step(w, Rotate(newKey));
    RotateKeepsIff(w, newKey);
    DrivePass(m);
    DriveVault(m);
  }

  lemma {:induction false} DriveVault(w: World)
    requires Progress(w)
    ensures Drive(w).vault == w.vault || Drive(w).vault == Keys(w.vault.key, None)
    decreases if w.phase.Recrypting? then (if w.phase.settling then 1 else 2) else 0,
              if w.phase.Recrypting? && w.phase.done <= |w.items| then |w.items| - w.phase.done else 0
  {
    if w.phase.Recrypting? {
      AdvanceProgress(w);
      DriveVault(AdvanceStep(w));
    }
  }

  lemma {:induction false} AdvanceProgress(w: World)
    requires w.phase.Recrypting? && Progress(w)
    ensures Progress(AdvanceStep(w))
  {
    var p := w.phase;
    if p.done < |w.items| {
      RecryptKeeps(p.from, w.vault.key, w.items[p.done]);
    } else if !p.settling {
      forall i | 0 <= i < |w.items| ensures ItemUnder(w.vault, w.items[i]) {
        UnderMore(Keys(w.vault.key, None), w.vault, w.items[i]);
      }
    }
  }

  /** An unlock after any crash finishes what was under way, exactly when nothing
      is damaged; with no rotation open and nothing plain, whatever is damaged. */
  lemma {:induction false} UnlockSettlesIff(w: World)
    requires w.phase.Down? && Held(w) && (AnyPlain(w.items) || w.vault.previous.Some?)
    ensures var n := Drive(Step(w, Unlock));
            && (n.phase == Running <==> AllUndamaged(w.items))
            && (n.phase == Running ==> n.vault == Keys(w.vault.key, None))
            && |n.items| == |w.items| && forall i | 0 <= i < |w.items| :: Truth(n.items[i]) == Truth(w.items[i])
  {
    var m := Step(w, Unlock);
    if AnyPlain(w.items) {
      SealPass(m);
    } else {
      SettlePass(m);
    }
  }

  lemma {:induction false} SettlePass(w: World)
    requires w.phase.Recrypting? && w.phase.settling && w.phase.unlocking && Held(w) && Progress(w)
    requires forall i | 0 <= i < w.phase.done :: Undamaged(w.items[i])
    ensures var n := Drive(w);
            && (n.phase == Running <==> AllUndamaged(w.items))
            && (n.phase == Running ==> n.vault == Keys(w.vault.key, None))
            && |n.items| == |w.items| && forall i | 0 <= i < |w.items| :: Truth(n.items[i]) == Truth(w.items[i])
    decreases |w.items| - w.phase.done
  {
    var p := w.phase;
    AdvanceKeeps(w);
    var n := AdvanceStep(w);
    if p.done < |w.items| {
      RecryptKeeps(p.from, w.vault.key, w.items[p.done]);
      if n.phase.Recrypting? {
        SettlePass(n);
        UndamagedReplaced(w.items, p.done, n.items[p.done]);
      } else {
        assert w.items[p.done] in w.items;
      }
    }
  }

  lemma {:induction false} SealPass(w: World)
    requires w.phase.Recrypting? && !w.phase.settling && Held(w) && Progress(w)
    requires forall i | 0 <= i < w.phase.done :: Undamaged(w.items[i])
    ensures var n := Drive(w);
            && (n.phase == Running <==> AllUndamaged(w.items))
            && (n.phase == Running ==> n.vault == Keys(w.vault.key, None))
            && |n.items| == |w.items| && forall i | 0 <= i < |w.items| :: Truth(n.items[i]) == Truth(w.items[i])
    decreases |w.items| - w.phase.done
  {
    var p := w.phase;
    AdvanceKeeps(w);
    var n := AdvanceStep(w);
    if p.done < |w.items| {
      RecryptKeeps(p.from, w.vault.key, w.items[p.done]);
      if n.phase.Recrypting? {
        SealPass(n);
        UndamagedReplaced(w.items, p.done, n.items[p.done]);
      } else {
        assert w.items[p.done] in w.items;
      }
    } else if n.phase.Recrypting? {
      SettlePass(n);
    }
  }

  // --- a rotation begun before the last one settled ---------------------------------------------------------

  /** Beginning a rotation keeps everything under a key the vault names exactly
      when nothing is still under the key the vault already called the previous
      one, which it stops naming. */
  lemma {:induction false} RotateKeepsIff(w: World, newKey: Key)
    requires w.phase.Running? && Held(w)
    ensures var n := Step(w, Rotate(newKey));
            && Progress(n)
            && (Held(n) <==> DropsNothing(w, newKey))
  {
    var n := Step(w, Rotate(newKey));
    forall item | item in w.items
      ensures ItemUnder(n.vault, item) <==>
              (w.vault.previous.Some? && !Opens(n.vault, w.vault.previous.value)
               ==> !HasUnder(w.vault.previous.value, item))
    {
      assert ItemUnder(w.vault, item);
    }
  }

  /** It happens: a line cut short holds the first rotation open, a second is
      begun, and a crash there leaves a line no key in the vault opens. */
  lemma {:induction false} SecondRotationLoses()
    ensures var w := World(Keys(0, None), [Log([DamagedLine("enc:")]), Log([SealedLine(0, "hello")])], None, Running);
            var n := Step(Step(Step(Step(w, Rotate(1)), Advance), Rotate(2)), Crash);
            Held(w) && Progress(w) && |n.items| == 2 && Read(n.vault, n.items[1]) == LogContents([None])
  {
    var lines, kept := [DamagedLine("enc:")], [SealedLine(0, "hello")];
    var w := World(Keys(0, None), [Log(lines), Log(kept)], None, Running);
    assert lines[0] in lines;
    assert Step(Step(w, Rotate(1)), Advance) == World(Keys(1, Some(0)), w.items, None, Running);
    assert ReadLines(Keys(2, Some(1)), kept) == [None];
  }

  /** Which is only ever after a damaged item held the last one open: without
      damage, a running store's vault names one key. */
  predicate Sound(w: World) {
    AllUndamaged(w.items) && (w.phase.Running? ==> w.vault.previous.None?)
  }

  predicate PutsUndamaged(events: seq<Event>) {
    forall e | e in events && e.Put? :: Undamaged(e.item)
  }

  lemma {:induction false} StepSound(w: World, e: Event)
    requires Held(w) && Progress(w) && Sound(w) && (e.Put? ==> Undamaged(e.item))
    ensures Careful(w, e) && Sound(Step(w, e))
  {
    match e
    case Advance =>
      if w.phase.Recrypting? && w.phase.done < |w.items| {
        var p := w.phase;
        assert w.items[p.done] in w.items;
        RecryptKeeps(p.from, w.vault.key, w.items[p.done]);
        UndamagedReplaced(w.items, p.done, Step(w, e).items[p.done]);
      }
    case Put(index, item) =>
      if index < |w.items| {
        assert w.items[index] in w.items;
        UndamagedReplaced(w.items, index, item);
      }
    case _ =>
  }

  /** So where nothing is damaged, no care is needed: every event in any order,
      with a crash anywhere, keeps every item readable. */
  lemma {:induction false} UndamagedRunKeeps(w: World, events: seq<Event>)
    requires Held(w) && Progress(w) && Sound(w) && PutsUndamaged(events)
    ensures CarefulRun(w, events) && Sound(After(w, events))
    ensures var n := After(w, events);
            && Held(n) && |n.items| == |w.items|
            && forall i: nat | i < |w.items| :: Read(n.vault, n.items[i]) == LastPut(w, events, i)
  {
    UndamagedCareful(w, events);
    RunKeeps(w, events);
  }

  lemma {:induction false} UndamagedCareful(w: World, events: seq<Event>)
    requires Held(w) && Progress(w) && Sound(w) && PutsUndamaged(events)
    ensures CarefulRun(w, events) && Sound(After(w, events))
  {
    if events != [] {
      var before, e := events[..|events| - 1], events[|events| - 1];
      assert e in events;
      UndamagedCareful(w, before);
      RunKeeps(w, before);
      StepSound(After(w, before), e);
      forall k | 0 <= k < |events| ensures CarefulAt(w, events, k) {
        if k < |before| {
          assert CarefulAt(w, before, k) && before[..k] == events[..k] && before[k] == events[k];
        } else {
          assert events[..k] == before;
        }
      }
    }
  }

  /** What a rotation does leave behind: `state.prev` stays under the old key,
      which the settled vault no longer opens. */
  lemma {:induction false} StatePreviousLeftBehind(w: World, newKey: Key)
    requires w.phase.Running? && w.vault.previous.None? && Held(w) && AllUndamaged(w.items)
    requires w.statePrevious.Some? && w.statePrevious.value.Under? && w.statePrevious.value.key == w.vault.key
    requires newKey != w.vault.key
    ensures var n := Drive(Step(w, Rotate(newKey)));
            n.statePrevious == w.statePrevious && ReadFile(n.vault, n.statePrevious.value) == Lost
  {
    RotateKeepsIff(w, newKey);
    RotationSettlesIff(w, newKey);
    DrivePass(Step(w, Rotate(newKey)));
  }
}
