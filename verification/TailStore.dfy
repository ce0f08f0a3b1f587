/** The tail itself (`tail.rs`), one connection's. */
module TailMachine {
  import opened Wrappers
  import L = Transparency
  import Spec = Tail
  import opened TransparencyStore

  lemma {:induction false} ThenThen(a: seq<Spec.Out>, b: seq<Spec.Out>, s: Spec.Step)
    ensures Spec.Then(a, Spec.Then(b, s)) == Spec.Then(a + b, s)
  {
  }

  class Machine {
    const log: LogStore?
    const h: L.Hashing
    var mode: Option<Spec.Mode>
    var deferred: seq<Spec.Deferred>
    var lastSynced: Option<L.LogHead>

    ghost predicate Valid() {
      log != null ==> log.h == h
    }

    function View(): Spec.Tail
      reads this, log
    {
      Spec.Tail(if log == null then None else Some(log.State()), mode, deferred, lastSynced)
    }

    constructor (log: LogStore?, h: L.Hashing)
      requires log != null ==> log.h == h
      ensures Valid() && this.log == log && this.h == h
      ensures View() == Spec.New(if log == null then None else Some(log.State()))
    {
      this.log, this.h, mode, deferred := log, h, None, [];
      lastSynced := if log != null && log.head.index > 0 then Some(log.head) else None;
    }

    method StartAdvance(target: L.LogHead, origin: Option<Spec.Peer>) returns (outs: seq<Spec.Out>)
      modifies this`mode
      ensures Spec.Step(View(), outs) == Spec.StartAdvance(old(View()), target, origin)
    {
      mode := Some(Spec.Advance(target, origin));
      var ours := if log == null then L.EMPTY else log.head;
      outs := [Spec.LogSince(ours.index)];
    }

    /** The relay told us where its log stands. */
    method OnRelayHead(head: L.LogHead) returns (outs: seq<Spec.Out>)
      requires Valid()
      modifies this`mode, this`lastSynced, log
      ensures Spec.Step(View(), outs) == Spec.OnRelayHead(old(View()), head)
      ensures log != null ==> log.breaks == Spec.Held(old(log.breaks), Spec.BreakOn(old(View()), head))
    {
      if log == null {
        return [];
      }
      var ours := log.head;
      if head.index < ours.index || (head.index == ours.index && head.hash != ours.hash) {
        outs := if head.index < ours.index then [Spec.Rewound(ours.index, head.index)]
                else [Spec.Fork(None, head.index)];
        log.Reset(head.index < ours.index, head);
        mode, lastSynced := None, None;
        var more := StartAdvance(head, None);
        outs := outs + more;
      } else if head.index > ours.index && mode.None? {
        outs := StartAdvance(head, None);
      } else {
        outs := [];
      }
    }

    /** Of the device statements, the validly signed. */
    method ValidOnes(rs: seq<L.DeviceRevocation>) returns (valid: seq<L.DeviceRevocation>)
      ensures valid == Spec.ValidOnes(rs)
    {
      valid := [];
      for k := 0 to |rs|
        invariant valid == Spec.ValidOnes(rs[..k])
      {
        assert rs[..k + 1][..k] == rs[..k];
        if rs[k].valid {
          valid := valid + [rs[k]];
        }
      }
      assert rs[..|rs|] == rs;
    }

    /** Part the device revocations the log has from those it has not. */
    method PartLogged(rs: seq<L.DeviceRevocation>) returns (kept: seq<L.DeviceRevocation>, outs: seq<Spec.Out>)
      requires log != null
      ensures kept == Spec.LoggedOnes(log.State(), rs) && outs == Spec.UnloggedOuts(log.State(), rs)
    {
      kept, outs := [], [];
      for k := 0 to |rs|
        invariant kept == Spec.LoggedOnes(log.State(), rs[..k]) && outs == Spec.UnloggedOuts(log.State(), rs[..k])
      {
        assert rs[..k + 1][..k] == rs[..k];
        if L.IsLogged(log.State(), rs[k]) {
          kept := kept + [rs[k]];
        } else {
          outs := outs + [Spec.LookupProblem(rs[k].device, L.UnloggedStatement)];
        }
      }
      assert rs[..|rs|] == rs;
    }

    /** Part the devices' bundles the log bears out from the others. */
    method PartDevices(ds: seq<L.DeviceBundle>, rs: seq<L.DeviceRevocation>)
      returns (kept: seq<L.DeviceBundle>, outs: seq<Spec.Out>)
      requires log != null
      ensures kept == Spec.BorneOut(log.State(), ds, rs) && outs == Spec.DeviceOuts(log.State(), ds, rs)
    {
      kept, outs := [], [];
      for k := 0 to |ds|
        invariant kept == Spec.BorneOut(log.State(), ds[..k], rs)
        invariant outs == Spec.DeviceOuts(log.State(), ds[..k], rs)
      {
        assert ds[..k + 1][..k] == ds[..k];
        match L.CheckDevice(log.State(), ds[k], Spec.StatementFor(rs, ds[k].device)) {
          case None => kept := kept + [ds[k]];
          case Some(problem) => outs := outs + [Spec.LookupProblem(ds[k].device, problem)];
        }
      }
      assert ds[..|ds|] == ds;
    }

    /** Check an answer against the log and settle or refuse it. */
    method Resolve(answer: Spec.Answer) returns (outs: seq<Spec.Out>)
      requires log != null
      ensures outs == Spec.Resolve(log.State(), answer)
    {
      var check := L.CheckLookup(log.State(), answer.subject, answer.shown);
      if check.Some? &&
         !(check.value.WithheldRevocation? &&
           L.IsDeviceStatement(log.State(), answer.subject, answer.deviceRevocations)) {
        return [Spec.Refused(answer, Spec.Problem(check.value))];
      }
      var kept, unlogged := PartLogged(answer.deviceRevocations);
      var devices, problems := PartDevices(answer.devices, kept);
      var valid := ValidOnes(kept);
      outs := unlogged + problems + [Spec.Settled(answer.(devices := devices, deviceRevocations := valid))];
    }

    /** A lookup was answered. */
    method OnAnswer(answer: Spec.Answer) returns (outs: seq<Spec.Out>)
      requires Valid()
      modifies this, log
      ensures Spec.Step(View(), outs) == Spec.OnAnswer(old(View()), answer)
      ensures log != null ==> log.breaks == Spec.Held(old(log.breaks), Spec.BreaksOn(old(View()), Spec.AnswerIn(answer)))
    {
      if log == null {
        var handed := ValidOnes(answer.deviceRevocations);
        return [Spec.Settled(answer.(deviceRevocations := handed))];
      }
      if answer.head.None? {
        return [Spec.Refused(answer, Spec.NoHead)];
      }
      var head := answer.head.value;
      outs := OnRelayHead(head);
      if mode.Some? || head.index > log.head.index {
        // A head past ours has the tail catching up already, so nothing more is asked for.
        deferred := deferred + [Spec.DeferredAnswer(answer)];
        return;
      }
      var more := Resolve(answer);
      outs := outs + more;
    }

    method CheckHead(peer: Spec.Peer, head: L.LogHead) returns (outs: seq<Spec.Out>)
      requires log != null
      modifies this`mode
      ensures Spec.Step(View(), outs) == Spec.CheckHead(old(View()), log.State(), peer, head)
    {
      match L.CheckPeerHead(log.State(), head) {
        case Consistent => outs := [];
        case Forked(at) => outs := [Spec.Fork(Some(peer), at)];
        case Ahead => outs := StartAdvance(head, Some(peer));
        case NeedEntries(from, until) =>
          mode := Some(Spec.Verify(from, head, until, peer, None));
          outs := [Spec.LogSince(from.index)];
      }
    }

    /** Deal with what waited for the log to catch up. */
    method ResolveDeferred() returns (outs: seq<Spec.Out>)
      requires log != null
      modifies this`mode, this`deferred
      ensures Spec.Step(View(), outs) == Spec.ResolveDeferred(old(View()), log.State())
      ensures mode.Some? || deferred == []
    {
      outs := [];
      ghost var s, whole := log.State(), Spec.ResolveDeferred(View(), log.State());
      while mode.None? && deferred != []
        invariant log.State() == s && whole == Spec.Then(outs, Spec.ResolveDeferred(View(), s))
        decreases mode.None?, |deferred|
      {
        var first := deferred[0];
        var more;
        match first {
          case DeferredAnswer(answer) =>
            if answer.head.Some? && answer.head.value.index > log.head.index {
              more := StartAdvance(answer.head.value, None);
            } else {
              deferred := deferred[1..];
              more := Resolve(answer);
            }
          case DeferredHead(peer, head) =>
            deferred := deferred[1..];
            more := CheckHead(peer, head);
        }
        ThenThen(outs, more, Spec.ResolveDeferred(View(), s));
        outs := outs + more;
      }
    }

    /** Refuse everything that waited. */
    method FailDeferred(why: Spec.Why) returns (outs: seq<Spec.Out>)
      modifies this`deferred
      ensures Spec.Step(View(), outs) == Spec.FailDeferred(old(View()), why)
    {
      outs := [];
      for k := 0 to |deferred|
        invariant outs == Spec.Refusals(deferred[..k], why)
      {
        assert deferred[..k + 1][..k] == deferred[..k];
        if deferred[k].DeferredAnswer? {
          outs := outs + [Spec.Refused(deferred[k].answer, why)];
        }
      }
      assert deferred[..|deferred|] == deferred;
      deferred := [];
    }

    /** Follow a page through the segment being checked. */
    method ScanPage(m: Spec.Mode, entries: seq<L.LogEntry>) returns (r: Spec.Scanned)
      requires m.Verify?
      ensures r == Spec.Scan(h, m.cursor, m.check, m.until, m.matched, entries)
    {
      var cursor, matched := m.cursor, m.matched;
      for k := 0 to |entries|
        invariant Spec.Scan(h, m.cursor, m.check, m.until, m.matched, entries) ==
                  Spec.Scan(h, cursor, m.check, m.until, matched, entries[k..])
      {
        var e := entries[k];
        assert entries[k..][0] == e && entries[k..][1..] == entries[k + 1..];
        if !L.Follows(e, cursor) {
          return Spec.Scanned(Spec.Doctored(cursor.index + 1), cursor, matched);
        }
        cursor := L.HeadOf(h, e);
        if cursor.index == m.check.index {
          matched := Some(cursor.hash == m.check.hash);
        }
        if cursor.index == m.until.index {
          var segment := if cursor.hash == m.until.hash then Spec.Genuine else Spec.Doctored(m.until.index);
          return Spec.Scanned(segment, cursor, matched);
        }
      }
      return Spec.Scanned(Spec.Incomplete, cursor, matched);
    }

    method OnVerifyPage(m: Spec.Mode, entries: seq<L.LogEntry>) returns (outs: seq<Spec.Out>)
      requires log != null && mode.None? && m.Verify?
      modifies this`mode, this`deferred
      ensures Spec.Step(View(), outs) == Spec.OnVerifyPage(h, old(View()), log.State(), m, entries)
    {
      var r := ScanPage(m, entries);
      if r.segment.Incomplete? && entries != [] {
        mode := Some(m.(cursor := r.cursor, matched := r.matched));
        return [Spec.LogSince(r.cursor.index)];
      }
      outs := Spec.VerdictOuts(r, m.check, m.until, m.peer);
      var more := ResolveDeferred();
      outs := outs + more;
    }

    method OnAdvancePage(target: L.LogHead, origin: Option<Spec.Peer>, entries: seq<L.LogEntry>, head: L.LogHead)
      returns (outs: seq<Spec.Out>)
      requires Valid() && log != null && mode.None?
      modifies this, log
      ensures Spec.Step(View(), outs) ==
              Spec.OnAdvancePage(h, old(View()), old(log.State()), target, origin, entries, head)
      ensures log.breaks == old(log.breaks)
    {
      var applied := log.Apply(entries);
      if applied.Err? {
        var refused := FailDeferred(Spec.DoesNotChain);
        return [Spec.Fork(origin, applied.error.at)] + refused;
      }
      var ours := applied.value;
      if ours.index < head.index {
        if entries == [] {
          var refused := FailDeferred(Spec.Withholds);
          return [Spec.Withheld(origin, head.index)] + refused;
        }
        mode := Some(Spec.Advance(target, origin));
        return [Spec.LogSince(ours.index)];
      }
      if ours.index == head.index && ours.hash != head.hash {
        var refused := FailDeferred(Spec.DoesNotChain);
        return [Spec.Fork(None, head.index)] + refused;
      }
      outs := Spec.TargetOuts(log.State(), target, origin);
      if lastSynced != Some(ours) {
        lastSynced := Some(ours);
        outs := outs + [Spec.Synced(ours)];
      }
      var more := ResolveDeferred();
      outs := outs + more;
    }

    /** A page of entries arrived. */
    method OnEntries(entries: seq<L.LogEntry>, head: L.LogHead) returns (outs: seq<Spec.Out>)
      requires Valid()
      modifies this, log
      ensures Spec.Step(View(), outs) == Spec.OnEntries(h, old(View()), entries, head)
      ensures log != null ==> log.breaks == old(log.breaks)
    {
      if log == null || mode.None? {
        return [];
      }
      var taken := mode.value;
      mode := None;
      match taken {
        case Advance(target, origin) => outs := OnAdvancePage(target, origin, entries, head);
        case Verify(_, _, _, _, _) => outs := OnVerifyPage(taken, entries);
      }
    }

    /** A contact's message carried their head. */
    method OnPeerHead(peer: Spec.Peer, head: L.LogHead) returns (outs: seq<Spec.Out>)
      requires Valid()
      modifies this
      ensures Spec.Step(View(), outs) == Spec.OnPeerHead(old(View()), peer, head)
    {
      if log == null {
        return [];
      }
      if mode.Some? {
        deferred := deferred + [Spec.DeferredHead(peer, head)];
        return [];
      }
      outs := CheckHead(peer, head);
    }
  }
}
