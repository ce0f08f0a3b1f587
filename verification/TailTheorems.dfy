/** What the tail promises of lookups over every run: no answer lost or repeated,
    and none settled before the log has caught up with it. */
module TailTheorems {
  import opened Wrappers
  import opened Transparency
  import opened Tail

  // --- every answer once ------------------------------------------------------------------

  /** The answers that wait, by their tickets. */
  function Waiting(deferred: seq<Deferred>): multiset<nat> {
    if deferred == [] then multiset{}
    else
      var before, last := Waiting(deferred[..|deferred| - 1]), deferred[|deferred| - 1];
      if last.DeferredAnswer? then before + multiset{last.answer.ticket} else before
  }

  /** The answers handed on or refused. */
  function Finished(outs: seq<Out>): multiset<nat> {
    if outs == [] then multiset{}
    else
      var before, last := Finished(outs[..|outs| - 1]), outs[|outs| - 1];
      if last.Settled? || last.Refused? then before + multiset{last.answer.ticket} else before
  }

  /** The answers that came in. */
  function Received(inputs: seq<Input>): multiset<nat> {
    if inputs == [] then multiset{}
    else
      var before, last := Received(inputs[..|inputs| - 1]), inputs[|inputs| - 1];
      if last.AnswerIn? then before + multiset{last.answer.ticket} else before
  }

  lemma {:induction false} FinishedConcat(a: seq<Out>, b: seq<Out>)
    ensures Finished(a + b) == Finished(a) + Finished(b)
    decreases |b|
  {
    if b == [] {
      assert a + b == a;
    } else {
      assert (a + b)[..|a + b| - 1] == a + b[..|b| - 1];
      FinishedConcat(a, b[..|b| - 1]);
    }
  }

  lemma {:induction false} WaitingCons(d: Deferred, rest: seq<Deferred>)
    ensures Waiting([d] + rest) == Waiting([d]) + Waiting(rest)
    ensures Waiting([d]) == if d.DeferredAnswer? then multiset{d.answer.ticket} else multiset{}
    decreases |rest|
  {
    assert [d][..0] == [];
    if rest == [] {
      assert [d] + rest == [d];
    } else {
      assert ([d] + rest)[..|rest|] == [d] + rest[..|rest| - 1];
      WaitingCons(d, rest[..|rest| - 1]);
    }
  }

  lemma {:induction false} FinishedOne(out: Out)
    ensures Finished([out]) == if out.Settled? || out.Refused? then multiset{out.answer.ticket} else multiset{}
  {
    assert [out][..0] == [];
  }

  lemma {:induction false} RefusalsFinish(deferred: seq<Deferred>, why: Why)
    ensures Finished(Refusals(deferred, why)) == Waiting(deferred)
  {
    if deferred != [] {
      var before, last := deferred[..|deferred| - 1], deferred[|deferred| - 1];
      RefusalsFinish(before, why);
      if last.DeferredAnswer? {
        FinishedConcat(Refusals(before, why), [Refused(last.answer, why)]);
        FinishedOne(Refused(last.answer, why));
      }
    }
  }

  lemma {:induction false} ResolveFrame(t: Tail, s: LogState)
    requires t.log == Some(s)
    ensures var r := ResolveDeferred(t, s);
            && (r.tail.deferred != [] ==> r.tail.mode.Some?)
            && r.tail.log == t.log && r.tail.lastSynced == t.lastSynced
    decreases |t.deferred|
  {
    if t.mode.None? && t.deferred != [] {
      var u := t.(deferred := t.deferred[1..]);
      match t.deferred[0]
      case DeferredAnswer(a) =>
        if !(a.head.Some? && a.head.value.index > s.head.index) {
          ResolveFrame(u, s);
        }
      case DeferredHead(peer, head) =>
        ResolveFrame(CheckHead(u, s, peer, head).tail, s);
    }
  }

  lemma {:induction false} ResolveConserves(t: Tail, s: LogState)
    requires t.log == Some(s)
    ensures var r := ResolveDeferred(t, s);
            Waiting(t.deferred) == Waiting(r.tail.deferred) + Finished(r.outs)
    decreases |t.deferred|
  {
    if t.mode.None? && t.deferred != [] {
      var u := t.(deferred := t.deferred[1..]);
      match t.deferred[0]
      case DeferredAnswer(a) =>
        if a.head.Some? && a.head.value.index > s.head.index {
          FinishedOne(LogSince(s.head.index));
        } else {
          ResolveConserves(u, s);
          ResolveFinishes(s, a);
          FirstResolved(t.deferred, Resolve(s, a), ResolveDeferred(u, s));
        }
      case DeferredHead(peer, head) =>
        var c := CheckHead(u, s, peer, head);
        CheckHeadFinishes(u, s, peer, head);
        ResolveConserves(c.tail, s);
        FirstResolved(t.deferred, c.outs, ResolveDeferred(c.tail, s));
    }
  }

  lemma {:induction false} FirstResolved(deferred: seq<Deferred>, outs: seq<Out>, rest: Step)
    requires deferred != [] && Waiting(deferred[1..]) == Waiting(rest.tail.deferred) + Finished(rest.outs)
    requires Finished(outs) == if deferred[0].DeferredAnswer? then multiset{deferred[0].answer.ticket} else multiset{}
    ensures Waiting(deferred) == Waiting(rest.tail.deferred) + Finished(outs + rest.outs)
  {
    WaitingCons(deferred[0], deferred[1..]);
    assert deferred == [deferred[0]] + deferred[1..];
    FinishedConcat(outs, rest.outs);
  }

  lemma {:induction false} UnloggedFinish(s: LogState, rs: seq<DeviceRevocation>)
    ensures forall out | out in UnloggedOuts(s, rs) :: out.LookupProblem?
  {
    if rs != [] {
      UnloggedFinish(s, rs[..|rs| - 1]);
    }
  }

  lemma {:induction false} DevicesFinish(s: LogState, ds: seq<DeviceBundle>, rs: seq<DeviceRevocation>)
    ensures forall out | out in DeviceOuts(s, ds, rs) :: out.LookupProblem?
  {
    if ds != [] {
      DevicesFinish(s, ds[..|ds| - 1], rs);
    }
  }

  /** Settling or refusing an answer puts it out once, among problems with devices. */
  lemma {:induction false} ResolveParts(s: LogState, a: Answer) returns (problems: seq<Out>, out: Out)
    ensures Resolve(s, a) == problems + [out] && (forall p | p in problems :: p.LookupProblem?)
    ensures out.Settled? || out.Refused?
    ensures out.answer.ticket == a.ticket && out.answer.head == a.head
    ensures out.Settled? <==> Passes(s, a)
    ensures out.Settled? ==>
              var kept := LoggedOnes(s, a.deviceRevocations);
              out.answer == Handed(a.(devices := BorneOut(s, a.devices, kept), deviceRevocations := kept))
  {
    if Passes(s, a) {
      var kept := LoggedOnes(s, a.deviceRevocations);
      UnloggedFinish(s, a.deviceRevocations);
      DevicesFinish(s, a.devices, kept);
      problems := UnloggedOuts(s, a.deviceRevocations) + DeviceOuts(s, a.devices, kept);
      out := Settled(Handed(a.(devices := BorneOut(s, a.devices, kept), deviceRevocations := kept)));
    } else {
      problems, out := [], Refused(a, Problem(CheckLookup(s, a.subject, a.shown).value));
      assert [] + [out] == [out];
    }
  }

  lemma {:induction false} ResolveFinishes(s: LogState, a: Answer)
    ensures Finished(Resolve(s, a)) == multiset{a.ticket}
  {
    var problems, out := ResolveParts(s, a);
    NothingFinishes(problems);
    FinishedConcat(problems, [out]);
    FinishedOne(out);
  }

  lemma {:induction false} CheckHeadFinishes(t: Tail, s: LogState, peer: Peer, head: LogHead)
    ensures Finished(CheckHead(t, s, peer, head).outs) == multiset{}
  {
    var outs := CheckHead(t, s, peer, head).outs;
    if outs != [] {
      assert outs == [outs[0]];
      FinishedOne(outs[0]);
    }
  }

  /** Something waiting means a fetch is under way; nothing waits where
      transparency is off; what waits came with a head. */
  predicate Waits(t: Tail) {
    && (t.deferred != [] ==> t.mode.Some?)
    && (t.log.None? ==> t.mode.None?)
    && forall d | d in t.deferred && d.DeferredAnswer? :: d.answer.head.Some?
  }

  predicate Conserves(t: Tail, arrived: multiset<nat>, s: Step) {
    Waiting(t.deferred) + arrived == Waiting(s.tail.deferred) + Finished(s.outs)
  }

  lemma {:induction false} RelayHeadConserves(t: Tail, head: LogHead)
    ensures var s := OnRelayHead(t, head);
            Finished(s.outs) == multiset{} && s.tail.deferred == t.deferred && (s.tail.log.None? <==> t.log.None?)
  {
    var outs := OnRelayHead(t, head).outs;
    if |outs| == 1 {
      assert outs == [outs[0]];
      FinishedOne(outs[0]);
    } else if |outs| == 2 {
      assert outs == [outs[0]] + [outs[1]];
      FinishedConcat([outs[0]], [outs[1]]);
      FinishedOne(outs[0]);
      FinishedOne(outs[1]);
    }
  }

  lemma {:induction false} WaitingSnoc(deferred: seq<Deferred>, d: Deferred)
    ensures Waiting(deferred + [d]) ==
            if d.DeferredAnswer? then Waiting(deferred) + multiset{d.answer.ticket} else Waiting(deferred)
  {
    assert (deferred + [d])[..|deferred|] == deferred;
  }

  lemma {:induction false} AnswerWaits(t: Tail, a: Answer)
    requires Waits(t)
    ensures Waits(OnAnswer(t, a).tail)
  {
    if t.log.Some? && a.head.Some? {
      RelayHeadConserves(t, a.head.value);
    }
  }

  lemma {:induction false} AnswerConserves(t: Tail, a: Answer)
    ensures Conserves(t, multiset{a.ticket}, OnAnswer(t, a))
  {
    if t.log.None? {
      FinishedOne(Settled(Handed(a)));
    } else if a.head.None? {
      FinishedOne(Refused(a, NoHead));
    } else {
      var s := OnRelayHead(t, a.head.value);
      RelayHeadConserves(t, a.head.value);
      if s.tail.mode.Some? {
        AnswerDeferred(t, a, s);
      } else {
        AnswerResolved(t, a, s);
      }
    }
  }

  lemma {:induction false} AnswerDeferred(t: Tail, a: Answer, s: Step)
    requires s.tail.deferred == t.deferred && Finished(s.outs) == multiset{}
    ensures Conserves(t, multiset{a.ticket}, Step(s.tail.(deferred := s.tail.deferred + [DeferredAnswer(a)]), s.outs))
  {
    WaitingSnoc(t.deferred, DeferredAnswer(a));
  }

  lemma {:induction false} AnswerResolved(t: Tail, a: Answer, s: Step)
    requires s.tail.deferred == t.deferred && Finished(s.outs) == multiset{} && s.tail.log.Some?
    ensures Conserves(t, multiset{a.ticket}, Step(s.tail, s.outs + Resolve(s.tail.log.value, a)))
  {
    ResolveFinishes(s.tail.log.value, a);
    FinishedConcat(s.outs, Resolve(s.tail.log.value, a));
  }

  lemma {:induction false} ResolveWaits(t: Tail, s: LogState)
    requires t.log == Some(s) && forall d | d in t.deferred && d.DeferredAnswer? :: d.answer.head.Some?
    ensures forall d | d in ResolveDeferred(t, s).tail.deferred :: d in t.deferred
    ensures Waits(ResolveDeferred(t, s).tail)
    decreases |t.deferred|
  {
    ResolveFrame(t, s);
    if t.mode.None? && t.deferred != [] {
      var u := t.(deferred := t.deferred[1..]);
      assert t.deferred[0] in t.deferred && forall d | d in u.deferred :: d in t.deferred;
      match t.deferred[0]
      case DeferredAnswer(a) =>
        if a.head.value.index <= s.head.index {
          ResolveWaits(u, s);
        }
      case DeferredHead(peer, head) =>
        ResolveWaits(CheckHead(u, s, peer, head).tail, s);
    }
  }

  lemma {:induction false} FailConserves(t: Tail, out: Out, why: Why)
    requires !out.Settled? && !out.Refused? && t.mode.None?
    ensures var s := Then([out], FailDeferred(t, why));
            Conserves(t, multiset{}, s) && Waits(s.tail)
  {
    RefusalsFinish(t.deferred, why);
    FinishedOne(out);
    FinishedConcat([out], Refusals(t.deferred, why));
    assert Waiting([]) == multiset{};
  }

  lemma {:induction false} NothingFinishes(outs: seq<Out>)
    requires forall out | out in outs :: !out.Settled? && !out.Refused?
    ensures Finished(outs) == multiset{}
  {
    if outs != [] {
      assert outs[|outs| - 1] in outs;
      assert forall out | out in outs[..|outs| - 1] :: out in outs;
      NothingFinishes(outs[..|outs| - 1]);
    }
  }

  lemma {:induction false} ThenResolveConserves(t: Tail, s: LogState, outs: seq<Out>)
    requires t.log == Some(s) && forall d | d in t.deferred && d.DeferredAnswer? :: d.answer.head.Some?
    requires forall out | out in outs :: !out.Settled? && !out.Refused?
    ensures var r := Then(outs, ResolveDeferred(t, s));
            Conserves(t, multiset{}, r) && Waits(r.tail)
  {
    NothingFinishes(outs);
    ResolveConserves(t, s);
    ResolveWaits(t, s);
    FinishedConcat(outs, ResolveDeferred(t, s).outs);
  }

  lemma {:induction false} EntriesConserve(h: Hashing, t: Tail, entries: seq<LogEntry>, head: LogHead)
    requires Waits(t)
    ensures Conserves(t, multiset{}, OnEntries(h, t, entries, head)) && Waits(OnEntries(h, t, entries, head).tail)
  {
    if t.log.Some? && t.mode.Some? {
      var u, s := t.(mode := None), t.log.value;
      match t.mode.value
      case Advance(target, origin) => AdvanceConserves(h, u, s, target, origin, entries, head);
      case Verify(_, check, until, peer, _) =>
        var r := Scan(h, t.mode.value.cursor, check, until, t.mode.value.matched, entries);
        FinishedOne(LogSince(r.cursor.index));
        ThenResolveConserves(u, s, VerdictOuts(r, check, until, peer));
    }
  }

  lemma {:induction false} AdvanceConserves(h: Hashing, t: Tail, s: LogState, target: LogHead, origin: Option<Peer>,
                                            entries: seq<LogEntry>, head: LogHead)
    requires t.log == Some(s) && t.mode.None?
    requires forall d | d in t.deferred && d.DeferredAnswer? :: d.answer.head.Some?
    ensures var r := OnAdvancePage(h, t, s, target, origin, entries, head);
            Conserves(t, multiset{}, r) && Waits(r.tail)
  {
    match Apply(h, s, entries)
    case Err(broken) => FailConserves(t, Fork(origin, broken.at), DoesNotChain);
    case Ok(now) =>
      var u := t.(log := Some(now));
      if now.head.index < head.index {
        FailConserves(u, Withheld(origin, head.index), Withholds);
        FinishedOne(LogSince(now.head.index));
      } else if now.head.index == head.index && now.head.hash != head.hash {
        FailConserves(u, Fork(None, head.index), DoesNotChain);
      } else {
        var synced := if t.lastSynced != Some(now.head) then [Synced(now.head)] else [];
        ThenResolveConserves(u.(lastSynced := Some(now.head)), now, TargetOuts(now, target, origin) + synced);
      }
  }

  lemma {:induction false} PeerHeadConserves(t: Tail, peer: Peer, head: LogHead)
    requires Waits(t)
    ensures Conserves(t, multiset{}, OnPeerHead(t, peer, head)) && Waits(OnPeerHead(t, peer, head).tail)
  {
    if t.log.Some? {
      CheckHeadFinishes(t, t.log.value, peer, head);
      WaitingSnoc(t.deferred, DeferredHead(peer, head));
    }
  }

  lemma {:induction false} RelayHeadWaits(t: Tail, head: LogHead)
    requires Waits(t)
    ensures Conserves(t, multiset{}, OnRelayHead(t, head)) && Waits(OnRelayHead(t, head).tail)
  {
    RelayHeadConserves(t, head);
  }

  lemma {:induction false} StepConserves(h: Hashing, t: Tail, input: Input)
    requires Waits(t)
    ensures Conserves(t, Arrived(input), On(h, t, input))
    ensures Waits(On(h, t, input).tail)
  {
    match input
    case RelayHead(head) => RelayHeadWaits(t, head);
    case AnswerIn(a) =>
      AnswerConserves(t, a);
      AnswerWaits(t, a);
    case Page(entries, head) => EntriesConserve(h, t, entries, head);
    case PeerHead(peer, head) => PeerHeadConserves(t, peer, head);
  }

  lemma {:induction false} RunConserves(t: Tail, outs: seq<Out>, received: multiset<nat>,
                                        arrived: multiset<nat>, step: Step)
    requires received == Waiting(t.deferred) + Finished(outs) && Conserves(t, arrived, step)
    ensures received + arrived == Waiting(step.tail.deferred) + Finished(outs + step.outs)
  {
    FinishedConcat(outs, step.outs);
  }

  function Arrived(input: Input): multiset<nat> {
    if input.AnswerIn? then multiset{input.answer.ticket} else multiset{}
  }

  lemma {:induction false} ReceivedSnoc(inputs: seq<Input>)
    requires inputs != []
    ensures Received(inputs) == Received(inputs[..|inputs| - 1]) + Arrived(inputs[|inputs| - 1])
  {
  }

  lemma {:induction false} RunSnoc(h: Hashing, t: Tail, inputs: seq<Input>)
    requires inputs != []
    ensures var before := Run(h, t, inputs[..|inputs| - 1]);
            var step := On(h, before.tail, inputs[|inputs| - 1]);
            Run(h, t, inputs) == Step(step.tail, before.outs + step.outs)
  {
  }

  /** In every run each answer that came in was handed on or refused exactly once,
      or still waits; and something waiting means a fetch is under way. */
  lemma {:induction false} EveryAnswerOnce(h: Hashing, log: Option<LogState>, inputs: seq<Input>)
    ensures var r := Run(h, New(log), inputs);
            && Received(inputs) == Waiting(r.tail.deferred) + Finished(r.outs)
            && Waits(r.tail)
  {
    if inputs != [] {
      var init, input := inputs[..|inputs| - 1], inputs[|inputs| - 1];
      EveryAnswerOnce(h, log, init);
      ReceivedSnoc(inputs);
      RunSnoc(h, New(log), inputs);
      var before := Run(h, New(log), init);
      var step := On(h, before.tail, input);
      StepConserves(h, before.tail, input);
      RunConserves(before.tail, before.outs, Received(init), Arrived(input), step);
    }
  }

  // --- not before the log has caught up -------------------------------------------------------

  /** An answer settled as the log stands is no newer than the log, which bears it out. */
  predicate Timely(s: LogState, outs: seq<Out>) {
    forall out | out in outs && out.Settled? ::
      && out.answer.head.Some? && out.answer.head.value.index <= s.head.index
      && Passes(s, out.answer)
  }

  lemma {:induction false} LoggedAre(s: LogState, rs: seq<DeviceRevocation>)
    ensures forall r :: r in LoggedOnes(s, rs) <==> r in rs && IsLogged(s, r)
  {
    if rs != [] {
      LoggedAre(s, rs[..|rs| - 1]);
      assert rs == rs[..|rs| - 1] + [rs[|rs| - 1]];
    }
  }

  lemma {:induction false} ValidAre(rs: seq<DeviceRevocation>)
    ensures forall r :: r in ValidOnes(rs) <==> r in rs && r.valid
  {
    if rs != [] {
      ValidAre(rs[..|rs| - 1]);
      assert rs == rs[..|rs| - 1] + [rs[|rs| - 1]];
    }
  }

  /** What is left out of an answer is not what it passed by. */
  lemma {:induction false} StillPasses(s: LogState, a: Answer, devices: seq<DeviceBundle>)
    requires Passes(s, a)
    ensures Passes(s, Handed(a.(devices := devices, deviceRevocations := LoggedOnes(s, a.deviceRevocations))))
  {
    var kept := LoggedOnes(s, a.deviceRevocations);
    LoggedAre(s, a.deviceRevocations);
    ValidAre(kept);
    if CheckLookup(s, a.subject, a.shown).Some? {
      var logged := LatestOf(s, a.subject).revocation;
      var r :| r in a.deviceRevocations && r.device == a.subject && r.valid && r.leaf == logged.value.leaf;
      assert r in ValidOnes(kept);
    }
  }

  lemma {:induction false} ResolveOneTimely(s: LogState, a: Answer)
    requires a.head.Some? && a.head.value.index <= s.head.index
    ensures Timely(s, Resolve(s, a))
  {
    var problems, out := ResolveParts(s, a);
    if out.Settled? {
      StillPasses(s, a, BorneOut(s, a.devices, LoggedOnes(s, a.deviceRevocations)));
    }
  }

  lemma {:induction false} ResolveTimely(t: Tail, s: LogState)
    requires t.log == Some(s) && forall d | d in t.deferred && d.DeferredAnswer? :: d.answer.head.Some?
    ensures Timely(s, ResolveDeferred(t, s).outs)
    decreases |t.deferred|
  {
    if t.mode.None? && t.deferred != [] {
      var u := t.(deferred := t.deferred[1..]);
      assert t.deferred[0] in t.deferred && forall d | d in u.deferred :: d in t.deferred;
      match t.deferred[0]
      case DeferredAnswer(a) =>
        if a.head.value.index <= s.head.index {
          ResolveOneTimely(s, a);
          ResolveTimely(u, s);
        }
      case DeferredHead(peer, head) =>
        ResolveTimely(CheckHead(u, s, peer, head).tail, s);
    }
  }

  lemma {:induction false} RefusalsSettleNothing(deferred: seq<Deferred>, why: Why)
    ensures forall out | out in Refusals(deferred, why) :: out.Refused?
  {
    if deferred != [] {
      RefusalsSettleNothing(deferred[..|deferred| - 1], why);
    }
  }

  /** Every settled answer was checked against a log replayed at least as far as
      the head it came with, and one settled as it arrives came with exactly
      the head we had replayed to. */
  lemma {:induction false} SettledWhenReplayed(h: Hashing, t: Tail, input: Input)
    requires Waits(t) && t.log.Some?
    ensures var r := On(h, t, input);
            && r.tail.log.Some? && Timely(r.tail.log.value, r.outs)
            && (input.AnswerIn? ==>
                  forall out | out in r.outs && out.Settled? ::
                    out.answer.head == Some(t.log.value.head) && r.tail == t)
  {
    match input
    case Page(entries, head) =>
      if t.mode.Some? {
        var u, s := t.(mode := None), t.log.value;
        match t.mode.value
        case Advance(target, origin) => AdvanceTimely(h, u, s, target, origin, entries, head);
        case Verify(_, _, _, _, _) =>
          ResolveTimely(u, s);
          ResolveFrame(u, s);
      }
    case AnswerIn(a) => AnswerTimely(t, a);
    case _ =>
  }

  lemma {:induction false} AnswerTimely(t: Tail, a: Answer)
    requires t.log.Some?
    ensures var r := OnAnswer(t, a);
            && r.tail.log.Some? && Timely(r.tail.log.value, r.outs)
            && forall out | out in r.outs && out.Settled? :: out.answer.head == Some(t.log.value.head) && r.tail == t
  {
    if a.head.Some? {
      var s := OnRelayHead(t, a.head.value);
      if s.tail.mode.None? && a.head.value.index <= s.tail.log.value.head.index {
        ResolveOneTimely(s.tail.log.value, a);
        var problems, out := ResolveParts(s.tail.log.value, a);
      }
    }
  }

  lemma {:induction false} AdvanceTimely(h: Hashing, t: Tail, s: LogState, target: LogHead, origin: Option<Peer>,
                                         entries: seq<LogEntry>, head: LogHead)
    requires t.log == Some(s) && t.mode.None?
    requires forall d | d in t.deferred && d.DeferredAnswer? :: d.answer.head.Some?
    ensures var r := OnAdvancePage(h, t, s, target, origin, entries, head);
            r.tail.log.Some? && Timely(r.tail.log.value, r.outs)
  {
    RefusalsSettleNothing(t.deferred, DoesNotChain);
    RefusalsSettleNothing(t.deferred, Withholds);
    match Apply(h, s, entries)
    case Err(_) =>
    case Ok(now) =>
      var u := t.(log := Some(now), lastSynced := Some(now.head));
      ResolveTimely(u, now);
      ResolveFrame(u, now);
  }
}
