/** How many one-time keys a client can come to hold. */
module PrekeyRuns {
  import opened Wrappers
  import opened Sessions
  import opened SessionTheorems
  import opened PrekeyTheorems

  function Target(pq: bool): nat {
    if pq then PQ_ONE_TIME_TARGET else ONE_TIME_TARGET
  }

  // --- keys handed out at one time -------------------------------------------------------------

  function HandedAt(deposit: seq<Deposited>, t: Time): nat {
    if deposit == [] then 0
    else HandedAt(deposit[..|deposit| - 1], t) + if deposit[|deposit| - 1].handedOutAt == Some(t) then 1 else 0
  }

  lemma {:induction false} HandedAtIs(deposit: seq<Deposited>, t: Time)
    ensures var times := HandedOutTimes(deposit);
            HandedAt(deposit, t) == AtLeast(times, t) - AtLeast(times, t + 1)
  {
    if deposit != [] {
      var init, last := deposit[..|deposit| - 1], deposit[|deposit| - 1];
      HandedAtIs(init, t);
      if last.handedOutAt.Some? {
        var times := HandedOutTimes(init);
        assert (times + [last.handedOutAt.value])[..|times|] == times;
      }
    }
  }

  lemma {:induction false} HandedAtSince(deposit: seq<Deposited>, since: int, t: Time)
    ensures HandedAt(HandedOutSince(deposit, since), t) <= HandedAt(deposit, t)
    ensures |HandedOutSince(deposit, since)| <= |deposit|
  {
    if deposit != [] {
      var init, last := deposit[..|deposit| - 1], deposit[|deposit| - 1];
      HandedAtSince(init, since, t);
      var kept := HandedOutSince(init, since);
      assert (kept + [last])[..|kept|] == kept;
    }
  }

  lemma {:induction false} HandedAtConcat(a: seq<Deposited>, b: seq<Deposited>, t: Time)
    ensures HandedAt(a + b, t) == HandedAt(a, t) + HandedAt(b, t)
    decreases |b|
  {
    if b == [] {
      assert a + b == a;
    } else {
      assert (a + b)[..|a + b| - 1] == a + b[..|b| - 1];
      HandedAtConcat(a, b[..|b| - 1], t);
    }
  }

  lemma {:induction false} HandedAtNew(made: seq<Prekey>, t: Time)
    ensures HandedAt(seq(|made|, i requires 0 <= i < |made| => Deposited(made[i], None)), t) == 0
  {
    var all := seq(|made|, i requires 0 <= i < |made| => Deposited(made[i], None));
    NoneHandedAt(all, t);
  }

  lemma {:induction false} NoneHandedAt(deposit: seq<Deposited>, t: Time)
    requires forall i | 0 <= i < |deposit| :: deposit[i].handedOutAt.None?
    ensures HandedAt(deposit, t) == 0
  {
    if deposit != [] {
      NoneHandedAt(deposit[..|deposit| - 1], t);
    }
  }

  lemma {:induction false} HandedAtWithout(deposit: seq<Deposited>, i: nat, t: Time)
    requires i < |deposit|
    ensures HandedAt(Without(deposit, Some(i)), t) <= HandedAt(deposit, t)
    ensures CountOnDeposit(Without(deposit, Some(i))) <= CountOnDeposit(deposit)
  {
    var a, d, b := deposit[..i], deposit[i], deposit[i + 1..];
    assert deposit == a + ([d] + b) && Without(deposit, Some(i)) == a + b;
    HandedAtConcat(a, b, t);
    HandedAtConcat([d], b, t);
    HandedAtConcat(a, [d] + b, t);
    CountConcat(a, b);
    CountConcat([d], b);
    CountConcat(a, [d] + b);
  }

  lemma {:induction false} HandedAtNoted(deposit: seq<Deposited>, consumed: set<nat>, now: Time, t: Time)
    ensures var noted := NoteConsumed(deposit, consumed, now);
            && |noted| == |deposit| && CountOnDeposit(noted) <= CountOnDeposit(deposit)
            && (t != now ==> HandedAt(noted, t) == HandedAt(deposit, t))
            && HandedAt(noted, now) + CountOnDeposit(noted) == HandedAt(deposit, now) + CountOnDeposit(deposit)
  {
    var noted := NoteConsumed(deposit, consumed, now);
    if deposit != [] {
      var init := deposit[..|deposit| - 1];
      HandedAtNoted(init, consumed, now, t);
      assert noted[..|deposit| - 1] == NoteConsumed(init, consumed, now);
    }
  }

  /** Keys are handed out or on deposit. */
  lemma {:induction false} CountTotal(deposit: seq<Deposited>)
    ensures |deposit| == |HandedOutTimes(deposit)| + CountOnDeposit(deposit)
  {
    if deposit != [] {
      CountTotal(deposit[..|deposit| - 1]);
    }
  }

  // --- how many there can be --------------------------------------------------------------------

  /** At most `target` keys on deposit and as many handed out at any one time, those
      times being among `seen`, and no more in all than the cap and two targets leave. */
  ghost predicate Spread(deposit: seq<Deposited>, target: nat, seen: set<Time>) {
    && CountOnDeposit(deposit) <= target
    && (forall t :: HandedAt(deposit, t) <= target && (HandedAt(deposit, t) > 0 ==> t in seen))
    && |deposit| <= MAX_HANDED_OUT_KEPT - 1 + 2 * target
  }

  /** What stays of the keys handed out: the cap's, and those handed out with the last. */
  lemma {:induction false} StaleKeeps(deposit: seq<Deposited>, target: nat, now: Time)
    requires 0 < target && forall t :: HandedAt(deposit, t) <= target
    ensures |HandedOutTimes(ForgetStale(deposit, now))| <= MAX_HANDED_OUT_KEPT - 1 + target
    ensures forall t :: HandedAt(ForgetStale(deposit, now), t) <= HandedAt(deposit, t)
  {
    var recent := HandedOutSince(deposit, now - ONE_TIME_RETENTION + 1);
    forall t ensures HandedAt(recent, t) <= HandedAt(deposit, t) {
      HandedAtSince(deposit, now - ONE_TIME_RETENTION + 1, t);
    }
    CappedKeeps(recent, target, MAX_HANDED_OUT_KEPT);
  }

  lemma {:induction false} CappedKeeps(deposit: seq<Deposited>, target: nat, cap: nat)
    requires 0 < target && 0 < cap && forall t :: HandedAt(deposit, t) <= target
    ensures |HandedOutTimes(Capped(deposit, cap))| <= cap - 1 + target
    ensures forall t :: HandedAt(Capped(deposit, cap), t) <= HandedAt(deposit, t)
  {
    var times := HandedOutTimes(deposit);
    CappedCount(deposit, cap);
    if |times| > cap {
      var c := Cutoff(times, cap);
      CutoffIs(times, cap);
      HandedAtIs(deposit, c);
      forall t ensures HandedAt(Capped(deposit, cap), t) <= HandedAt(deposit, t) {
        HandedAtSince(deposit, c, t);
      }
    }
  }

  lemma {:induction false} TopUpSpread(deposit: seq<Deposited>, target: nat, now: Time, made: seq<Prekey>, seen: set<Time>)
    requires 0 < target && Spread(deposit, target, seen) && Fills(deposit, target, now, made)
    ensures Spread(TopUp(deposit, target, now, made), target, seen)
  {
    var kept := ForgetStale(deposit, now);
    var more := seq(|made|, i requires 0 <= i < |made| => Deposited(made[i], None));
    StaleKeeps(deposit, target, now);
    DepositFilled(deposit, target, now, made);
    forall t ensures HandedAt(kept + more, t) == HandedAt(kept, t) {
      HandedAtConcat(kept, more, t);
      HandedAtNew(made, t);
    }
    CountTotal(kept);
    CountTotal(kept + more);
    CountAll(more);
    CountConcat(kept, more);
  }

  lemma {:induction false} NotedSpread(deposit: seq<Deposited>, target: nat, consumed: set<nat>, now: Time, seen: set<Time>)
    requires Spread(deposit, target, seen) && now !in seen
    ensures Spread(NoteConsumed(deposit, consumed, now), target, seen + {now})
  {
    var noted := NoteConsumed(deposit, consumed, now);
    HandedAtNoted(deposit, consumed, now, now);
    assert HandedAt(deposit, now) == 0;
    forall t ensures HandedAt(noted, t) <= target && (HandedAt(noted, t) > 0 ==> t in seen + {now}) {
      HandedAtNoted(deposit, consumed, now, t);
    }
  }

  lemma {:induction false} UsedSpread(deposit: seq<Deposited>, target: nat, i: Option<nat>, seen: set<Time>)
    requires Spread(deposit, target, seen) && (i.Some? ==> i.value < |deposit|)
    ensures Spread(Without(deposit, i), target, seen)
  {
    if i.Some? {
      HandedAtWithout(deposit, i.value, 0);
      forall t ensures HandedAt(Without(deposit, i), t) <= HandedAt(deposit, t) {
        HandedAtWithout(deposit, i.value, t);
      }
    }
  }

  // --- every run -----------------------------------------------------------------------------------

  /** When the relay reported, over a run. */
  function ReportTimes(ops: seq<Op>): set<Time> {
    if ops == [] then {}
    else
      var before, op := ReportTimes(ops[..|ops| - 1]), ops[|ops| - 1];
      if op.Status? then before + {op.now} else before
  }

  /** No two reports of a run in one millisecond. */
  predicate ReportsApart(ops: seq<Op>) {
    ops != [] ==>
      var before, op := ops[..|ops| - 1], ops[|ops| - 1];
      ReportsApart(before) && (op.Status? ==> op.now !in ReportTimes(before))
  }

  lemma {:induction false} StepSpread(s: Store, op: Op, pq: bool, seen: set<Time>)
    requires Possible(s, op) && Spread(DepositOf(s, pq), Target(pq), seen) && (op.Status? ==> op.now !in seen)
    ensures Spread(DepositOf(Step(s, op), pq), Target(pq), if op.Status? then seen + {op.now} else seen)
  {
    var deposit := DepositOf(s, pq);
    match op
    case Receive(from, body, now, crypto, room) =>
      if Decrypt(s, from, body, now, crypto, room).result == Ok(true) {
        var named := FindNamed(s, body.init.value).value;
        UsedSpread(deposit, Target(pq), if pq then named.pqOneTime else named.oneTime, seen);
      }
    case PublishKeys(now, made) =>
      TopUpSpread(deposit, Target(pq), now, if pq then made.pqOneTime else made.oneTime, seen);
    case Status(report, now, made) =>
      NotedSpread(deposit, Target(pq), if pq then report.pqConsumed else report.consumed, now, seen);
      if RunsLow(report) && MayTopUp(s.topUps, now) {
        TopUpSpread(DepositOf(Noted(s, report, now), pq), Target(pq), now,
                    if pq then made.pqOneTime else made.oneTime, seen + {now});
      }
    case _ =>
  }

  /** In every run whose reports come apart, a client holds at most the cap, less one,
      and two targets of one-time keys: 119, and 99 of ML-KEM. */
  lemma {:induction false} RunHoldsAtMost(me: Peer, ops: seq<Op>, pq: bool)
    requires PossibleRun(me, ops) && ReportsApart(ops)
    ensures Spread(DepositOf(After(me, ops), pq), Target(pq), ReportTimes(ops))
    ensures |DepositOf(After(me, ops), pq)| <= if pq then 99 else 119
  {
    if ops != [] {
      var before := ops[..|ops| - 1];
      PossibleBefore(me, ops);
      RunHoldsAtMost(me, before, pq);
      StepSpread(After(me, before), ops[|ops| - 1], pq, ReportTimes(before));
    }
  }

  // --- reports in one millisecond -------------------------------------------------------------------

  /** The relay says every key on deposit has gone. */
  function AllGone(s: Store): Report {
    Report(0, set k | k in KeysOnDeposit(s.oneTime) :: k.id, None, {})
  }

  /** A publish, then such reports, all at `now`. */
  function Draining(me: Peer, now: Time, made: seq<Made>): seq<Op> {
    if made == [] then []
    else
      var before := Draining(me, now, made[..|made| - 1]);
      before + [if before == [] then PublishKeys(now, made[0])
                else Status(AllGone(After(me, before)), now, made[|made| - 1])]
  }

  predicate AllAt(deposit: seq<Deposited>, now: Time) {
    forall d | d in deposit :: d.handedOutAt.None? || d.handedOutAt.value == now
  }

  lemma {:induction false} NoteAllGone(deposit: seq<Deposited>, consumed: set<nat>, now: Time)
    requires AllAt(deposit, now) && forall d | d in deposit && OnDeposit(d) :: d.key.id in consumed
    ensures var noted := NoteConsumed(deposit, consumed, now);
            && CountOnDeposit(noted) == 0 && |HandedOutTimes(noted)| == |deposit| && AllAt(noted, now)
  {
    var noted := NoteConsumed(deposit, consumed, now);
    forall i | 0 <= i < |noted| ensures noted[i].handedOutAt == Some(now) {
      assert deposit[i] in deposit;
    }
    NoneOnDeposit(noted);
    CountTotal(noted);
  }

  lemma {:induction false} NoneOnDeposit(deposit: seq<Deposited>)
    requires forall i | 0 <= i < |deposit| :: deposit[i].handedOutAt.Some?
    ensures CountOnDeposit(deposit) == 0
  {
    if deposit != [] {
      NoneOnDeposit(deposit[..|deposit| - 1]);
    }
  }

  lemma {:induction false} SinceAll(deposit: seq<Deposited>, since: int, now: Time)
    requires AllAt(deposit, now) && since <= now
    ensures HandedOutSince(deposit, since) == deposit
  {
    if deposit != [] {
      var init := deposit[..|deposit| - 1];
      assert forall d | d in init :: d in deposit;
      assert deposit[|deposit| - 1] in deposit;
      SinceAll(init, since, now);
    }
  }

  lemma {:induction false} TimesAllAt(deposit: seq<Deposited>, now: Time)
    requires AllAt(deposit, now)
    ensures forall t | t in HandedOutTimes(deposit) :: t == now
  {
    if deposit != [] {
      var init := deposit[..|deposit| - 1];
      assert forall d | d in init :: d in deposit;
      assert deposit[|deposit| - 1] in deposit;
      TimesAllAt(init, now);
    }
  }

  /** Keys all handed out at once are all kept, whatever the cap. */
  lemma {:induction false} StaleKeepsAll(deposit: seq<Deposited>, now: Time)
    requires AllAt(deposit, now)
    ensures ForgetStale(deposit, now) == deposit
  {
    SinceAll(deposit, now - ONE_TIME_RETENTION + 1, now);
    var times := HandedOutTimes(deposit);
    TimesAllAt(deposit, now);
    if |times| > MAX_HANDED_OUT_KEPT {
      CutoffAmong(times, MAX_HANDED_OUT_KEPT);
      SinceAll(deposit, Cutoff(times, MAX_HANDED_OUT_KEPT), now);
    }
  }

  lemma {:induction false} CutoffAmong(times: seq<Time>, cap: nat)
    requires 0 < cap <= |times|
    ensures Cutoff(times, cap) in times
  {
    SortAmong(times);
    assert SortTimes(times)[|times| - cap] in SortTimes(times);
  }

  lemma {:induction false} SortAmong(times: seq<Time>)
    ensures forall t | t in SortTimes(times) :: t in times
  {
    if times != [] {
      SortAmong(times[..|times| - 1]);
      SortIs(times[..|times| - 1], 0);
      InsertedSorted(times[|times| - 1], SortTimes(times[..|times| - 1]));
    }
  }

  /** A store whose keys were all handed out at `now`, `handed` of them, with a full
      deposit and `asked` deposits made, all at `now`. */
  ghost predicate Drained(s: Store, now: Time, handed: nat, asked: nat) {
    && AllAt(s.oneTime, now) && |HandedOutTimes(s.oneTime)| == handed && CountOnDeposit(s.oneTime) == ONE_TIME_TARGET
    && |s.topUps| == asked && forall t | t in s.topUps :: t == now
  }

  lemma {:induction false} LastHourAll(times: seq<Time>, now: Time)
    requires forall t | t in times :: t == now
    ensures LastHour(times, now) == times
  {
    if times != [] {
      var init := times[..|times| - 1];
      assert forall t | t in init :: t in times;
      assert times[|times| - 1] in times;
      LastHourAll(init, now);
    }
  }

  lemma {:induction false} TopUpAllAt(deposit: seq<Deposited>, now: Time, made: seq<Prekey>)
    requires AllAt(deposit, now) && Fills(deposit, ONE_TIME_TARGET, now, made) && CountOnDeposit(deposit) == 0
    ensures var full := TopUp(deposit, ONE_TIME_TARGET, now, made);
            && AllAt(full, now) && CountOnDeposit(full) == ONE_TIME_TARGET
            && |HandedOutTimes(full)| == |deposit|
  {
    var full := TopUp(deposit, ONE_TIME_TARGET, now, made);
    StaleKeepsAll(deposit, now);
    DepositFilled(deposit, ONE_TIME_TARGET, now, made);
    forall d | d in full ensures d.handedOutAt.None? || d.handedOutAt.value == now {
      var i :| 0 <= i < |full| && full[i] == d;
      assert i < |deposit| ==> deposit[i] in deposit;
    }
    CountTotal(full);
  }

  lemma {:induction false} DrainOnce(s: Store, now: Time, made: Made, handed: nat, asked: nat)
    requires Drained(s, now, handed, asked) && asked < TOP_UPS_PER_HOUR
    requires Possible(s, Status(AllGone(s), now, made))
    ensures Drained(ApplyStatus(s, AllGone(s), now, made), now, handed + ONE_TIME_TARGET, asked + 1)
  {
    KeysOnDepositAre(s.oneTime);
    forall d | d in s.oneTime && OnDeposit(d) ensures d.key.id in AllGone(s).consumed {
      assert d.key in KeysOnDeposit(s.oneTime);
    }
    CountTotal(s.oneTime);
    NoteAllGone(s.oneTime, AllGone(s).consumed, now);
    LastHourAll(s.topUps, now);
    var noted := Noted(s, AllGone(s), now);
    TopUpAllAt(noted.oneTime, now, made.oneTime);
  }

  /** So where reports share a millisecond the cap is no cap: five of them, well within
      the six deposits an hour, and a hundred handed-out keys are kept where the cap is
      eighty. */
  lemma {:induction false} HundredKept(me: Peer, now: Time, made: seq<Made>)
    requires 0 < |made| <= TOP_UPS_PER_HOUR + 1 && PossibleRun(me, Draining(me, now, made))
    ensures Drained(After(me, Draining(me, now, made)), now, (|made| - 1) * ONE_TIME_TARGET, |made| - 1)
    ensures |made| == 6 ==>
              |HandedOutTimes(After(me, Draining(me, now, made)).oneTime)| == 100 > MAX_HANDED_OUT_KEPT
  {
    var ops := Draining(me, now, made);
    var before := Draining(me, now, made[..|made| - 1]);
    assert ops[..|ops| - 1] == before;
    PossibleBefore(me, ops);
    if |made| == 1 {
      assert before == [] && made[..0] == [];
      assert CountOnDeposit([]) == 0;
      TopUpAllAt([], now, made[0].oneTime);
    } else {
      HundredKept(me, now, made[..|made| - 1]);
      DrainingLength(me, now, made[..|made| - 1]);
      DrainOnce(After(me, before), now, made[|made| - 1], (|made| - 2) * ONE_TIME_TARGET, |made| - 2);
    }
  }

  lemma {:induction false} DrainingLength(me: Peer, now: Time, made: seq<Made>)
    ensures |Draining(me, now, made)| == |made|
  {
    if made != [] {
      DrainingLength(me, now, made[..|made| - 1]);
    }
  }
}
