/** What the prekeys a client publishes are good for, and for how long. */
module PrekeyTheorems {
  import opened Wrappers
  import opened Sessions
  import opened SessionTheorems

  // --- signed prekeys ---------------------------------------------------------------------

  predicate Descending(keys: seq<Prekey>) {
    forall i, j | 0 <= i < j < |keys| :: keys[i].createdAt > keys[j].createdAt
  }

  predicate YoungKey(k: Prekey, now: Time) {
    Since(now, k.createdAt) < SIGNED_PREKEY_RETENTION
  }

  lemma {:induction false} YoungIs(keys: seq<Prekey>, now: Time)
    requires Descending(keys)
    ensures var n := Young(keys, now);
            && (forall i | 0 <= i < n :: YoungKey(keys[i], now))
            && (forall i | n <= i < |keys| :: !YoungKey(keys[i], now))
  {
    if keys != [] && YoungKey(keys[0], now) {
      YoungIs(keys[1..], now);
      assert forall i | 1 <= i < |keys| :: keys[i] == keys[1..][i - 1];
    }
  }

  /** One publish: newest first is kept whatever the clock did, and a key held
      before is held after exactly when it is less than 21 days old. */
  lemma {:induction false} RotateKeepsIff(keys: seq<Prekey>, made: Prekey, now: Time)
    requires Descending(keys) && made.createdAt == now
    ensures var r := Rotate(keys, made, now);
            && Descending(r) && r != [] && Since(now, r[0].createdAt) < SIGNED_PREKEY_ROTATION
            && forall k | k in keys :: k in r <==> YoungKey(k, now)
  {
    var due := keys == [] || Since(now, keys[0].createdAt) >= SIGNED_PREKEY_ROTATION;
    var all := if due then [made] + keys else keys;
    assert Descending(all);
    YoungIs(all, now);
    var n := Young(all, now);
    assert YoungKey(all[0], now);
    forall k | k in keys ensures k in all[..n] <==> YoungKey(k, now) {
      var i :| 0 <= i < |keys| && keys[i] == k;
      var at := if due then i + 1 else i;
      assert all[at] == k;
    }
  }

  datatype Rotation = Rotation(now: Time, made: Prekey)

  /** A run of publishes, at whatever times. */
  function Rotated(keys: seq<Prekey>, runs: seq<Rotation>): seq<Prekey> {
    if runs == [] then keys
    else Rotate(Rotated(keys, runs[..|runs| - 1]), runs[|runs| - 1].made, runs[|runs| - 1].now)
  }

  predicate MadeThen(runs: seq<Rotation>) {
    forall r | r in runs :: r.made.createdAt == r.now
  }

  lemma {:induction false} RotatedDescending(keys: seq<Prekey>, runs: seq<Rotation>)
    requires Descending(keys) && MadeThen(runs)
    ensures Descending(Rotated(keys, runs))
  {
    if runs != [] {
      assert runs[|runs| - 1] in runs;
      assert forall r | r in runs[..|runs| - 1] :: r in runs;
      RotatedDescending(keys, runs[..|runs| - 1]);
      RotateKeepsIff(Rotated(keys, runs[..|runs| - 1]), runs[|runs| - 1].made, runs[|runs| - 1].now);
    }
  }

  /** A signed prekey stays findable through any publishes exactly as long as none
      of them comes 21 days or more after it was made; the clock need not be
      monotone. */
  lemma {:induction false} SignedPrekeyKeptIff(keys: seq<Prekey>, runs: seq<Rotation>, k: Prekey)
    requires Descending(keys) && MadeThen(runs) && k in keys
    requires forall r | r in runs :: r.made != k
    ensures k in Rotated(keys, runs) <==> forall r | r in runs :: YoungKey(k, r.now)
    ensures k in Rotated(keys, runs) ==> FindKey(Rotated(keys, runs), k.id).Some?
  {
    if runs != [] {
      var init, last := runs[..|runs| - 1], runs[|runs| - 1];
      assert last in runs && forall r | r in init :: r in runs;
      assert runs == init + [last];
      SignedPrekeyKeptIff(keys, init, k);
      RotatedDescending(keys, init);
      RotateKeepsIff(Rotated(keys, init), last.made, last.now);
      RotateAddsOnlyMade(Rotated(keys, init), last.made, last.now);
    }
  }

  lemma {:induction false} RotateAddsOnlyMade(keys: seq<Prekey>, made: Prekey, now: Time)
    ensures forall k | k in Rotate(keys, made, now) :: k in keys || k == made
  {
  }

  // --- one-time prekeys ------------------------------------------------------------------------

  function DepositOf(s: Store, pq: bool): seq<Deposited> {
    if pq then s.pqOneTime else s.oneTime
  }

  predicate Distinct(deposit: seq<Deposited>) {
    forall i, j | 0 <= i < j < |deposit| :: deposit[i].key.material != deposit[j].key.material
  }

  function Materials(deposit: seq<Deposited>): set<nat> {
    set d | d in deposit :: d.key.material
  }

  /** The one-time key an op used up, if it started a session with one. */
  function UsedBy(s: Store, op: Op, pq: bool): Option<nat> {
    if op.Receive? && Decrypt(s, op.from, op.body, op.now, op.crypto, op.room).result == Ok(true) then
      var named := FindNamed(s, op.body.init.value);
      if named.Err? then None
      else
        var i := if pq then named.value.pqOneTime else named.value.oneTime;
        if i.Some? && i.value < |DepositOf(s, pq)| then Some(DepositOf(s, pq)[i.value].key.material) else None
    else None
  }

  function MadeBy(s: Store, op: Op, pq: bool): seq<Prekey> {
    match op
    case PublishKeys(_, made) => if pq then made.pqOneTime else made.oneTime
    case Status(report, now, made) =>
      if RunsLow(report) && MayTopUp(s.topUps, now) then (if pq then made.pqOneTime else made.oneTime) else []
    case _ => []
  }

  /** The one-time keys a run used, in order. */
  function UsedIn(me: Peer, ops: seq<Op>, pq: bool): seq<nat> {
    if ops == [] then []
    else
      var before, op := ops[..|ops| - 1], ops[|ops| - 1];
      var used := UsedBy(After(me, before), op, pq);
      UsedIn(me, before, pq) + if used.Some? then [used.value] else []
  }

  function MadeIn(me: Peer, ops: seq<Op>, pq: bool): set<nat> {
    if ops == [] then {}
    else
      var before, op := ops[..|ops| - 1], ops[|ops| - 1];
      MadeIn(me, before, pq) + set k | k in MadeBy(After(me, before), op, pq) :: k.material
  }

  /** Generated keys are new: unlike each other and any made before. */
  predicate AllNew(me: Peer, ops: seq<Op>, pq: bool) {
    forall n | 0 <= n < |ops| :: NewAt(me, ops, pq, n)
  }

  predicate NewAt(me: Peer, ops: seq<Op>, pq: bool, n: nat)
    requires n < |ops|
  {
    var keys := MadeBy(After(me, ops[..n]), ops[n], pq);
    && (forall k | k in keys :: k.material !in MadeIn(me, ops[..n], pq))
    && forall i, j | 0 <= i < j < |keys| :: keys[i].material != keys[j].material
  }

  lemma {:induction false} SinceSubset(deposit: seq<Deposited>, since: int)
    requires Distinct(deposit)
    ensures Distinct(HandedOutSince(deposit, since))
    ensures forall d | d in HandedOutSince(deposit, since) :: d in deposit
  {
    if deposit != [] {
      var init, last := deposit[..|deposit| - 1], deposit[|deposit| - 1];
      SinceSubset(init, since);
      assert forall i | 0 <= i < |init| :: init[i].key.material != last.key.material;
      DistinctSnoc(HandedOutSince(init, since), last);
    }
  }

  lemma {:induction false} DistinctSnoc(deposit: seq<Deposited>, d: Deposited)
    requires Distinct(deposit) && forall x | x in deposit :: x.key.material != d.key.material
    ensures Distinct(deposit + [d])
  {
  }

  lemma {:induction false} StaleSubset(deposit: seq<Deposited>, now: Time)
    requires Distinct(deposit)
    ensures Distinct(ForgetStale(deposit, now))
    ensures forall d | d in ForgetStale(deposit, now) :: d in deposit
  {
    var kept := HandedOutSince(deposit, now - ONE_TIME_RETENTION + 1);
    SinceSubset(deposit, now - ONE_TIME_RETENTION + 1);
    var times := HandedOutTimes(kept);
    if |times| > MAX_HANDED_OUT_KEPT {
      SinceSubset(kept, Cutoff(times, MAX_HANDED_OUT_KEPT));
    }
  }

  lemma {:induction false} TopUpDistinct(deposit: seq<Deposited>, target: nat, now: Time, made: seq<Prekey>)
    requires Distinct(deposit)
    requires forall k | k in made :: k.material !in Materials(deposit)
    requires forall i, j | 0 <= i < j < |made| :: made[i].material != made[j].material
    ensures Distinct(TopUp(deposit, target, now, made))
    ensures Materials(TopUp(deposit, target, now, made)) <= Materials(deposit) + set k | k in made :: k.material
  {
    StaleSubset(deposit, now);
    var kept := ForgetStale(deposit, now);
    var all := TopUp(deposit, target, now, made);
    forall i | 0 <= i < |all|
      ensures if i < |kept| then all[i] == kept[i] && all[i].key.material in Materials(deposit)
              else all[i].key == made[i - |kept|] && made[i - |kept|] in made
    {
      if i < |kept| {
        assert kept[i] in kept;
      }
    }
  }

  lemma {:induction false} ConsumedDistinct(deposit: seq<Deposited>, consumed: set<nat>, now: Time)
    requires Distinct(deposit)
    ensures Distinct(NoteConsumed(deposit, consumed, now))
    ensures Materials(NoteConsumed(deposit, consumed, now)) <= Materials(deposit)
  {
    var noted := NoteConsumed(deposit, consumed, now);
    forall i | 0 <= i < |noted| ensures noted[i].key == deposit[i].key && deposit[i] in deposit {
    }
  }

  lemma {:induction false} WithoutDistinct(deposit: seq<Deposited>, i: nat)
    requires Distinct(deposit) && i < |deposit|
    ensures Distinct(Without(deposit, Some(i)))
    ensures Materials(Without(deposit, Some(i))) <= Materials(deposit)
    ensures deposit[i].key.material !in Materials(Without(deposit, Some(i)))
  {
    var rest := Without(deposit, Some(i));
    forall j | 0 <= j < |rest| ensures rest[j] == deposit[if j < i then j else j + 1] {
    }
  }

  /** What a run keeps of one-time keys: those on hand are distinct, were made,
      and none of them has been used. */
  ghost predicate Stocked(s: Store, pq: bool, used: seq<nat>, made: set<nat>) {
    && Distinct(DepositOf(s, pq)) && Materials(DepositOf(s, pq)) <= made
    && (forall m | m in used :: m in made && m !in Materials(DepositOf(s, pq)))
    && forall i, j | 0 <= i < j < |used| :: used[i] != used[j]
  }

  lemma {:induction false} StepStocked(s: Store, op: Op, pq: bool, used: seq<nat>, made: set<nat>)
    requires Stocked(s, pq, used, made)
    requires forall k | k in MadeBy(s, op, pq) :: k.material !in made
    requires forall i, j | 0 <= i < j < |MadeBy(s, op, pq)| :: MadeBy(s, op, pq)[i].material != MadeBy(s, op, pq)[j].material
    ensures var u := UsedBy(s, op, pq);
            Stocked(Step(s, op), pq, used + (if u.Some? then [u.value] else []),
                    made + set k | k in MadeBy(s, op, pq) :: k.material)
  {
    var deposit := DepositOf(s, pq);
    match op
    case Receive(from, body, now, crypto, room) => ReceiveStocked(s, op, pq, used, made);
    case PublishKeys(now, keys) =>
      TopUpDistinct(deposit, if pq then PQ_ONE_TIME_TARGET else ONE_TIME_TARGET, now, MadeBy(s, op, pq));
    case Status(report, now, keys) =>
      var noted := DepositOf(Noted(s, report, now), pq);
      ConsumedDistinct(deposit, if pq then report.pqConsumed else report.consumed, now);
      if RunsLow(report) && MayTopUp(s.topUps, now) {
        TopUpDistinct(noted, if pq then PQ_ONE_TIME_TARGET else ONE_TIME_TARGET, now, MadeBy(s, op, pq));
      }
    case _ =>
  }

  lemma {:induction false} ReceiveStocked(s: Store, op: Op, pq: bool, used: seq<nat>, made: set<nat>)
    requires op.Receive? && Stocked(s, pq, used, made)
    ensures var u := UsedBy(s, op, pq);
            Stocked(Step(s, op), pq, used + (if u.Some? then [u.value] else []), made)
  {
    var u := UsedBy(s, op, pq);
    assert used + [] == used;
    if Decrypt(s, op.from, op.body, op.now, op.crypto, op.room).result == Ok(true) {
      var named := FindNamed(s, op.body.init.value).value;
      var i := if pq then named.pqOneTime else named.oneTime;
      assert DepositOf(Step(s, op), pq) == Without(DepositOf(s, pq), i);
      if u.Some? {
        UseOne(s, Step(s, op), pq, i.value, used, made);
      }
    }
  }

  lemma {:induction false} UseOne(s: Store, n: Store, pq: bool, i: nat, used: seq<nat>, made: set<nat>)
    requires Stocked(s, pq, used, made) && i < |DepositOf(s, pq)|
    requires DepositOf(n, pq) == Without(DepositOf(s, pq), Some(i))
    ensures Stocked(n, pq, used + [DepositOf(s, pq)[i].key.material], made)
  {
    var deposit := DepositOf(s, pq);
    WithoutDistinct(deposit, i);
    assert deposit[i] in deposit;
    assert deposit[i].key.material in Materials(deposit);
    assert forall m | m in used :: m != deposit[i].key.material;
    assert forall k | 0 <= k < |used| :: used[k] in used;
  }

  /** A one-time key starts at most one session in any run. */
  lemma {:induction false} OneTimeKeyUsedOnce(me: Peer, ops: seq<Op>, pq: bool)
    requires AllNew(me, ops, pq)
    ensures Stocked(After(me, ops), pq, UsedIn(me, ops, pq), MadeIn(me, ops, pq))
    ensures forall i, j | 0 <= i < j < |UsedIn(me, ops, pq)| :: UsedIn(me, ops, pq)[i] != UsedIn(me, ops, pq)[j]
  {
    if ops != [] {
      var before, op := ops[..|ops| - 1], ops[|ops| - 1];
      forall n | 0 <= n < |before| ensures NewAt(me, before, pq, n) {
        assert NewAt(me, ops, pq, n) && before[..n] == ops[..n] && before[n] == ops[n];
      }
      OneTimeKeyUsedOnce(me, before, pq);
      assert NewAt(me, ops, pq, |ops| - 1);
      StepStocked(After(me, before), op, pq, UsedIn(me, before, pq), MadeIn(me, before, pq));
    }
  }

  // --- how many keys are on deposit ------------------------------------------------------------------

  lemma {:induction false} CountConcat(a: seq<Deposited>, b: seq<Deposited>)
    ensures CountOnDeposit(a + b) == CountOnDeposit(a) + CountOnDeposit(b)
    decreases |b|
  {
    if b == [] {
      assert a + b == a;
    } else {
      assert (a + b)[..|a + b| - 1] == a + b[..|b| - 1];
      CountConcat(a, b[..|b| - 1]);
    }
  }

  lemma {:induction false} CountAll(deposit: seq<Deposited>)
    requires forall d | d in deposit :: OnDeposit(d)
    ensures CountOnDeposit(deposit) == |deposit|
  {
    if deposit != [] {
      assert deposit[|deposit| - 1] in deposit;
      assert forall d | d in deposit[..|deposit| - 1] :: d in deposit;
      CountAll(deposit[..|deposit| - 1]);
    }
  }

  lemma {:induction false} CountSince(deposit: seq<Deposited>, since: int)
    ensures CountOnDeposit(HandedOutSince(deposit, since)) == CountOnDeposit(deposit)
  {
    if deposit != [] {
      var init, last := deposit[..|deposit| - 1], deposit[|deposit| - 1];
      CountSince(init, since);
      CountConcat(HandedOutSince(init, since), [last]);
      assert [last][..0] == [];
    }
  }

  /** Topping up forgets no key still on deposit, and fills the deposit exactly
      to its target where it was below. */
  lemma {:induction false} DepositFilled(deposit: seq<Deposited>, target: nat, now: Time, made: seq<Prekey>)
    requires Fills(deposit, target, now, made)
    ensures var was := CountOnDeposit(deposit);
            CountOnDeposit(TopUp(deposit, target, now, made)) == if was < target then target else was
  {
    var since := now - ONE_TIME_RETENTION + 1;
    var recent := HandedOutSince(deposit, since);
    CountSince(deposit, since);
    var times := HandedOutTimes(recent);
    if |times| > MAX_HANDED_OUT_KEPT {
      CountSince(recent, Cutoff(times, MAX_HANDED_OUT_KEPT));
    }
    var more := seq(|made|, i requires 0 <= i < |made| => Deposited(made[i], None));
    CountAll(more);
    CountConcat(ForgetStale(deposit, now), more);
  }

  // --- what a publish sends ---------------------------------------------------------------------------

  lemma {:induction false} KeysOnDepositAre(deposit: seq<Deposited>)
    ensures |KeysOnDeposit(deposit)| == CountOnDeposit(deposit)
    ensures forall k :: k in KeysOnDeposit(deposit) <==> exists d :: d in deposit && OnDeposit(d) && d.key == k
  {
    if deposit != [] {
      var before, last := deposit[..|deposit| - 1], deposit[|deposit| - 1];
      KeysOnDepositAre(before);
      assert deposit == before + [last];
      assert forall d :: d in deposit <==> d in before || d == last;
    }
  }

  lemma {:induction false} KeysDistinct(deposit: seq<Deposited>)
    requires Distinct(deposit)
    ensures var keys := KeysOnDeposit(deposit);
            forall i, j | 0 <= i < j < |keys| :: keys[i].material != keys[j].material
  {
    if deposit != [] {
      var before, last := deposit[..|deposit| - 1], deposit[|deposit| - 1];
      KeysDistinct(before);
      KeysOnDepositAre(before);
      var keys := KeysOnDeposit(before);
      forall i | 0 <= i < |keys| ensures keys[i].material != last.key.material {
        assert keys[i] in keys;
        var d :| d in before && OnDeposit(d) && d.key == keys[i];
      }
    }
  }

  /** A handshake from what was just published names only keys held, and its signed
      keys are not due for rotation. */
  lemma {:induction false} PublishedOpens(s: Store, now: Time, made: Made, init: Init)
    requires Supplies(s, now, made)
    ensures var n := Publish(s, now, made);
            && n.signed != [] && n.pqSigned != []
            && (var p := PublicPrekeys(n);
                && Since(now, p.signed.createdAt) < SIGNED_PREKEY_ROTATION
                && Since(now, p.pqSigned.value.createdAt) < SIGNED_PREKEY_ROTATION
                && |p.oneTime| >= ONE_TIME_TARGET && |p.pqOneTime| >= PQ_ONE_TIME_TARGET
                && (Offered(p, init) ==> HoldsNamed(n, init)))
  {
    var n := Publish(s, now, made);
    var p := PublicPrekeys(n);
    KeysOnDepositAre(n.oneTime);
    KeysOnDepositAre(n.pqOneTime);
    DepositFilled(s.oneTime, ONE_TIME_TARGET, now, made.oneTime);
    DepositFilled(s.pqOneTime, PQ_ONE_TIME_TARGET, now, made.pqOneTime);
    assert p.signed in n.signed && p.pqSigned.value in n.pqSigned;
  }

  /** A handshake started from a published bundle. */
  predicate Offered(p: Published, init: Init) {
    && init.signedId == p.signed.id
    && (init.oneTimeId.Some? ==> exists k | k in p.oneTime :: k.id == init.oneTimeId.value)
    && (init.pqId.Some? ==>
          || (exists k | k in p.pqOneTime :: k.id == init.pqId.value)
          || (p.pqSigned.Some? && p.pqSigned.value.id == init.pqId.value))
  }

  /** Whenever keys are published, the one-time keys among them are distinct, and none
      has started a session. */
  lemma {:induction false} PublishedUnused(me: Peer, ops: seq<Op>, now: Time, made: Made, pq: bool)
    requires AllNew(me, ops + [PublishKeys(now, made)], pq)
    ensures var n := After(me, ops + [PublishKeys(now, made)]);
            && n.signed != []
            && (var keys := if pq then PublicPrekeys(n).pqOneTime else PublicPrekeys(n).oneTime;
                && (forall k | k in keys :: k.material !in UsedIn(me, ops, pq))
                && forall i, j | 0 <= i < j < |keys| :: keys[i].material != keys[j].material)
  {
    var op := PublishKeys(now, made);
    var all := ops + [op];
    assert all[..|ops|] == ops;
    OneTimeKeyUsedOnce(me, all, pq);
    assert UsedIn(me, all, pq) == UsedIn(me, ops, pq);
    var n := After(me, all);
    assert n == Publish(After(me, ops), now, made);
    KeysOnDepositAre(DepositOf(n, pq));
    KeysDistinct(DepositOf(n, pq));
  }

  // --- how often a deposit is made ----------------------------------------------------------------

  /** The deposits granted to a run of requests, and the times kept of them. */
  function Granted(asked: seq<Time>): seq<Time> {
    if asked == [] then []
    else
      var init, now := asked[..|asked| - 1], asked[|asked| - 1];
      Granted(init) + if MayTopUp(KeptTimes(init), now) then [now] else []
  }

  function KeptTimes(asked: seq<Time>): seq<Time> {
    if asked == [] then [] else AfterAsking(KeptTimes(asked[..|asked| - 1]), asked[|asked| - 1])
  }

  predicate Monotone(times: seq<Time>) {
    forall i, j | 0 <= i < j < |times| :: times[i] <= times[j]
  }

  lemma {:induction false} LastHourTwice(times: seq<Time>, earlier: Time, now: Time)
    requires earlier <= now && forall t | t in times :: t <= earlier
    ensures LastHour(LastHour(times, earlier), now) == LastHour(times, now)
  {
    if times != [] {
      var init, last := times[..|times| - 1], times[|times| - 1];
      assert last in times && forall t | t in init :: t in times;
      LastHourTwice(init, earlier, now);
      LastHourSnoc(LastHour(init, earlier), last, now);
    }
  }

  lemma {:induction false} LastHourSnoc(times: seq<Time>, t: Time, now: Time)
    ensures LastHour(times + [t], now) ==
            if Since(now, t) < HOUR && t <= now then LastHour(times, now) + [t] else LastHour(times, now)
  {
    assert (times + [t])[..|times|] == times;
  }

  lemma {:induction false} GrantedMonotone(asked: seq<Time>)
    requires Monotone(asked) && asked != []
    ensures Monotone(Granted(asked)) && forall t | t in Granted(asked) :: t <= asked[|asked| - 1]
    decreases |asked|
  {
    var init, now := asked[..|asked| - 1], asked[|asked| - 1];
    if init != [] {
      GrantedMonotone(init);
      assert init[|init| - 1] == asked[|asked| - 2] <= now;
    }
    MonotoneSnoc(Granted(init), now);
  }

  /** What is kept of the grants is those of the last hour. */
  lemma {:induction false} KeptAreGranted(asked: seq<Time>)
    requires Monotone(asked) && asked != []
    ensures KeptTimes(asked) == LastHour(Granted(asked), asked[|asked| - 1])
    decreases |asked|
  {
    var init, now := asked[..|asked| - 1], asked[|asked| - 1];
    var kept, granted := KeptTimes(init), Granted(init);
    if init != [] {
      KeptAreGranted(init);
      GrantedMonotone(init);
      assert init[|init| - 1] == asked[|asked| - 2] <= now;
      LastHourTwice(granted, init[|init| - 1], now);
    }
    assert LastHour(kept, now) == LastHour(granted, now);
    if MayTopUp(kept, now) {
      assert Granted(asked) == granted + [now];
      LastHourSnoc(granted, now, now);
    } else {
      assert Granted(asked) == granted;
    }
  }

  lemma {:induction false} RecentCount(times: seq<Time>, now: Time, k: nat)
    requires Monotone(times) && k < |times| && Since(now, times[k]) < HOUR && forall t | t in times :: t <= now
    ensures |LastHour(times, now)| >= |times| - k
    decreases |times|
  {
    var init := times[..|times| - 1];
    assert forall t | t in init :: t in times;
    assert times[|times| - 1] in times;
    if k < |init| {
      RecentCount(init, now, k);
    }
  }

  /** However often the relay says the deposit is empty, no seven grants fall
      within an hour. */
  lemma {:induction false} SixAnHour(asked: seq<Time>, i: nat)
    requires Monotone(asked) && i + TOP_UPS_PER_HOUR < |Granted(asked)|
    ensures Granted(asked)[i + TOP_UPS_PER_HOUR] - Granted(asked)[i] >= HOUR
    decreases |asked|
  {
    var init, now := asked[..|asked| - 1], asked[|asked| - 1];
    if i + TOP_UPS_PER_HOUR < |Granted(init)| {
      SixAnHour(init, i);
    } else {
      KeptAreGranted(init);
      GrantedMonotone(init);
      assert init[|init| - 1] == asked[|asked| - 2] <= now;
      LastHourTwice(Granted(init), init[|init| - 1], now);
      SeventhGrant(Granted(init), now, i);
    }
  }

  lemma {:induction false} SeventhGrant(granted: seq<Time>, now: Time, i: nat)
    requires Monotone(granted) && (forall t | t in granted :: t <= now) && |LastHour(granted, now)| < TOP_UPS_PER_HOUR
    requires i + TOP_UPS_PER_HOUR == |granted|
    ensures now - granted[i] >= HOUR
  {
    assert granted[i] in granted;
    if Since(now, granted[i]) < HOUR {
      RecentCount(granted, now, i);
    }
  }

  // --- how many handed-out keys are kept --------------------------------------------------------------

  function AtLeast(times: seq<Time>, cutoff: Time): nat {
    if times == [] then 0
    else AtLeast(times[..|times| - 1], cutoff) + if times[|times| - 1] >= cutoff then 1 else 0
  }

  lemma {:induction false} InsertedAtLeast(t: Time, sorted: seq<Time>, cutoff: Time)
    ensures AtLeast(InsertTime(t, sorted), cutoff) == AtLeast(sorted, cutoff) + if t >= cutoff then 1 else 0
  {
    if sorted == [] || sorted[|sorted| - 1] <= t {
      assert (sorted + [t])[..|sorted|] == sorted;
    } else {
      var init, last := sorted[..|sorted| - 1], sorted[|sorted| - 1];
      InsertedAtLeast(t, init, cutoff);
      var r := InsertTime(t, init) + [last];
      assert r[..|r| - 1] == InsertTime(t, init);
    }
  }

  lemma {:induction false} InsertedSorted(t: Time, sorted: seq<Time>)
    requires Monotone(sorted)
    ensures Monotone(InsertTime(t, sorted))
    ensures forall x | x in InsertTime(t, sorted) :: x in sorted || x == t
  {
    if sorted != [] && sorted[|sorted| - 1] > t {
      var init, last := sorted[..|sorted| - 1], sorted[|sorted| - 1];
      InsertedSorted(t, init);
      assert sorted == init + [last];
      assert forall i | 0 <= i < |init| :: init[i] <= last;
      MonotoneSnoc(InsertTime(t, init), last);
    }
  }

  lemma {:induction false} MonotoneSnoc(times: seq<Time>, t: Time)
    requires Monotone(times) && forall x | x in times :: x <= t
    ensures Monotone(times + [t])
  {
    var all := times + [t];
    forall i, j | 0 <= i < j < |all| ensures all[i] <= all[j] {
      assert all[i] == times[i] && times[i] in times;
    }
  }

  lemma {:induction false} SortIs(times: seq<Time>, cutoff: Time)
    ensures Monotone(SortTimes(times)) && AtLeast(SortTimes(times), cutoff) == AtLeast(times, cutoff)
  {
    if times != [] {
      SortIs(times[..|times| - 1], cutoff);
      InsertedSorted(times[|times| - 1], SortTimes(times[..|times| - 1]));
      InsertedAtLeast(times[|times| - 1], SortTimes(times[..|times| - 1]), cutoff);
    }
  }

  lemma {:induction false} AtLeastFrom(sorted: seq<Time>, k: nat, cutoff: Time)
    requires Monotone(sorted) && k <= |sorted|
    requires k < |sorted| ==> sorted[k] >= cutoff
    ensures AtLeast(sorted, cutoff) >= |sorted| - k
    ensures (k > 0 ==> sorted[k - 1] < cutoff) ==> AtLeast(sorted, cutoff) == |sorted| - k
    decreases |sorted|
  {
    if sorted != [] {
      var init := sorted[..|sorted| - 1];
      if k == |sorted| {
        if sorted[k - 1] < cutoff {
          AtLeastFrom(init, k - 1, cutoff);
        }
      } else {
        AtLeastFrom(init, k, cutoff);
      }
    }
  }

  lemma {:induction false} HandedOutKept(deposit: seq<Deposited>, cutoff: Time)
    ensures |HandedOutTimes(HandedOutSince(deposit, cutoff))| == AtLeast(HandedOutTimes(deposit), cutoff)
  {
    if deposit != [] {
      var init, last := deposit[..|deposit| - 1], deposit[|deposit| - 1];
      HandedOutKept(init, cutoff);
      if last.handedOutAt.None? || last.handedOutAt.value >= cutoff {
        var kept := HandedOutSince(init, cutoff);
        assert (kept + [last])[..|kept|] == kept;
      }
      if last.handedOutAt.Some? {
        var times := HandedOutTimes(init);
        assert (times + [last.handedOutAt.value])[..|times|] == times;
      }
    }
  }

  lemma {:induction false} SortedCutoff(sorted: seq<Time>, k: nat)
    requires Monotone(sorted) && k < |sorted|
    ensures AtLeast(sorted, sorted[k]) >= |sorted| - k
    ensures AtLeast(sorted, sorted[k] + 1) < |sorted| - k
  {
    AtLeastFrom(sorted, k, sorted[k]);
    NewerThan(sorted, k);
  }

  lemma {:induction false} NewerThan(sorted: seq<Time>, k: nat)
    requires Monotone(sorted) && k < |sorted|
    ensures AtLeast(sorted, sorted[k] + 1) < |sorted| - k
    decreases |sorted|
  {
    var init := sorted[..|sorted| - 1];
    if k < |init| {
      NewerThan(init, k);
    } else {
      NoneNewer(init, sorted[k]);
    }
  }

  lemma {:induction false} NoneNewer(times: seq<Time>, t: Time)
    requires forall i | 0 <= i < |times| :: times[i] <= t
    ensures AtLeast(times, t + 1) == 0
  {
    if times != [] {
      NoneNewer(times[..|times| - 1], t);
    }
  }

  /** The time of the newest key the cap leaves out. */
  function FirstOut(times: seq<Time>, cap: nat): Time
    requires cap < |times|
  {
    SortTimes(times)[|times| - cap - 1]
  }

  lemma {:induction false} SortedTimes(times: seq<Time>, k: nat) returns (sorted: seq<Time>, c: Time)
    requires k < |times|
    ensures |sorted| == |times| && Monotone(sorted) && c == sorted[k]
    ensures AtLeast(sorted, c) == AtLeast(times, c) && AtLeast(sorted, c + 1) == AtLeast(times, c + 1)
    ensures c == Cutoff(times, |times| - k)
    ensures k > 0 ==> sorted[k - 1] == FirstOut(times, |times| - k)
  {
    sorted := SortTimes(times);
    c := sorted[k];
    SortIs(times, c);
    SortIs(times, c + 1);
  }

  lemma {:induction false} CutoffIs(times: seq<Time>, cap: nat)
    requires 0 < cap <= |times|
    ensures AtLeast(times, Cutoff(times, cap)) >= cap > AtLeast(times, Cutoff(times, cap) + 1)
  {
    var sorted, c := SortedTimes(times, |times| - cap);
    assert AtLeast(times, c) >= cap > AtLeast(times, c + 1) by {
      SortedCutoff(sorted, |times| - cap);
    }
  }

  lemma {:induction false} TiesAtCutoff(sorted: seq<Time>, k: nat)
    requires Monotone(sorted) && 0 < k < |sorted|
    ensures AtLeast(sorted, sorted[k]) > |sorted| - k <==> sorted[k - 1] == sorted[k]
  {
    AtLeastFrom(sorted, k, sorted[k]);
    if sorted[k - 1] == sorted[k] {
      AtLeastFrom(sorted, k - 1, sorted[k]);
    }
  }

  lemma {:induction false} TiesKept(times: seq<Time>, cap: nat)
    requires 0 < cap < |times|
    ensures AtLeast(times, Cutoff(times, cap)) > cap <==> FirstOut(times, cap) == Cutoff(times, cap)
  {
    var sorted, c := SortedTimes(times, |times| - cap);
    TiesAtCutoff(sorted, |times| - cap);
  }

  lemma {:induction false} CappedCount(deposit: seq<Deposited>, cap: nat)
    requires 0 < cap
    ensures var times := HandedOutTimes(deposit);
            |HandedOutTimes(Capped(deposit, cap))| ==
            if |times| > cap then AtLeast(times, Cutoff(times, cap)) else |times|
  {
    var times := HandedOutTimes(deposit);
    if |times| > cap {
      HandedOutKept(deposit, Cutoff(times, cap));
    }
  }

  /** The cap on handed-out keys is exceeded if and only if there are more and the
      newest it should leave out was handed out in the same millisecond as the
      last it keeps; never are fewer kept than the cap or all there are. */
  lemma {:induction false} HandedOutCapIff(deposit: seq<Deposited>, cap: nat)
    requires 0 < cap
    ensures var times := HandedOutTimes(deposit);
            var kept := |HandedOutTimes(Capped(deposit, cap))|;
            && (kept > cap <==> |times| > cap && FirstOut(times, cap) == Cutoff(times, cap))
            && (if |times| > cap then kept >= cap else kept == |times|)
  {
    var times := HandedOutTimes(deposit);
    CappedCount(deposit, cap);
    if |times| > cap {
      CutoffIs(times, cap);
      TiesKept(times, cap);
    }
  }

  /** Keys reported handed out together tie, so one report can exceed any cap. */
  lemma {:induction false} TogetherAllKept(deposit: seq<Deposited>, cap: nat, t: Time)
    requires 0 < cap && forall x | x in HandedOutTimes(deposit) :: x == t
    ensures |HandedOutTimes(Capped(deposit, cap))| == |HandedOutTimes(deposit)|
  {
    var times := HandedOutTimes(deposit);
    CappedCount(deposit, cap);
    if |times| > cap {
      CutoffIs(times, cap);
      AllTogether(times, t, Cutoff(times, cap));
    }
  }

  lemma {:induction false} AllTogether(times: seq<Time>, t: Time, cutoff: Time)
    requires forall x | x in times :: x == t
    ensures AtLeast(times, cutoff) == if cutoff <= t then |times| else 0
  {
    if times != [] {
      var init, last := times[..|times| - 1], times[|times| - 1];
      assert times == init + [last];
      assert last in times && forall x | x in init :: x in times;
      AllTogether(init, t, cutoff);
    }
  }
}
