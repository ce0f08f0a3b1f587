/**
 The replay window over a whole conversation, epochs and all (`sequence.rs`):
 when a message accepted at any time before would be shown a second time.

 The code keeps the current epoch and where the one before it ended. A sender
 seen in a third epoch, or back in the second one close above where it ended,
 has an epoch the code no longer remembers in full.
 */
module ReplayEpochs {
  import opened Wrappers
  import opened ReplayWindow

  /** `s` is numbered and shown, so `Note` records it. */
  predicate Accepts(seen: Option<Seen>, s: Sequence) {
    Check(seen, s).Shown() && s.number != 0
  }

  /** Every message a run accepted, from its start, whatever its epoch. */
  function Ever(ss: seq<Sequence>): set<Sequence> {
    if ss == [] then {}
    else
      var init, s := ss[..|ss| - 1], ss[|ss| - 1];
      Ever(init) + if Accepts(Run(FRESH_TRACK, init).seen, s) then {s} else {}
  }

  /** None of them would be shown again. */
  ghost predicate RefusesAll(seen: Option<Seen>, ever: set<Sequence>) {
    forall s | s in ever :: !Check(seen, s).Shown()
  }

  /** A move to another epoch that lets go of one remembered in `previous`: to a
      third epoch, or back to it at most a window above where it ended. */
  predicate LeavesEpoch(seen: Option<Seen>, s: Sequence) {
    && Accepts(seen, s) && seen.Some? && seen.value.last.epoch != s.epoch && seen.value.previous.Some?
    && var p := seen.value.previous.value;
       !(s.epoch == p.epoch && (s.number - p.number > WINDOW || s.number == U64_MAX))
  }

  predicate Forgets(t: Track, s: Sequence) {
    Jump64(t, s) || LeavesEpoch(t.seen, s)
  }

  // --- what a run that never forgets keeps ---------------------------------------------

  /** A number of the current epoch the window need not hold: it is too far down
      to be looked for, or nothing is looked for any more. */
  predicate OutOfReach(last: Sequence, n: U64) {
    n < last.number && (last.number < U64_MAX ==> last.number - n > WINDOW)
  }

  predicate Remembered(t: Track, s: Sequence)
    requires t.seen.Some?
  {
    var sn := t.seen.value;
    if s.epoch == sn.last.epoch then s.number in t.accepted || OutOfReach(sn.last, s.number)
    else Closed(sn, s)
  }

  ghost predicate Remembers(t: Track, ever: set<Sequence>) {
    && Agrees(t)
    && (t.seen.None? ==> ever == {})
    && (t.seen.Some? ==>
          var sn := t.seen.value;
          && sn.last in ever
          && (sn.previous.Some? ==> sn.previous.value in ever && sn.previous.value.epoch != sn.last.epoch)
          && forall s | s in ever :: s.number >= 1 && Remembered(t, s))
  }

  function EverAfter(t: Track, ever: set<Sequence>, s: Sequence): set<Sequence> {
    ever + if Accepts(t.seen, s) then {s} else {}
  }

  lemma {:induction false} RemembersRefuses(t: Track, ever: set<Sequence>)
    requires Remembers(t, ever)
    ensures RefusesAll(t.seen, ever)
  {
    forall s | s in ever ensures !Check(t.seen, s).Shown() {
      assert Remembered(t, s);
      AgreesClassifies(t, s);
    }
  }

  /** Within an epoch. */
  lemma {:induction false} StayRemembers(t: Track, ever: set<Sequence>, s: Sequence)
    requires Remembers(t, ever) && Accepts(t.seen, s) && !Jump64(t, s)
    requires t.seen.Some? && t.seen.value.last.epoch == s.epoch
    ensures Remembers(Deliver(t, s), EverAfter(t, ever, s))
  {
    var u := Deliver(t, s);
    DeliverAgrees(t, s);
    forall x | x in EverAfter(t, ever, s) ensures x.number >= 1 && Remembered(u, x) {
      if x != s {
        assert Remembered(t, x);
      }
    }
  }

  /** A move that keeps the two epochs the code can keep. */
  lemma {:induction false} MoveRemembers(t: Track, ever: set<Sequence>, s: Sequence)
    requires Remembers(t, ever) && Accepts(t.seen, s) && !LeavesEpoch(t.seen, s)
    requires t.seen.None? || t.seen.value.last.epoch != s.epoch
    ensures Remembers(Deliver(t, s), EverAfter(t, ever, s))
  {
    var u := Deliver(t, s);
    DeliverAgrees(t, s);
    forall x | x in EverAfter(t, ever, s) ensures x.number >= 1 && Remembered(u, x) {
      if x != s {
        assert Remembered(t, x);
      }
    }
  }

  /** And one that does not: where the epoch let go of ended is shown again. */
  lemma {:induction false} LeavingShows(t: Track, ever: set<Sequence>, s: Sequence)
    requires Remembers(t, ever) && LeavesEpoch(t.seen, s)
    ensures var p := t.seen.value.previous.value;
            p in EverAfter(t, ever, s) && Check(Deliver(t, s).seen, p).Shown()
  {
    var p := t.seen.value.previous.value;
    var u := Deliver(t, s);
    assert u.seen == Some(Seen(s, Zero(), Some(t.seen.value.last)));
    if s.epoch == p.epoch {
      TestBit(Zero(), s.number - p.number - 1);
    }
  }

  lemma {:induction false} JumpShows(t: Track, ever: set<Sequence>, s: Sequence)
    requires Remembers(t, ever) && Jump64(t, s)
    ensures t.seen.value.last in EverAfter(t, ever, s) && Check(Deliver(t, s).seen, t.seen.value.last).Shown()
  {
    var last := t.seen.value.last;
    assert Check(t.seen, s) == Gap(63);
    assert Deliver(t, s).seen.value.window == Zero();
    TestBit(Zero(), 63);
  }

  /** One message keeps everything remembered if and only if it does not forget. */
  lemma {:induction false} DeliverRemembers(t: Track, ever: set<Sequence>, s: Sequence)
    requires Remembers(t, ever)
    ensures !Forgets(t, s) ==> Remembers(Deliver(t, s), EverAfter(t, ever, s))
    ensures Forgets(t, s) ==> !RefusesAll(Deliver(t, s).seen, EverAfter(t, ever, s))
  {
    if Jump64(t, s) {
      JumpShows(t, ever, s);
    } else if LeavesEpoch(t.seen, s) {
      LeavingShows(t, ever, s);
    } else if Accepts(t.seen, s) {
      if t.seen.Some? && t.seen.value.last.epoch == s.epoch {
        StayRemembers(t, ever, s);
      } else {
        MoveRemembers(t, ever, s);
      }
    } else {
      assert ever + {} == ever;
    }
  }

  // --- whole runs ---------------------------------------------------------------------------

  /** Step `k` of a run forgets. */
  predicate ForgetsAt(ss: seq<Sequence>, k: nat)
    requires k < |ss|
  {
    Forgets(Run(FRESH_TRACK, ss[..k]), ss[k])
  }

  predicate NeverForgets(ss: seq<Sequence>) {
    forall k | 0 <= k < |ss| :: !ForgetsAt(ss, k)
  }

  lemma {:induction false} ForgetsAtPrefix(ss: seq<Sequence>, n: nat, k: nat)
    requires k < n <= |ss|
    ensures ForgetsAt(ss[..n], k) == ForgetsAt(ss, k)
  {
    assert ss[..n][..k] == ss[..k];
  }

  lemma {:induction false} PrefixNeverForgets(ss: seq<Sequence>, n: nat)
    requires n <= |ss| && NeverForgets(ss)
    ensures NeverForgets(ss[..n])
  {
    forall k | 0 <= k < n ensures !ForgetsAt(ss[..n], k) {
      ForgetsAtPrefix(ss, n, k);
    }
  }

  lemma {:induction false} RunRemembers(ss: seq<Sequence>)
    requires NeverForgets(ss)
    ensures Remembers(Run(FRESH_TRACK, ss), Ever(ss))
  {
    if ss != [] {
      PrefixNeverForgets(ss, |ss| - 1);
      assert !ForgetsAt(ss, |ss| - 1);
      RunRemembers(ss[..|ss| - 1]);
      DeliverRemembers(Run(FRESH_TRACK, ss[..|ss| - 1]), Ever(ss[..|ss| - 1]), ss[|ss| - 1]);
    }
  }

  ghost predicate AlwaysRefuses(ss: seq<Sequence>) {
    forall k | 0 <= k <= |ss| :: RefusesAll(Run(FRESH_TRACK, ss[..k]).seen, Ever(ss[..k]))
  }

  /** Over every run: a message accepted at any time, in any epoch, is never shown
      again, at any point after, if and only if no step of the run jumps by
      exactly 64 or lets go of an epoch. */
  lemma {:induction false} NeverShownTwiceIff(ss: seq<Sequence>)
    ensures AlwaysRefuses(ss) <==> NeverForgets(ss)
  {
    if NeverForgets(ss) {
      forall k | 0 <= k <= |ss| ensures RefusesAll(Run(FRESH_TRACK, ss[..k]).seen, Ever(ss[..k])) {
        PrefixNeverForgets(ss, k);
        RunRemembers(ss[..k]);
        RemembersRefuses(Run(FRESH_TRACK, ss[..k]), Ever(ss[..k]));
      }
    } else {
      var k := FirstForgotten(ss);
      RunRemembers(ss[..k]);
      DeliverRemembers(Run(FRESH_TRACK, ss[..k]), Ever(ss[..k]), ss[k]);
      assert ss[..k + 1][..k] == ss[..k];
      assert !RefusesAll(Run(FRESH_TRACK, ss[..k + 1]).seen, Ever(ss[..k + 1]));
    }
  }

  lemma {:induction false} FirstForgotten(ss: seq<Sequence>) returns (k: nat)
    requires !NeverForgets(ss)
    ensures k < |ss| && ForgetsAt(ss, k) && NeverForgets(ss[..k])
  {
    k := 0;
    while !ForgetsAt(ss, k)
      invariant k < |ss| && forall j | 0 <= j < k :: !ForgetsAt(ss, j)
      decreases |ss| - k
    {
      k := k + 1;
    }
    forall j | 0 <= j < k ensures !ForgetsAt(ss[..k], j) {
      ForgetsAtPrefix(ss, k, j);
    }
  }

  // --- it happens --------------------------------------------------------------------------

  lemma {:induction false} TwoEpochs(a: U64, b: U64)
    requires a != b
    ensures var ss := [Sequence(a, 1), Sequence(b, 1)];
            Run(FRESH_TRACK, ss) == Track(Some(Seen(Sequence(b, 1), Zero(), Some(Sequence(a, 1)))), {1})
  {
    var one, ss := [Sequence(a, 1)], [Sequence(a, 1), Sequence(b, 1)];
    assert one[..0] == [] && ss[..1] == one;
    assert Run(FRESH_TRACK, one) == Track(Some(Seen(Sequence(a, 1), Zero(), None)), {1});
  }

  /** Back in an epoch just past where it ended: what it ended with is shown again. */
  lemma {:induction false} ReturnShowsTwice(a: U64, b: U64)
    requires a != b
    ensures var ss := [Sequence(a, 1), Sequence(b, 1), Sequence(a, 2)];
            NoJump(ss) && Check(Run(FRESH_TRACK, ss).seen, Sequence(a, 1)) == Late
  {
    var ss := [Sequence(a, 1), Sequence(b, 1), Sequence(a, 2)];
    var two := [Sequence(a, 1), Sequence(b, 1)];
    TwoEpochs(a, b);
    assert ss[..2] == two && ss[..1] == [Sequence(a, 1)] && two[..1] == ss[..1] && ss[..0] == [] && ss[..1][..0] == [];
    assert Run(FRESH_TRACK, ss) == Deliver(Run(FRESH_TRACK, two), ss[2]);
    TestBit(Zero(), 0);
    assert Run(FRESH_TRACK, ss[..1]) == Track(Some(Seen(Sequence(a, 1), Zero(), None)), {1});
  }

  /** In a third epoch: the whole of the first one is shown again. */
  lemma {:induction false} ThirdEpochShowsTwice(a: U64, b: U64, c: U64)
    requires a != b && b != c && a != c
    ensures var ss := [Sequence(a, 1), Sequence(b, 1), Sequence(c, 1)];
            NoJump(ss) && Check(Run(FRESH_TRACK, ss).seen, Sequence(a, 1)) == NewEpoch
  {
    var ss := [Sequence(a, 1), Sequence(b, 1), Sequence(c, 1)];
    var two := [Sequence(a, 1), Sequence(b, 1)];
    TwoEpochs(a, b);
    assert ss[..2] == two && ss[..1] == [Sequence(a, 1)] && two[..1] == ss[..1] && ss[..0] == [] && ss[..1][..0] == [];
    assert Run(FRESH_TRACK, ss) == Deliver(Run(FRESH_TRACK, two), ss[2]);
    assert Run(FRESH_TRACK, ss[..1]) == Track(Some(Seen(Sequence(a, 1), Zero(), None)), {1});
  }
}
