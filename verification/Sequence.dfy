/**
 The replay window of `sequence.rs`: what a client remembers of the numbers
 it accepted from one sender, and what an incoming number says about it.

 The code keeps the highest number and a 64-bit word of the ones below it.
 The reference it is measured against is the plain set of numbers accepted
 since the sender entered its current epoch. The two agree for as long as no
 accepted number is exactly 64 above the highest: there `Note` clears the
 word while `Check` still looks 64 places down.
 */
module ReplayWindow {
  import opened Wrappers

  const U64_MAX: int := 0xffff_ffff_ffff_ffff
  const WINDOW: int := 64

  type U64 = n: int | 0 <= n <= U64_MAX

  datatype Sequence = Sequence(epoch: U64, number: U64)

  /** A 64-bit word, as its bits from the lowest up. */
  type Word = w: seq<bool> | |w| == 64 witness seq(64, _ => false)

  function Zero(): Word {
    seq(64, _ => false)
  }

  /** `1 << k`. */
  function OneBit(k: nat): Word
    requires k < 64
  {
    seq(64, i => i == k)
  }

  /** `w << places`. */
  function Shl(w: Word, places: nat): Word
    requires places < 64
  {
    seq(64, i requires 0 <= i < 64 => places <= i && w[i - places])
  }

  /** `a | b`. */
  function Or(a: Word, b: Word): Word {
    seq(64, i requires 0 <= i < 64 => a[i] || b[i])
  }

  /** `a & b`. */
  function And(a: Word, b: Word): Word {
    seq(64, i requires 0 <= i < 64 => a[i] && b[i])
  }

  /** What has been accepted from one sender; bit `n` of the window is the
      number `last.number - 1 - n`. */
  datatype Seen = Seen(last: Sequence, window: Word, previous: Option<Sequence>)

  /** `Panic` is the overflow of `last.number + 1`, which the build profile
      turns into a crash rather than a wrap. */
  datatype Verdict = Fresh | Late | NewEpoch | Replay | Gap(missing: nat) | Legacy | Panic
  {
    predicate Shown() {
      !Replay? && !Panic?
    }
  }

  function Check(seen: Option<Seen>, incoming: Sequence): Verdict {
    if incoming.number == 0 then Legacy
    else if seen.None? then Fresh
    else
      var s := seen.value;
      if s.last.epoch != incoming.epoch then
        if s.previous.Some? && s.previous.value.epoch == incoming.epoch && incoming.number <= s.previous.value.number
        then Replay
        else NewEpoch
      else if incoming.number == s.last.number then Replay
      else if s.last.number == U64_MAX then Panic
      else if incoming.number > s.last.number + 1 then Gap(incoming.number - s.last.number - 1)
      else if incoming.number > s.last.number then Fresh
      else
        var behind := s.last.number - incoming.number;
        if behind <= WINDOW && And(s.window, OneBit(behind - 1)) == Zero() then Late else Replay
  }

  /** What `Note` leaves, bit by bit. */
  function Noted(seen: Option<Seen>, incoming: Sequence): Option<Seen> {
    if incoming.number == 0 then seen
    else if seen.None? then Some(Seen(incoming, Zero(), None))
    else
      var s := seen.value;
      if s.last.epoch != incoming.epoch then Some(Seen(incoming, Zero(), Some(s.last)))
      else if incoming.number > s.last.number then
        var step := incoming.number - s.last.number;
        Some(Seen(incoming, Slid(s.window, step), s.previous))
      else if incoming.number == s.last.number || s.last.number - incoming.number > WINDOW then seen
      else
        Some(s.(window := WithBit(s.window, s.last.number - incoming.number - 1)))
  }

  /** The window after the highest number rose by `step`: every remembered
      number is `step` places further down and the old highest joins them. */
  function Slid(w: Word, step: nat): Word
    requires step >= 1
  {
    if step >= WINDOW then Zero()
    else seq(64, i requires 0 <= i < 64 => i == step - 1 || (i >= step && w[i - step]))
  }

  function WithBit(w: Word, k: nat): Word
    requires k < 64
  {
    w[k := true]
  }

  /** The cell `note` writes through. */
  class Tracker {
    var seen: Option<Seen>

    constructor ()
      ensures seen == None
    {
      seen := None;
    }

    method Note(incoming: Sequence)
      modifies this
      ensures seen == Noted(old(seen), incoming)
    {
      if incoming.number == 0 {
        return;
      }
      if seen.None? {
        seen := Some(Seen(incoming, Zero(), None));
        return;
      }
      var state := seen.value;
      if state.last.epoch != incoming.epoch {
        seen := Some(Seen(incoming, Zero(), Some(state.last)));
        return;
      }
      if incoming.number > state.last.number {
        var step := incoming.number - state.last.number;
        var window := Zero();
        if step < WINDOW {
          window := Or(Shl(state.window, step), OneBit(step - 1));
          assert window == Slid(state.window, step);
        }
        seen := Some(Seen(incoming, window, state.previous));
        return;
      }
      var behind := state.last.number - incoming.number;
      if 1 <= behind <= WINDOW {
        seen := Some(state.(window := Or(state.window, OneBit(behind - 1))));
        assert seen.value.window == Noted(old(seen), incoming).value.window;
      }
    }
  }

  // --- the reference: the set of numbers accepted ---------------------------

  /** What the code holds, beside the set of numbers it accepted since the
      sender entered the epoch it is in. */
  datatype Track = Track(seen: Option<Seen>, accepted: set<U64>)

  const FRESH_TRACK := Track(None, {})

  /** One incoming message: classified, and recorded if it is shown. */
  function Deliver(t: Track, s: Sequence): Track {
    var v := Check(t.seen, s);
    if !v.Shown() || v.Legacy? then t
    else if t.seen.Some? && t.seen.value.last.epoch == s.epoch
    then Track(Noted(t.seen, s), t.accepted + {s.number})
    else Track(Noted(t.seen, s), {s.number})
  }

  function Run(t: Track, ss: seq<Sequence>): Track {
    if ss == [] then t else Deliver(Run(t, ss[..|ss| - 1]), ss[|ss| - 1])
  }

  /** Whether `s` lies in the epoch before, up to where that ended. */
  predicate Closed(sn: Seen, s: Sequence) {
    match sn.previous
    case None => false
    case Some(p) => p.epoch == s.epoch && s.number <= p.number
  }

  /** The classification read off the set instead of the window. */
  ghost function CheckBySet(t: Track, s: Sequence): Verdict {
    if s.number == 0 then Legacy
    else if t.seen.None? then Fresh
    else
      var sn := t.seen.value;
      if sn.last.epoch != s.epoch then
        if Closed(sn, s) then Replay else NewEpoch
      else if s.number == sn.last.number then Replay
      else if sn.last.number == U64_MAX then Panic
      else if s.number == sn.last.number + 1 then Fresh
      else if s.number > sn.last.number then Gap(s.number - sn.last.number - 1)
      else if s.number in t.accepted || sn.last.number - s.number > WINDOW then Replay
      else Late
  }

  /** The accepted number that makes `Note` forget: 64 above the highest. */
  predicate Jump64(t: Track, s: Sequence) {
    && t.seen.Some?
    && t.seen.value.last.epoch == s.epoch
    && s.number == t.seen.value.last.number + WINDOW
    && s.number < U64_MAX
  }

  ghost predicate Bounds(t: Track) {
    && (t.seen.None? ==> t.accepted == {})
    && (t.seen.Some? ==>
          && t.seen.value.last.number in t.accepted
          && forall n | n in t.accepted :: 1 <= n <= t.seen.value.last.number)
  }

  ghost predicate WindowAgrees(t: Track)
    requires t.seen.Some?
  {
    var s := t.seen.value;
    forall n: U64 | 1 <= n < s.last.number && s.last.number - n <= WINDOW ::
      s.window[s.last.number - n - 1] <==> n in t.accepted
  }

  /** Word and set agree, wherever `Check` would look. */
  ghost predicate Agrees(t: Track) {
    && Bounds(t)
    && (t.seen.Some? && t.seen.value.last.number < U64_MAX ==> WindowAgrees(t))
  }

  /** No number accepted in this stay would be shown again. */
  ghost predicate RefusesAccepted(t: Track) {
    t.seen.Some? ==>
      forall n | n in t.accepted :: !Check(t.seen, Sequence(t.seen.value.last.epoch, n)).Shown()
  }

  lemma TestBit(w: Word, k: nat)
    requires k < 64
    ensures And(w, OneBit(k)) == Zero() <==> !w[k]
  {
    var a := And(w, OneBit(k));
    if w[k] {
      assert a[k] && !Zero()[k];
    } else {
      assert forall i | 0 <= i < 64 :: a[i] == Zero()[i];
    }
  }

  /** Where word and set agree, `Check` is the classification by the set. */
  lemma AgreesClassifies(t: Track, s: Sequence)
    requires Agrees(t)
    ensures Check(t.seen, s) == CheckBySet(t, s)
  {
    if s.number != 0 && t.seen.Some? {
      var sn := t.seen.value;
      if sn.last.epoch == s.epoch && s.number < sn.last.number < U64_MAX && sn.last.number - s.number <= WINDOW {
        TestBit(sn.window, sn.last.number - s.number - 1);
      }
    }
  }

  /** One step keeps the agreement exactly when it is not the jump of 64. */
  lemma DeliverAgrees(t: Track, s: Sequence)
    requires Agrees(t)
    ensures Agrees(Deliver(t, s)) <==> !Jump64(t, s)
    ensures Jump64(t, s) ==> !RefusesAccepted(Deliver(t, s))
  {
    AgreesClassifies(t, s);
    var u := Deliver(t, s);
    if Jump64(t, s) {
      var old_ := t.seen.value.last;
      assert Check(t.seen, s) == Gap(63);
      assert u.seen.value.window == Zero() && old_.number in u.accepted;
      TestBit(Zero(), 63);
      assert Check(u.seen, old_) == Late;
      assert !u.seen.value.window[u.seen.value.last.number - old_.number - 1];
    } else if t.seen.Some? && u != t && t.seen.value.last.epoch == s.epoch {
      var a, b := t.seen.value, u.seen.value;
      if b.last.number < U64_MAX {
        forall n: U64 | 1 <= n < b.last.number && b.last.number - n <= WINDOW
          ensures b.window[b.last.number - n - 1] <==> n in u.accepted
        {
          if s.number > a.last.number && n < a.last.number && s.number - a.last.number < WINDOW {
            assert b.window[b.last.number - n - 1] == a.window[a.last.number - n - 1];
          }
        }
      }
    }
  }

  /** Step `k` of a run, from a fresh contact, jumps. */
  ghost predicate JumpsAt(ss: seq<Sequence>, k: nat)
    requires k < |ss|
  {
    Jump64(Run(FRESH_TRACK, ss[..k]), ss[k])
  }

  ghost predicate NoJump(ss: seq<Sequence>) {
    forall k | 0 <= k < |ss| :: !JumpsAt(ss, k)
  }

  lemma {:induction false} JumpsAtPrefix(ss: seq<Sequence>, n: nat, k: nat)
    requires k < n <= |ss|
    ensures JumpsAt(ss[..n], k) <==> JumpsAt(ss, k)
  {
    assert ss[..n][..k] == ss[..k];
  }

  lemma {:induction false} RunAgrees(ss: seq<Sequence>)
    requires NoJump(ss)
    ensures Agrees(Run(FRESH_TRACK, ss))
  {
    if ss != [] {
      var init := ss[..|ss| - 1];
      PrefixNoJump(ss, |ss| - 1);
      assert !JumpsAt(ss, |ss| - 1);
      RunAgrees(init);
      DeliverAgrees(Run(FRESH_TRACK, init), ss[|ss| - 1]);
    }
  }

  /** The window is as good as the set: after every run without the jump,
      every incoming number is classified as the set of accepted numbers
      would classify it. */
  lemma WindowRefinesSet(ss: seq<Sequence>, s: Sequence)
    requires NoJump(ss)
    ensures Check(Run(FRESH_TRACK, ss).seen, s) == CheckBySet(Run(FRESH_TRACK, ss), s)
  {
    RunAgrees(ss);
    AgreesClassifies(Run(FRESH_TRACK, ss), s);
  }

  /** A number accepted in the stay the sender is in is never shown again during it, at
      any point of a run, if and only if the run never jumps by exactly 64. */
  lemma StayNeverShownTwiceIff(ss: seq<Sequence>)
    ensures (forall k | 0 <= k <= |ss| :: RefusesAccepted(Run(FRESH_TRACK, ss[..k]))) <==> NoJump(ss)
  {
    if NoJump(ss) {
      forall k | 0 <= k <= |ss| ensures RefusesAccepted(Run(FRESH_TRACK, ss[..k])) {
        PrefixNoJump(ss, k);
        RunAgrees(ss[..k]);
        AgreesRefuses(Run(FRESH_TRACK, ss[..k]));
      }
    } else {
      var k := FirstJump(ss);
      RunAgrees(ss[..k]);
      DeliverAgrees(Run(FRESH_TRACK, ss[..k]), ss[k]);
      assert ss[..k + 1][..k] == ss[..k];
      assert !RefusesAccepted(Run(FRESH_TRACK, ss[..k + 1]));
    }
  }

  lemma PrefixNoJump(ss: seq<Sequence>, k: nat)
    requires k <= |ss| && NoJump(ss)
    ensures NoJump(ss[..k])
  {
    forall j | 0 <= j < k ensures !JumpsAt(ss[..k], j) {
      JumpsAtPrefix(ss, k, j);
    }
  }

  lemma AgreesRefuses(t: Track)
    requires Agrees(t)
    ensures RefusesAccepted(t)
  {
    if t.seen.Some? {
      forall n | n in t.accepted
        ensures !Check(t.seen, Sequence(t.seen.value.last.epoch, n)).Shown()
      {
        AgreesClassifies(t, Sequence(t.seen.value.last.epoch, n));
      }
    }
  }

  lemma {:induction false} FirstJump(ss: seq<Sequence>) returns (k: nat)
    requires !NoJump(ss)
    ensures k < |ss| && JumpsAt(ss, k) && NoJump(ss[..k])
  {
    k := 0;
    while !JumpsAt(ss, k)
      invariant k < |ss| && forall j | 0 <= j < k :: !JumpsAt(ss, j)
      decreases |ss| - k
    {
      k := k + 1;
    }
    forall j | 0 <= j < k ensures !JumpsAt(ss[..k], j) {
      JumpsAtPrefix(ss, k, j);
    }
  }

  /** The jump does happen: 1, then 65, then 1 again is shown twice. */
  lemma JumpShowsTwice()
    ensures var ss := [Sequence(7, 1), Sequence(7, 65)];
            1 in Run(FRESH_TRACK, ss).accepted && Check(Run(FRESH_TRACK, ss).seen, Sequence(7, 1)) == Late
  {
    var ss := [Sequence(7, 1), Sequence(7, 65)];
    var one := [Sequence(7, 1)];
    assert one[..0] == [] && ss[..1] == one;
    var t := Run(FRESH_TRACK, one);
    assert t == Deliver(FRESH_TRACK, one[0]);
    assert t == Track(Some(Seen(Sequence(7, 1), Zero(), None)), {1});
    assert Run(FRESH_TRACK, ss) == Deliver(t, ss[1]);
    TestBit(Zero(), 63);
  }

  // --- epochs ---------------------------------------------------------------

  /** While the sender stays in `epoch`, what a relay adds from the epoch
      before, up to where that ended, is a replay: nothing of the old
      conversation is shown again, and the record of where it ended stays. */
  lemma {:induction false} OldEpochStaysClosed(t: Track, ss: seq<Sequence>, ended: Sequence)
    requires t.seen.Some? && t.seen.value.previous == Some(ended) && ended.epoch != t.seen.value.last.epoch
    requires forall s | s in ss ::
               s.epoch == t.seen.value.last.epoch || (s.epoch == ended.epoch && s.number <= ended.number)
    ensures var u := Run(t, ss);
            && u.seen.Some? && u.seen.value.previous == Some(ended) && u.seen.value.last.epoch == t.seen.value.last.epoch
            && forall n: U64 | 1 <= n <= ended.number :: Check(u.seen, Sequence(ended.epoch, n)) == Replay
  {
    if ss != [] {
      OldEpochStaysClosed(t, ss[..|ss| - 1], ended);
      assert ss[|ss| - 1] in ss;
    }
  }

  lemma {:induction false} RunBounds(ss: seq<Sequence>)
    ensures Bounds(Run(FRESH_TRACK, ss))
  {
    if ss != [] {
      RunBounds(ss[..|ss| - 1]);
    }
  }

  /** Moving to a new epoch closes the one left behind at its highest
      number, so every number accepted in it is refused from then on. */
  lemma NewEpochClosesOld(before: seq<Sequence>, move: Sequence, after: seq<Sequence>)
    requires var t := Run(FRESH_TRACK, before);
             && t.seen.Some? && move.epoch != t.seen.value.last.epoch && Check(t.seen, move) == NewEpoch
             && forall s | s in after ::
                  s.epoch == move.epoch || (s.epoch == t.seen.value.last.epoch && s.number <= t.seen.value.last.number)
    ensures var t := Run(FRESH_TRACK, before);
            forall n | n in t.accepted ::
              Check(Run(Deliver(t, move), after).seen, Sequence(t.seen.value.last.epoch, n)) == Replay
  {
    var t := Run(FRESH_TRACK, before);
    RunBounds(before);
    OldEpochStaysClosed(Deliver(t, move), after, t.seen.value.last);
  }
}
