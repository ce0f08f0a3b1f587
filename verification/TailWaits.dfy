/**
 What becomes of answers that waited for the log to catch up (`tail.rs`): they are
 settled by index, so the head one came with may be off the chain. When that is told.
 */
module TailWaits {
  import opened Wrappers
  import opened Transparency
  import opened Tail
  import opened TransparencyTheorems
  import opened TailBlame
  import TailTheorems

  // --- forks told of the relay ---------------------------------------------------------------

  /** Dealing with what waited tells no fork of the relay's own. */
  lemma {:induction false} ResolveBlamesContacts(t: Tail, s: LogState)
    requires t.log == Some(s)
    ensures forall out | out in ResolveDeferred(t, s).outs && out.Fork? :: out.peer.Some?
    decreases |t.deferred|
  {
    if t.mode.None? && t.deferred != [] {
      var u := t.(deferred := t.deferred[1..]);
      match t.deferred[0]
      case DeferredAnswer(a) =>
        if !(a.head.Some? && a.head.value.index > s.head.index) {
          var problems, out := TailTheorems.ResolveParts(s, a);
          ResolveBlamesContacts(u, s);
        }
      case DeferredHead(peer, head) =>
        ResolveBlamesContacts(CheckHead(u, s, peer, head).tail, s);
    }
  }

  /** A head off the chain, at an index a hash is held for. */
  predicate Refuted(h: Hashing, chain: seq<LogEntry>, head: LogHead) {
    head.index <= |chain| && CanCheck(StateOf(h, chain), head.index) && !OnChain(h, chain, head)
  }

  lemma {:induction false} TargetForkIff(h: Hashing, chain: seq<LogEntry>, target: LogHead, origin: Option<Peer>, i: nat)
    requires Chains(h, EMPTY, chain)
    ensures Fork(None, i) in TargetOuts(StateOf(h, chain), target, origin) <==>
            origin.None? && i == target.index && Refuted(h, chain, target)
  {
    StateHead(h, chain);
    ChainEnds(h, EMPTY, chain);
    if target.index <= |chain| {
      HashAtIs(h, chain, target.index);
      HeadAtIndex(h, chain, target.index);
    }
  }

  /** The page brings the log up to what the relay says it has. */
  predicate CatchesUp(h: Hashing, chain: seq<LogEntry>, head: LogHead) {
    head.index < |chain| || head == HeadAt(h, chain, |chain|)
  }

  lemma {:induction false} CatchUpIs(h: Hashing, t: Tail, chain: seq<LogEntry>, target: LogHead, origin: Option<Peer>,
                                     entries: seq<LogEntry>, head: LogHead)
    requires Tracks(h, t, chain) && t.log.Some? && t.mode == Some(Advance(target, origin))
    requires Chains(h, t.log.value.head, entries)
    ensures Chains(h, EMPTY, chain + entries)
    ensures var now := StateOf(h, chain + entries);
            && now.head == HeadAt(h, chain + entries, |chain + entries|) && now.head.index == |chain + entries|
            && (CatchesUp(h, chain + entries, head) ==>
                  OnEntries(h, t, entries, head) ==
                  CaughtUp(t.(mode := None, log := Some(now)), now, target, origin))
            && (!CatchesUp(h, chain + entries, head) ==>
                  forall out | out in OnEntries(h, t, entries, head).outs :: !Checked(out))
  {
    var longer := chain + entries;
    ApplyReplays(h, chain, entries);
    StateHead(h, longer);
    ChainEnds(h, EMPTY, longer);
    HeadAtIndex(h, longer, |longer|);
    RefusalsWhy(t.deferred, DoesNotChain);
    RefusalsWhy(t.deferred, Withholds);
  }

  /** A page that catches up, whatever it was fetched for: a fork of the relay's own is
      told at an index if and only if the fetch was the relay's own, for a head at that
      index, and that head is refuted. */
  lemma {:induction false} RelayForkToldIff(h: Hashing, t: Tail, chain: seq<LogEntry>, target: LogHead,
                                            origin: Option<Peer>, entries: seq<LogEntry>, head: LogHead, i: nat)
    requires Tracks(h, t, chain) && t.log.Some? && t.mode == Some(Advance(target, origin))
    requires Chains(h, t.log.value.head, entries) && CatchesUp(h, chain + entries, head)
    ensures Fork(None, i) in OnEntries(h, t, entries, head).outs <==>
            origin.None? && i == target.index && Refuted(h, chain + entries, target)
  {
    var now := StateOf(h, chain + entries);
    CatchUpIs(h, t, chain, target, origin, entries, head);
    TargetForkIff(h, chain + entries, target, origin, i);
    CaughtUpBlames(t.(mode := None, log := Some(now)), now, target, origin, i);
  }

  lemma {:induction false} CaughtUpBlames(t: Tail, s: LogState, target: LogHead, origin: Option<Peer>, i: nat)
    requires t.log == Some(s)
    ensures Fork(None, i) in CaughtUp(t, s, target, origin).outs <==> Fork(None, i) in TargetOuts(s, target, origin)
  {
    ResolveBlamesContacts(t.(lastSynced := Some(s.head)), s);
  }

  // --- every answer checked -------------------------------------------------------------------

  /** An answer settled, or refused for what the log says against it. */
  predicate Checked(out: Out) {
    out.Settled? || (out.Refused? && out.why.Problem?)
  }

  /** What an input makes known of a fork of the relay's own at `i`, beside answers it
      gets checked: the fetch was the relay's, for a head there that is refuted; or a
      segment being checked breaks there. */
  predicate OwnFork(h: Hashing, t: Tail, now: seq<LogEntry>, input: Input, i: nat) {
    && input.Page? && t.mode.Some?
    && match t.mode.value
       case Advance(target, origin) => origin.None? && i == target.index && Refuted(h, now, target)
       case Verify(_, _, _, _, _) => Scanning(h, t.mode.value, input.entries).segment == Doctored(i)
  }

  lemma {:induction false} AdvanceChecked(h: Hashing, t: Tail, chain: seq<LogEntry>, entries: seq<LogEntry>,
                                          head: LogHead, out: Out, i: nat)
    requires Tracks(h, t, chain) && t.log.Some? && t.mode.Some? && t.mode.value.Advance?
    requires out in OnEntries(h, t, entries, head).outs && Checked(out)
    ensures Fork(None, i) in OnEntries(h, t, entries, head).outs <==>
            OwnFork(h, t, ChainAfter(h, t, chain, Page(entries, head)), Page(entries, head), i)
  {
    var m := t.mode.value;
    if Chains(h, t.log.value.head, entries) {
      CatchUpIs(h, t, chain, m.target, m.origin, entries, head);
      RelayForkToldIff(h, t, chain, m.target, m.origin, entries, head, i);
    } else {
      BrokenChecksNothing(h, t, entries, head);
    }
  }

  lemma {:induction false} BrokenChecksNothing(h: Hashing, t: Tail, entries: seq<LogEntry>, head: LogHead)
    requires t.log.Some? && t.mode.Some? && t.mode.value.Advance? && !Chains(h, t.log.value.head, entries)
    ensures forall out | out in OnEntries(h, t, entries, head).outs :: !Checked(out)
  {
    BrokenAdvanceBlamesOrigin(h, t, t.mode.value.target, t.mode.value.origin, entries, head);
    var outs := OnEntries(h, t, entries, head).outs;
    assert outs == [outs[0]] + outs[1..];
  }

  lemma {:induction false} VerifyChecked(h: Hashing, t: Tail, entries: seq<LogEntry>, head: LogHead, out: Out, i: nat)
    requires t.log.Some? && t.mode.Some? && t.mode.value.Verify?
    requires out in OnEntries(h, t, entries, head).outs && Checked(out)
    ensures Fork(None, i) in OnEntries(h, t, entries, head).outs <==>
            Scanning(h, t.mode.value, entries).segment == Doctored(i)
  {
    ResolveBlamesContacts(t.(mode := None), t.log.value);
  }

  lemma {:induction false} AnswerChecked(h: Hashing, t: Tail, a: Answer, out: Out, i: nat)
    requires t.log.Some? && out in OnAnswer(t, a).outs && Checked(out)
    ensures Fork(None, i) !in OnAnswer(t, a).outs
  {
    if a.head.Some? {
      var s := OnRelayHead(t, a.head.value).tail;
      if s.log.Some? {
        var problems, last := TailTheorems.ResolveParts(s.log.value, a);
      }
    }
  }

  /** Where an input gets an answer checked, what is told of the relay with it. */
  lemma {:induction false} StepForkToldIff(h: Hashing, t: Tail, chain: seq<LogEntry>, input: Input, out: Out, i: nat)
    requires Tracks(h, t, chain) && t.log.Some? && out in On(h, t, input).outs && Checked(out)
    ensures Fork(None, i) in On(h, t, input).outs <==> OwnFork(h, t, ChainAfter(h, t, chain, input), input, i)
  {
    match input
    case RelayHead(_) =>
    case PeerHead(_, _) =>
    case AnswerIn(a) => AnswerChecked(h, t, a, out, i);
    case Page(entries, head) =>
      if t.mode.Some? {
        if t.mode.value.Advance? {
          AdvanceChecked(h, t, chain, entries, head, out, i);
        } else {
          VerifyChecked(h, t, entries, head, out, i);
        }
      }
  }

  /** At every step of every run that gets an answer checked, whatever it waited behind:
      forks of the relay's are told exactly as `OwnFork` says, which looks at the head
      that was fetched for and not at the answer's. An answer settled is one whose head's
      index the log has reached and which it bears out; its head is on the chain if it is
      settled as it arrives, and if it is off, that is told only by a fork at its index. */
  lemma {:induction false} CheckedForkToldIff(h: Hashing, chain: seq<LogEntry>, inputs: seq<Input>, input: Input, out: Out)
    requires Injective(h) && Chains(h, EMPTY, chain)
    requires out in On(h, Run(h, New(Some(StateOf(h, chain))), inputs).tail, input).outs && Checked(out)
    ensures var t := New(Some(StateOf(h, chain)));
            var before := Run(h, t, inputs).tail;
            var now := ChainAfter(h, before, ChainOf(h, t, chain, inputs), input);
            && (forall i :: Fork(None, i) in On(h, before, input).outs <==> OwnFork(h, before, now, input, i))
            && (out.Settled? ==>
                  && out.answer.head.Some? && out.answer.head.value.index <= |now|
                  && Passes(StateOf(h, now), out.answer)
                  && (input.AnswerIn? ==> OnChain(h, now, out.answer.head.value)))
  {
    var t := New(Some(StateOf(h, chain)));
    var before, replayed := Run(h, t, inputs).tail, ChainOf(h, t, chain, inputs);
    RunTracks(h, chain, inputs);
    LogStays(h, t, inputs);
    forall i: nat
      ensures Fork(None, i) in On(h, before, input).outs <==>
              OwnFork(h, before, ChainAfter(h, before, replayed, input), input, i)
    {
      StepForkToldIff(h, before, replayed, input, out, i);
    }
    if out.Settled? {
      TailTheorems.EveryAnswerOnce(h, Some(StateOf(h, chain)), inputs);
      StepSettled(h, before, replayed, ClaimsOf(inputs), input, out);
    }
  }

  lemma {:induction false} StepSettled(h: Hashing, t: Tail, chain: seq<LogEntry>, claims: Claims, input: Input, out: Out)
    requires Injective(h) && Tracks(h, t, chain) && Claimed(t, claims) && TailTheorems.Waits(t) && t.log.Some?
    requires out in On(h, t, input).outs && out.Settled?
    ensures var now := ChainAfter(h, t, chain, input);
            && out.answer.head.Some? && out.answer.head.value.index <= |now| && Passes(StateOf(h, now), out.answer)
            && (input.AnswerIn? ==> OnChain(h, now, out.answer.head.value))
  {
    StepTracks(h, t, chain, claims, input);
    TailTheorems.SettledWhenReplayed(h, t, input);
    var now := ChainAfter(h, t, chain, input);
    StateHead(h, now);
    ChainEnds(h, EMPTY, now);
    HeadAtIndex(h, now, |now|);
  }

  lemma {:induction false} LogStays(h: Hashing, t: Tail, inputs: seq<Input>)
    requires t.log.Some?
    ensures Run(h, t, inputs).tail.log.Some?
  {
    if inputs != [] {
      LogStays(h, t, inputs[..|inputs| - 1]);
      var before := Run(h, t, inputs[..|inputs| - 1]).tail;
      StepLogStays(h, before, inputs[|inputs| - 1]);
    }
  }

  lemma {:induction false} StepLogStays(h: Hashing, t: Tail, input: Input)
    requires t.log.Some?
    ensures On(h, t, input).tail.log.Some?
  {
    if input.Page? && t.mode.Some? {
      var u := t.(mode := None);
      TailTheorems.ResolveFrame(u, t.log.value);
      match Apply(h, t.log.value, input.entries)
      case Err(_) =>
      case Ok(now) => TailTheorems.ResolveFrame(u.(log := Some(now), lastSynced := Some(now.head)), now);
    }
  }

  // --- which of those waiting are finished -------------------------------------------------------

  /** Something waiting that needs no further fetch. */
  predicate GoesThrough(s: LogState, d: Deferred) {
    match d
    case DeferredAnswer(a) => a.head.Some? ==> a.head.value.index <= s.head.index
    case DeferredHead(_, head) => CheckPeerHead(s, head).Consistent? || CheckPeerHead(s, head).Forked?
  }

  /** An answer waiting behind others that go through is finished as they are: settled if
      and only if the log bears it out, wherever its head is. */
  lemma {:induction false} WaiterFinished(t: Tail, s: LogState, k: nat) returns (out: Out)
    requires t.log == Some(s) && t.mode.None? && k < |t.deferred| && t.deferred[k].DeferredAnswer?
    requires forall j | 0 <= j <= k :: GoesThrough(s, t.deferred[j])
    ensures var a := t.deferred[k].answer;
            && out in ResolveDeferred(t, s).outs && (out.Settled? || out.Refused?)
            && out.answer.ticket == a.ticket && out.answer.head == a.head && (out.Settled? <==> Passes(s, a))
    decreases k
  {
    var u := t.(deferred := t.deferred[1..]);
    assert GoesThrough(s, t.deferred[0]);
    if k == 0 {
      var problems;
      problems, out := TailTheorems.ResolveParts(s, t.deferred[0].answer);
    } else {
      assert forall j | 0 <= j <= k - 1 :: u.deferred[j] == t.deferred[j + 1];
      out := WaiterFinished(u, s, k - 1);
    }
  }

  /** So an answer whose head the relay's chain never had is settled: with the fork told,
      where it was that head the log was fetched for. */
  lemma {:induction false} OffChainAnswerSettled(h: Hashing, e: LogEntry, a: Answer)
    requires Follows(e, EMPTY) && a.head.Some? && a.head.value.index == 1 && a.head.value.hash != h(e)
    requires Passes(StateOf(h, [e]), a)
    ensures var waiting := OnAnswer(New(Some(FRESH)), a).tail;
            var outs := OnEntries(h, waiting, [e], HeadOf(h, e)).outs;
            && !OnChain(h, [e], a.head.value) && Fork(None, 1) in outs
            && exists out :: out in outs && out.Settled? && out.answer.ticket == a.ticket && out.answer.head == a.head
  {
    var waiting := OnAnswer(New(Some(FRESH)), a).tail;
    assert StateOf(h, []) == FRESH && [] + [e] == [e];
    assert waiting == Tail(Some(FRESH), Some(Advance(a.head.value, None)), [DeferredAnswer(a)], None);
    assert Chains(h, EMPTY, [e]) && [e][1..] == [];
    assert HeadAt(h, [e], 1) == HeadOf(h, e);
    var now := StateOf(h, [e]);
    CatchUpIs(h, waiting, [], a.head.value, None, [e], HeadOf(h, e));
    RelayForkToldIff(h, waiting, [], a.head.value, None, [e], HeadOf(h, e), 1);
    var out := WaiterFinished(waiting.(mode := None, log := Some(now), lastSynced := Some(now.head)), now, 0);
  }

  /** And with nothing told, where it waited behind the fetch for another's: one answer
      with the head of a chain of two, and one that comes meanwhile with a head at the
      first entry's index that is not the first entry's. */
  lemma {:induction false} OffChainAnswerUntold(h: Hashing, e1: LogEntry, e2: LogEntry, a: Answer, b: Answer)
    requires Follows(e1, EMPTY) && Follows(e2, HeadOf(h, e1)) && a.head == Some(HeadOf(h, e2))
    requires b.head.Some? && b.head.value.index == 1 && b.head.value.hash != h(e1) && Passes(StateOf(h, [e1, e2]), b)
    ensures var waiting := OnAnswer(OnAnswer(New(Some(FRESH)), a).tail, b).tail;
            var outs := OnEntries(h, waiting, [e1, e2], HeadOf(h, e2)).outs;
            && Refuted(h, [e1, e2], b.head.value) && (forall p, at :: Fork(p, at) !in outs)
            && exists out :: out in outs && out.Settled? && out.answer.ticket == b.ticket && out.answer.head == b.head
  {
    var es, target := [e1, e2], HeadOf(h, e2);
    var waiting := OnAnswer(OnAnswer(New(Some(FRESH)), a).tail, b).tail;
    assert waiting == Tail(Some(FRESH), Some(Advance(target, None)), [DeferredAnswer(a), DeferredAnswer(b)], None);
    TwoChain(h, e1, e2);
    assert StateOf(h, []) == FRESH && [] + es == es;
    var now := StateOf(h, es);
    CatchUpIs(h, waiting, [], target, None, es, target);
    var u := waiting.(mode := None, log := Some(now), lastSynced := Some(now.head));
    var out := WaiterFinished(u, now, 1);
    AnswersBlameNobody(u, now);
    HashAtIs(h, es, 2);
  }

  lemma {:induction false} TwoChain(h: Hashing, e1: LogEntry, e2: LogEntry)
    requires Follows(e1, EMPTY) && Follows(e2, HeadOf(h, e1))
    ensures var es := [e1, e2];
            && Chains(h, EMPTY, es) && HeadAt(h, es, 2) == HeadOf(h, e2) && HeadAt(h, es, 1) == HeadOf(h, e1)
            && CanCheck(StateOf(h, es), 1)
  {
    var es := [e1, e2];
    assert es[1..] == [e2] && [e2][1..] == [];
    assert es[..2] == es && es[..1] == [e1];
    HashAtIs(h, es, 1);
  }

  lemma {:induction false} AnswersBlameNobody(t: Tail, s: LogState)
    requires t.log == Some(s) && forall d | d in t.deferred :: d.DeferredAnswer?
    ensures forall out | out in ResolveDeferred(t, s).outs :: !out.Fork?
    decreases |t.deferred|
  {
    if t.mode.None? && t.deferred != [] {
      var u := t.(deferred := t.deferred[1..]);
      assert t.deferred[0] in t.deferred && forall d | d in u.deferred :: d in t.deferred;
      var a := t.deferred[0].answer;
      if !(a.head.Some? && a.head.value.index > s.head.index) {
        var problems, out := TailTheorems.ResolveParts(s, a);
        AnswersBlameNobody(u, s);
      }
    }
  }

  // --- an answer never caught up with --------------------------------------------------------------

  /** The same input, `n` times over. */
  function Again(input: Input, n: nat): seq<Input> {
    if n == 0 then [] else Again(input, n - 1) + [input]
  }

  /** An input that takes `t` to `u` and finishes no answer. */
  predicate Idles(h: Hashing, t: Tail, input: Input, u: Tail) {
    On(h, t, input).tail == u && TailTheorems.Finished(On(h, t, input).outs) == multiset{}
  }

  /** A run that takes `t` to `u` and finishes none. */
  predicate RunIdles(h: Hashing, t: Tail, inputs: seq<Input>, u: Tail) {
    Run(h, t, inputs).tail == u && TailTheorems.Finished(Run(h, t, inputs).outs) == multiset{}
  }

  lemma {:induction false} IdlesMore(h: Hashing, t: Tail, inputs: seq<Input>, v: Tail, input: Input, u: Tail)
    requires RunIdles(h, t, inputs, v) && Idles(h, v, input, u)
    ensures RunIdles(h, t, inputs + [input], u)
  {
    var before := Run(h, t, inputs);
    assert (inputs + [input])[..|inputs|] == inputs;
    TailTheorems.FinishedConcat(before.outs, On(h, before.tail, input).outs);
  }

  lemma {:induction false} AgainIdles(h: Hashing, t: Tail, u: Tail, input: Input, n: nat)
    requires Idles(h, t, input, u) && Idles(h, u, input, u)
    ensures RunIdles(h, t, Again(input, n), if n == 0 then t else u)
    decreases n
  {
    if n > 0 {
      AgainIdles(h, t, u, input, n - 1);
      IdlesMore(h, t, Again(input, n - 1), if n == 1 then t else u, input, u);
    }
  }

  /** First in the queue, an answer ahead of the log, with a fetch under way for anything
      at all. */
  predicate Ahead(t: Tail, a: Answer) {
    && t.log.Some? && t.deferred != [] && t.deferred[0] == DeferredAnswer(a) && a.head.Some?
    && a.head.value.index > t.log.value.head.index && t.mode.Some? && t.mode.value.Advance?
  }

  /** One the relay never serves: after every page that says there is no more it is
      fetched for again, and neither it nor anything behind it is ever settled or
      refused. */
  lemma {:induction false} NeverServedWaits(h: Hashing, t: Tail, a: Answer, n: nat)
    requires Ahead(t, a)
    ensures var ours := t.log.value.head;
            var r := Run(h, t, Again(Page([], ours), n));
            && r.tail == (if n == 0 then t else t.(mode := Some(Advance(a.head.value, None)), lastSynced := Some(ours)))
            && TailTheorems.Finished(r.outs) == multiset{}
  {
    var ours := t.log.value.head;
    var u := t.(mode := Some(Advance(a.head.value, None)), lastSynced := Some(ours));
    NeverServedIdles(h, t, a);
    NeverServedIdles(h, u, a);
    AgainIdles(h, t, u, Page([], ours), n);
  }

  lemma {:induction false} NeverServedIdles(h: Hashing, t: Tail, a: Answer)
    requires Ahead(t, a)
    ensures var ours := t.log.value.head;
            Idles(h, t, Page([], ours), t.(mode := Some(Advance(a.head.value, None)), lastSynced := Some(ours)))
  {
    assert Apply(h, t.log.value, []) == Ok(t.log.value);
    TailTheorems.NothingFinishes(On(h, t, Page([], t.log.value.head)).outs);
  }
}
