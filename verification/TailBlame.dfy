/** Who the tail blames for a fork, and when it is right to. */
module TailBlame {
  import opened Wrappers
  import opened Transparency
  import opened Tail
  import opened TransparencyTheorems
  import TailTheorems

  // --- a segment being checked ------------------------------------------------------------

  /** Whether `check` matched the entries seen since `base`, once they passed it. */
  function MatchedIn(h: Hashing, base: nat, seen: seq<LogEntry>, check: LogHead): Option<bool>
    requires base < check.index
  {
    if check.index <= base + |seen| then Some(h(seen[check.index - base - 1]) == check.hash) else None
  }

  /** How far a check has got: `seen` chains from the head we replayed at `base`,
      below the head being checked, and has not reached the one above it. */
  predicate SegmentSoFar(h: Hashing, chain: seq<LogEntry>, m: Mode, base: nat, seen: seq<LogEntry>) {
    && m.Verify? && base < m.check.index < m.until.index && base + |seen| < m.until.index
    && OnChain(h, chain, m.until)
    && Chains(h, HeadAt(h, chain, base), seen)
    && m.cursor == End(h, HeadAt(h, chain, base), seen)
    && m.matched == MatchedIn(h, base, seen, m.check)
  }

  /** Somewhere, entries said to start after `base` are not the replayed ones. */
  predicate Departs(chain: seq<LogEntry>, base: nat, all: seq<LogEntry>) {
    exists k: nat | k < |all| && base + k < |chain| :: all[k] != chain[base + k]
  }

  function Scanning(h: Hashing, m: Mode, entries: seq<LogEntry>): Scanned
    requires m.Verify?
  {
    Scan(h, m.cursor, m.check, m.until, m.matched, entries)
  }

  /** One entry more that follows. */
  function Onward(h: Hashing, m: Mode, e: LogEntry): Mode
    requires m.Verify?
  {
    var next := HeadOf(h, e);
    m.(cursor := next, matched := if next.index == m.check.index then Some(next.hash == m.check.hash) else m.matched)
  }

  lemma {:induction false} SeenIndex(h: Hashing, chain: seq<LogEntry>, base: nat, seen: seq<LogEntry>)
    requires Chains(h, EMPTY, chain) && base <= |chain| && Chains(h, HeadAt(h, chain, base), seen)
    ensures End(h, HeadAt(h, chain, base), seen).index == base + |seen|
  {
    HeadAtIndex(h, chain, base);
    ChainEnds(h, HeadAt(h, chain, base), seen);
  }

  lemma {:induction false} SeenMore(h: Hashing, chain: seq<LogEntry>, m: Mode, base: nat, seen: seq<LogEntry>, e: LogEntry)
    requires Chains(h, EMPTY, chain) && SegmentSoFar(h, chain, m, base, seen) && Follows(e, m.cursor)
    ensures var more := seen + [e];
            && Chains(h, HeadAt(h, chain, base), more)
            && End(h, HeadAt(h, chain, base), more) == HeadOf(h, e)
            && e.index == base + |more|
            && Onward(h, m, e).matched == MatchedIn(h, base, more, m.check)
  {
    var from, more := HeadAt(h, chain, base), seen + [e];
    SeenIndex(h, chain, base, seen);
    assert more[..|seen|] == seen;
    ChainsSnoc(h, from, more);
  }

  /** Reaching the head above with its hash, the segment is the replayed one, so
      what it says of the head being checked is what the chain says. */
  lemma {:induction false} GenuineTells(h: Hashing, chain: seq<LogEntry>, check: LogHead, base: nat, all: seq<LogEntry>)
    requires Injective(h) && Chains(h, EMPTY, chain) && base < check.index < base + |all| <= |chain|
    requires Chains(h, HeadAt(h, chain, base), all)
    requires End(h, HeadAt(h, chain, base), all) == HeadAt(h, chain, base + |all|)
    ensures all == chain[base..base + |all|]
    ensures MatchedIn(h, base, all, check) == Some(OnChain(h, chain, check))
  {
    SegmentIsReplayed(h, chain, base, all);
    HeadAtIndex(h, chain, check.index);
    assert all[check.index - base - 1] == chain[check.index - 1];
  }

  lemma {:induction false} ScanIs(h: Hashing, chain: seq<LogEntry>, m: Mode, base: nat, seen: seq<LogEntry>,
                                  entries: seq<LogEntry>)
    requires Injective(h) && Chains(h, EMPTY, chain) && SegmentSoFar(h, chain, m, base, seen)
    ensures var r := Scanning(h, m, entries);
            match r.segment
            case Genuine => r.matched == Some(OnChain(h, chain, m.check))
            case Doctored(_) => Departs(chain, base, seen + entries)
            case Incomplete => SegmentSoFar(h, chain, m.(cursor := r.cursor, matched := r.matched), base, seen + entries)
    decreases |entries|
  {
    if entries == [] {
      assert seen + entries == seen;
    } else if !Follows(entries[0], m.cursor) {
      DoctoredHere(h, chain, m, base, seen, entries);
    } else {
      var e := entries[0];
      var more, next := seen + [e], Onward(h, m, e);
      SeenMore(h, chain, m, base, seen, e);
      assert more + entries[1..] == seen + entries;
      if e.index == m.until.index {
        if h(e) == m.until.hash {
          GenuineTells(h, chain, m.check, base, more);
        } else {
          var k := |seen|;
          assert (seen + entries)[k] == e && base + k < |chain|;
          assert chain[base + k] != e;
        }
      } else {
        ScanIs(h, chain, next, base, more, entries[1..]);
      }
    }
  }

  lemma {:induction false} DoctoredHere(h: Hashing, chain: seq<LogEntry>, m: Mode, base: nat, seen: seq<LogEntry>,
                                        entries: seq<LogEntry>)
    requires Chains(h, EMPTY, chain) && SegmentSoFar(h, chain, m, base, seen)
    requires entries != [] && !Follows(entries[0], m.cursor)
    ensures Departs(chain, base, seen + entries)
  {
    var all, k := seen + entries, |seen|;
    assert all[k] == entries[0] && base + k < |chain|;
    ChainLinks(h, chain, base + k);
    if all[k] == chain[base + k] {
      assert seen != [] && all[k - 1] == seen[k - 1];
      assert m.cursor == HeadOf(h, seen[k - 1]);
      assert seen[k - 1] != chain[base + k - 1];
    }
  }

  // --- the invariant ------------------------------------------------------------------------

  /** The log is what replaying `chain` left, and a check under way is of a
      segment of it. */
  ghost predicate Tracks(h: Hashing, t: Tail, chain: seq<LogEntry>) {
    && Chains(h, EMPTY, chain)
    && (t.log.Some? ==> t.log.value == StateOf(h, chain))
    && (t.mode.Some? && t.mode.value.Verify? ==> Verifying(h, chain, t.mode.value))
  }

  ghost predicate Verifying(h: Hashing, chain: seq<LogEntry>, m: Mode) {
    exists base: nat, seen: seq<LogEntry> :: SegmentSoFar(h, chain, m, base, seen)
  }

  /** The chain after one more input: emptied where the replay starts again,
      longer where a page was taken. */
  function ChainAfter(h: Hashing, t: Tail, chain: seq<LogEntry>, input: Input): seq<LogEntry> {
    match input
    case RelayHead(head) => if Restarts(t, head) then [] else chain
    case AnswerIn(a) => if a.head.Some? && Restarts(t, a.head.value) then [] else chain
    case Page(entries, _) =>
      if t.log.Some? && t.mode.Some? && t.mode.value.Advance? && Chains(h, t.log.value.head, entries)
      then chain + entries else chain
    case PeerHead(_, _) => chain
  }

  /** A check never changes the log. */
  lemma {:induction false} VerifyKeepsLog(h: Hashing, t: Tail, entries: seq<LogEntry>, head: LogHead)
    requires t.mode.Some? && t.mode.value.Verify?
    ensures OnEntries(h, t, entries, head).tail.log == t.log
  {
    if t.log.Some? {
      TailTheorems.ResolveFrame(t.(mode := None), t.log.value);
    }
  }

  // --- what contacts have claimed ---------------------------------------------------------------

  type Claims = set<(Peer, LogHead)>

  predicate Claimed(t: Tail, claims: Claims) {
    && (forall d | d in t.deferred && d.DeferredHead? :: (d.peer, d.head) in claims)
    && (t.mode.Some? ==>
          match t.mode.value
          case Advance(target, origin) => origin.Some? ==> (origin.value, target) in claims
          case Verify(_, check, _, peer, _) => (peer, check) in claims)
  }

  /** A contact named for a fork did claim a head there, and it is off our chain. */
  ghost predicate Truly(h: Hashing, chain: seq<LogEntry>, claims: Claims, out: Out) {
    out.Fork? && out.peer.Some? ==>
      exists head :: (out.peer.value, head) in claims && head.index == out.at <= |chain| && !OnChain(h, chain, head)
  }

  ghost predicate AllTruly(h: Hashing, chain: seq<LogEntry>, claims: Claims, outs: seq<Out>) {
    forall out | out in outs :: Truly(h, chain, claims, out)
  }

  lemma {:induction false} CheckHeadTruly(h: Hashing, t: Tail, chain: seq<LogEntry>, claims: Claims, peer: Peer, head: LogHead)
    requires Tracks(h, t, chain) && Claimed(t, claims) && t.log.Some? && t.mode.None? && (peer, head) in claims
    ensures var r := CheckHead(t, t.log.value, peer, head);
            Tracks(h, r.tail, chain) && Claimed(r.tail, claims) && AllTruly(h, chain, claims, r.outs)
            && r.tail.log == t.log && r.tail.deferred == t.deferred
  {
    CheckPeerHeadIs(h, chain, head);
    var c := CheckPeerHead(t.log.value, head);
    if c.NeedEntries? {
      var m := Verify(c.from, head, c.until, peer, None);
      assert Chains(h, HeadAt(h, chain, c.from.index), []);
      assert SegmentSoFar(h, chain, m, c.from.index, []);
    }
  }

  lemma {:induction false} ResolveTruly(h: Hashing, t: Tail, chain: seq<LogEntry>, claims: Claims, s: LogState)
    requires Tracks(h, t, chain) && Claimed(t, claims) && t.log == Some(s)
    ensures var r := ResolveDeferred(t, s);
            Tracks(h, r.tail, chain) && Claimed(r.tail, claims) && AllTruly(h, chain, claims, r.outs)
    decreases |t.deferred|
  {
    if t.mode.None? && t.deferred != [] {
      var u := t.(deferred := t.deferred[1..]);
      assert t.deferred[0] in t.deferred && forall d | d in u.deferred :: d in t.deferred;
      match t.deferred[0]
      case DeferredAnswer(a) =>
        if !(a.head.Some? && a.head.value.index > s.head.index) {
          var problems, out := TailTheorems.ResolveParts(s, a);
          ResolveTruly(h, u, chain, claims, s);
        }
      case DeferredHead(peer, head) =>
        CheckHeadTruly(h, u, chain, claims, peer, head);
        ResolveTruly(h, CheckHead(u, s, peer, head).tail, chain, claims, s);
    }
  }

  lemma {:induction false} RefusalsTruly(h: Hashing, chain: seq<LogEntry>, claims: Claims, deferred: seq<Deferred>, why: Why)
    ensures AllTruly(h, chain, claims, Refusals(deferred, why))
  {
    TailTheorems.RefusalsSettleNothing(deferred, why);
  }

  lemma {:induction false} TargetTruly(h: Hashing, chain: seq<LogEntry>, claims: Claims, target: LogHead, origin: Option<Peer>)
    requires Chains(h, EMPTY, chain) && (origin.Some? ==> (origin.value, target) in claims)
    ensures AllTruly(h, chain, claims, TargetOuts(StateOf(h, chain), target, origin))
  {
    StateHead(h, chain);
    ChainEnds(h, EMPTY, chain);
    if target.index <= |chain| {
      HashAtIs(h, chain, target.index);
      HeadAtIndex(h, chain, target.index);
    }
  }

  /** A page taken while catching up. */
  lemma {:induction false} AdvanceTruly(h: Hashing, t: Tail, chain: seq<LogEntry>, claims: Claims, target: LogHead,
                                        origin: Option<Peer>, entries: seq<LogEntry>, head: LogHead)
    requires Tracks(h, t, chain) && Claimed(t, claims) && t.log.Some? && t.mode.None?
    requires origin.Some? ==> (origin.value, target) in claims
    requires Chains(h, t.log.value.head, entries)
    ensures var r := OnAdvancePage(h, t, t.log.value, target, origin, entries, head);
            && Tracks(h, r.tail, chain + entries) && Claimed(r.tail, claims)
            && AllTruly(h, chain + entries, claims, r.outs)
  {
    var longer := chain + entries;
    ApplyReplays(h, chain, entries);
    var now := StateOf(h, longer);
    assert Apply(h, t.log.value, entries) == Ok(now);
    var u := t.(log := Some(now));
    RefusalsTruly(h, longer, claims, t.deferred, DoesNotChain);
    RefusalsTruly(h, longer, claims, t.deferred, Withholds);
    TargetTruly(h, longer, claims, target, origin);
    ResolveTruly(h, u.(lastSynced := Some(now.head)), longer, claims, now);
  }

  /** A page that does not chain, while catching up: refused whole, and blamed on
      whoever the catching up was for. */
  lemma {:induction false} BrokenAdvanceBlamesOrigin(h: Hashing, t: Tail, target: LogHead, origin: Option<Peer>,
                                                     entries: seq<LogEntry>, head: LogHead)
    requires t.log.Some? && t.mode == Some(Advance(target, origin)) && !Chains(h, t.log.value.head, entries)
    ensures var r := OnEntries(h, t, entries, head);
            && r.tail == t.(mode := None, deferred := []) && r.outs != []
            && r.outs[0] == Fork(origin, BreakOf(h, t.log.value.head, entries).at)
            && forall out | out in r.outs[1..] :: out.Refused? && out.why == DoesNotChain
  {
    RefusalsWhy(t.deferred, DoesNotChain);
  }

  lemma {:induction false} RefusalsWhy(deferred: seq<Deferred>, why: Why)
    ensures forall out | out in Refusals(deferred, why) :: out.Refused? && out.why == why
  {
    if deferred != [] {
      RefusalsWhy(deferred[..|deferred| - 1], why);
    }
  }

  /** A checked segment: the contact is blamed exactly when the segment reached
      the head above and their head is off our chain; a segment that does not
      hold together departs from what we replayed and is blamed on the relay. */
  lemma {:induction false} VerdictIs(h: Hashing, chain: seq<LogEntry>, m: Mode, base: nat, seen: seq<LogEntry>,
                                     entries: seq<LogEntry>)
    requires Injective(h) && Chains(h, EMPTY, chain) && SegmentSoFar(h, chain, m, base, seen)
    ensures var r := Scanning(h, m, entries);
            var outs := VerdictOuts(r, m.check, m.until, m.peer);
            && (Fork(Some(m.peer), m.check.index) in outs <==> r.segment.Genuine? && !OnChain(h, chain, m.check))
            && ((exists at :: Fork(None, at) in outs) <==> r.segment.Doctored?)
            && (r.segment.Doctored? ==> Departs(chain, base, seen + entries))
  {
    ScanIs(h, chain, m, base, seen, entries);
    var r := Scanning(h, m, entries);
    if r.segment.Doctored? {
      assert Fork(None, r.segment.at) in VerdictOuts(r, m.check, m.until, m.peer);
    }
  }

  lemma {:induction false} VerifyTruly(h: Hashing, t: Tail, chain: seq<LogEntry>, claims: Claims, m: Mode, entries: seq<LogEntry>)
    requires Injective(h) && Tracks(h, t, chain) && Claimed(t, claims) && t.log.Some? && t.mode.None?
    requires m.Verify? && Verifying(h, chain, m) && (m.peer, m.check) in claims
    ensures var r := OnVerifyPage(h, t, t.log.value, m, entries);
            Tracks(h, r.tail, chain) && Claimed(r.tail, claims) && AllTruly(h, chain, claims, r.outs)
  {
    var base: nat, seen: seq<LogEntry> :| SegmentSoFar(h, chain, m, base, seen);
    ScanIs(h, chain, m, base, seen, entries);
    ResolveTruly(h, t, chain, claims, t.log.value);
  }

  // --- whole runs -----------------------------------------------------------------------------

  function ClaimsWith(claims: Claims, input: Input): Claims {
    if input.PeerHead? then claims + {(input.peer, input.head)} else claims
  }

  /** A page that does not chain, met while catching up for `peer`. */
  predicate BrokenFor(h: Hashing, t: Tail, input: Input, peer: Peer) {
    && input.Page? && t.log.Some? && t.mode.Some? && t.mode.value.Advance? && t.mode.value.origin == Some(peer)
    && !Chains(h, t.log.value.head, input.entries)
  }

  lemma {:induction false} RelayHeadTruly(h: Hashing, t: Tail, chain: seq<LogEntry>, claims: Claims, head: LogHead)
    requires Tracks(h, t, chain) && Claimed(t, claims)
    ensures var r := OnRelayHead(t, head);
            var now := if Restarts(t, head) then [] else chain;
            Tracks(h, r.tail, now) && Claimed(r.tail, claims) && AllTruly(h, now, claims, r.outs)
  {
    assert StateOf(h, []) == FRESH;
  }

  lemma {:induction false} AnswerTruly(h: Hashing, t: Tail, chain: seq<LogEntry>, claims: Claims, a: Answer)
    requires Tracks(h, t, chain) && Claimed(t, claims)
    ensures var r := OnAnswer(t, a);
            var now := ChainAfter(h, t, chain, AnswerIn(a));
            Tracks(h, r.tail, now) && Claimed(r.tail, claims) && AllTruly(h, now, claims, r.outs)
  {
    if t.log.Some? && a.head.Some? {
      RelayHeadTruly(h, t, chain, claims, a.head.value);
      var s := OnRelayHead(t, a.head.value).tail;
      if s.log.Some? {
        var problems, out := TailTheorems.ResolveParts(s.log.value, a);
      }
    }
  }

  lemma {:induction false} PageTruly(h: Hashing, t: Tail, chain: seq<LogEntry>, claims: Claims,
                                     entries: seq<LogEntry>, head: LogHead)
    requires Injective(h) && Tracks(h, t, chain) && Claimed(t, claims)
    ensures var input := Page(entries, head);
            var r := OnEntries(h, t, entries, head);
            var now := ChainAfter(h, t, chain, input);
            && Tracks(h, r.tail, now) && Claimed(r.tail, claims)
            && forall out | out in r.outs ::
                 Truly(h, now, claims, out) || (out.Fork? && out.peer.Some? && BrokenFor(h, t, input, out.peer.value))
  {
    if t.log.Some? && t.mode.Some? {
      var u, m := t.(mode := None), t.mode.value;
      if m.Verify? {
        VerifyTruly(h, u, chain, claims, m, entries);
      } else if Chains(h, t.log.value.head, entries) {
        AdvanceTruly(h, u, chain, claims, m.target, m.origin, entries, head);
      } else {
        BrokenAdvanceBlamesOrigin(h, t, m.target, m.origin, entries, head);
        var outs := OnEntries(h, t, entries, head).outs;
        assert outs == [outs[0]] + outs[1..];
      }
    }
  }

  /** Where a run stands: its tail, the chain it has replayed, what was claimed. */
  function ChainOf(h: Hashing, t: Tail, chain: seq<LogEntry>, inputs: seq<Input>): seq<LogEntry> {
    if inputs == [] then chain
    else
      var init := inputs[..|inputs| - 1];
      ChainAfter(h, Run(h, t, init).tail, ChainOf(h, t, chain, init), inputs[|inputs| - 1])
  }

  function ClaimsOf(inputs: seq<Input>): Claims {
    if inputs == [] then {} else ClaimsWith(ClaimsOf(inputs[..|inputs| - 1]), inputs[|inputs| - 1])
  }

  lemma {:induction false} StepTracks(h: Hashing, t: Tail, chain: seq<LogEntry>, claims: Claims, input: Input)
    requires Injective(h) && Tracks(h, t, chain) && Claimed(t, claims)
    ensures var r := On(h, t, input);
            var now, all := ChainAfter(h, t, chain, input), ClaimsWith(claims, input);
            && Tracks(h, r.tail, now) && Claimed(r.tail, all)
            && forall out | out in r.outs ::
                 Truly(h, now, all, out) || (out.Fork? && out.peer.Some? && BrokenFor(h, t, input, out.peer.value))
  {
    var all := ClaimsWith(claims, input);
    assert Claimed(t, all);
    match input
    case RelayHead(head) => RelayHeadTruly(h, t, chain, all, head);
    case AnswerIn(a) => AnswerTruly(h, t, chain, all, a);
    case Page(entries, head) => PageTruly(h, t, chain, all, entries, head);
    case PeerHead(peer, head) =>
      if t.log.Some? && t.mode.None? {
        CheckHeadTruly(h, t, chain, all, peer, head);
      }
  }

  /** The log at every point of a run is the replay of the chain it has taken. */
  lemma {:induction false} RunTracks(h: Hashing, chain: seq<LogEntry>, inputs: seq<Input>)
    requires Injective(h) && Chains(h, EMPTY, chain)
    ensures var t := New(Some(StateOf(h, chain)));
            Tracks(h, Run(h, t, inputs).tail, ChainOf(h, t, chain, inputs)) &&
            Claimed(Run(h, t, inputs).tail, ClaimsOf(inputs))
  {
    if inputs != [] {
      var init, input := inputs[..|inputs| - 1], inputs[|inputs| - 1];
      var t := New(Some(StateOf(h, chain)));
      RunTracks(h, chain, init);
      StepTracks(h, Run(h, t, init).tail, ChainOf(h, t, chain, init), ClaimsOf(init), input);
    }
  }

  /** At every step of every run, a contact named for a fork claimed a head that
      is off the chain we replayed, except where the relay's page did not chain
      while we were catching up for that contact. */
  lemma {:induction false} BlameIsTrueUnlessPageBroke(h: Hashing, chain: seq<LogEntry>, inputs: seq<Input>, input: Input)
    requires Injective(h) && Chains(h, EMPTY, chain)
    ensures var t := New(Some(StateOf(h, chain)));
            var before := Run(h, t, inputs).tail;
            var now := ChainAfter(h, before, ChainOf(h, t, chain, inputs), input);
            forall out | out in On(h, before, input).outs && out.Fork? && out.peer.Some? ::
              Truly(h, now, ClaimsWith(ClaimsOf(inputs), input), out) || BrokenFor(h, before, input, out.peer.value)
  {
    RunTracks(h, chain, inputs);
    var t := New(Some(StateOf(h, chain)));
    StepTracks(h, Run(h, t, inputs).tail, ChainOf(h, t, chain, inputs), ClaimsOf(inputs), input);
  }

  /** And there it is wrong to: a contact whose head is the next one of the very
      chain the relay serves everyone is blamed for a page the relay broke. */
  lemma {:induction false} HonestContactBlamed(h: Hashing, peer: Peer, e: LogEntry, bad: LogEntry)
    requires Follows(e, EMPTY) && !Follows(bad, EMPTY)
    ensures var asked := OnPeerHead(New(Some(FRESH)), peer, HeadOf(h, e)).tail;
            var r := OnEntries(h, asked, [bad], HeadOf(h, e));
            Fork(Some(peer), 0) in r.outs && OnChain(h, [e], HeadOf(h, e))
  {
    var asked := OnPeerHead(New(Some(FRESH)), peer, HeadOf(h, e)).tail;
    assert asked.mode == Some(Advance(HeadOf(h, e), Some(peer)));
    BrokenAdvanceBlamesOrigin(h, asked, HeadOf(h, e), Some(peer), [bad], HeadOf(h, e));
  }

  // --- the evidence kept ------------------------------------------------------------------------

  /** Evidence: a head we had replayed to, with checkpoints of the same chain, and a
      head from the relay that goes back on it. */
  predicate Evidence(h: Hashing, chain: seq<LogEntry>, b: Break) {
    && Chains(h, EMPTY, chain) && b.ours == HeadAt(h, chain, |chain|) && b.ours.index == |chain|
    && AllOnChain(h, chain, b.checkpoints)
    && (if b.rewound then b.theirs.index < |chain|
        else b.theirs.index == |chain| && !OnChain(h, chain, b.theirs))
  }

  lemma {:induction false} BreakOnIsEvidence(h: Hashing, t: Tail, chain: seq<LogEntry>, head: LogHead)
    requires Tracks(h, t, chain)
    ensures forall b | b in BreakOn(t, head) :: Evidence(h, chain, b)
  {
    if Restarts(t, head) {
      StateHead(h, chain);
      ChainEnds(h, EMPTY, chain);
      HeadAtIndex(h, chain, |chain|);
      CheckpointsAre(h, chain);
    }
  }

  /** At every step of every run, what is put by is evidence against the chain replayed
      by then; with nothing put by, what was replayed stays. */
  lemma {:induction false} BreakIsEvidence(h: Hashing, chain: seq<LogEntry>, inputs: seq<Input>, input: Input)
    requires Injective(h) && Chains(h, EMPTY, chain)
    ensures var t := New(Some(StateOf(h, chain)));
            var before, replayed := Run(h, t, inputs).tail, ChainOf(h, t, chain, inputs);
            var more := BreaksOn(before, input);
            && (forall b | b in more :: Evidence(h, replayed, b))
            && (more == [] ==> replayed <= ChainAfter(h, before, replayed, input))
  {
    RunTracks(h, chain, inputs);
    var t := New(Some(StateOf(h, chain)));
    var before, replayed := Run(h, t, inputs).tail, ChainOf(h, t, chain, inputs);
    match input
    case RelayHead(head) => BreakOnIsEvidence(h, before, replayed, head);
    case AnswerIn(a) =>
      if a.head.Some? {
        BreakOnIsEvidence(h, before, replayed, a.head.value);
      }
    case Page(_, _) =>
    case PeerHead(_, _) =>
  }

  /** What is held after any run is the newest of all there has been. */
  lemma {:induction false} HeldAreNewest(h: Hashing, t: Tail, held: seq<Break>, inputs: seq<Input>)
    requires |held| <= BREAKS_KEPT
    ensures HeldBreaks(h, t, held, inputs) == NewestBreaks(held + BreaksOf(h, t, inputs))
  {
    if inputs == [] {
      assert held + [] == held;
    } else {
      var init := inputs[..|inputs| - 1];
      HeldAreNewest(h, t, held, init);
      NewestOfNewest(held + BreaksOf(h, t, init), BreaksOn(Run(h, t, init).tail, inputs[|inputs| - 1]));
      assert held + BreaksOf(h, t, init) + BreaksOn(Run(h, t, init).tail, inputs[|inputs| - 1]) ==
             held + BreaksOf(h, t, inputs);
    }
  }

  lemma {:induction false} NewestOfNewest(a: seq<Break>, b: seq<Break>)
    ensures NewestBreaks(NewestBreaks(a) + b) == NewestBreaks(a + b)
    ensures b == [] ==> NewestBreaks(a) == NewestBreaks(a + b)
  {
    if b == [] {
      assert a + b == a;
    }
    if |a| > BREAKS_KEPT {
      var older, newest := a[..|a| - BREAKS_KEPT], NewestBreaks(a);
      assert a + b == older + (newest + b);
      OlderDropped(older, newest + b);
    }
  }

  lemma {:induction false} OlderDropped(older: seq<Break>, newer: seq<Break>)
    requires |newer| >= BREAKS_KEPT
    ensures NewestBreaks(older + newer) == NewestBreaks(newer)
  {
    var all := older + newer;
    if |all| > BREAKS_KEPT {
      assert all[|all| - BREAKS_KEPT..] == newer[|newer| - BREAKS_KEPT..];
    }
  }
}
