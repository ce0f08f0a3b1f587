/** What the kept part of the log says about the whole chain it was replayed from. */
module TransparencyTheorems {
  import opened Wrappers
  import opened Transparency

  // --- chains -------------------------------------------------------------------------

  /** The head a chain had at an index. */
  function HeadAt(h: Hashing, chain: seq<LogEntry>, i: nat): LogHead
    requires i <= |chain|
  {
    if i == 0 then EMPTY else HeadOf(h, chain[i - 1])
  }

  predicate OnChain(h: Hashing, chain: seq<LogEntry>, head: LogHead) {
    head.index <= |chain| && head == HeadAt(h, chain, head.index)
  }

  lemma {:induction false} ChainsConcat(h: Hashing, head: LogHead, a: seq<LogEntry>, b: seq<LogEntry>)
    ensures Chains(h, head, a + b) <==> Chains(h, head, a) && Chains(h, End(h, head, a), b)
    decreases |a|
  {
    if a == [] {
      assert a + b == b;
    } else {
      assert (a + b)[1..] == a[1..] + b;
      ChainsConcat(h, HeadOf(h, a[0]), a[1..], b);
    }
  }

  lemma {:induction false} ChainsSnoc(h: Hashing, head: LogHead, entries: seq<LogEntry>)
    requires entries != []
    ensures Chains(h, head, entries) <==>
            && Chains(h, head, entries[..|entries| - 1])
            && Follows(entries[|entries| - 1], End(h, head, entries[..|entries| - 1]))
  {
    var init, last := entries[..|entries| - 1], [entries[|entries| - 1]];
    assert entries == init + last;
    ChainsConcat(h, head, init, last);
  }

  lemma {:induction false} ChainEnds(h: Hashing, head: LogHead, entries: seq<LogEntry>)
    requires Chains(h, head, entries)
    ensures End(h, head, entries).index == head.index + |entries|
  {
    if entries != [] {
      ChainsSnoc(h, head, entries);
      ChainEnds(h, head, entries[..|entries| - 1]);
    }
  }

  lemma {:induction false} ChainPrefix(h: Hashing, head: LogHead, entries: seq<LogEntry>, k: nat)
    requires Chains(h, head, entries) && k <= |entries|
    ensures Chains(h, head, entries[..k]) && Chains(h, End(h, head, entries[..k]), entries[k..])
  {
    assert entries == entries[..k] + entries[k..];
    ChainsConcat(h, head, entries[..k], entries[k..]);
  }

  /** The `i`th entry of a replayed chain has index `i`. */
  lemma {:induction false} HeadAtIndex(h: Hashing, chain: seq<LogEntry>, i: nat)
    requires Chains(h, EMPTY, chain) && i <= |chain|
    ensures HeadAt(h, chain, i).index == i && HeadAt(h, chain, i) == End(h, EMPTY, chain[..i])
  {
    ChainPrefix(h, EMPTY, chain, i);
    ChainEnds(h, EMPTY, chain[..i]);
  }

  // --- a segment between two held heads -------------------------------------------------

  ghost predicate Injective(h: Hashing) {
    forall a, b :: h(a) == h(b) ==> a == b
  }

  lemma {:induction false} ChainLinks(h: Hashing, chain: seq<LogEntry>, k: nat)
    requires Chains(h, EMPTY, chain) && k < |chain|
    ensures Follows(chain[k], HeadAt(h, chain, k)) && HeadAt(h, chain, k).index == k
  {
    ChainPrefix(h, EMPTY, chain, k);
    HeadAtIndex(h, chain, k);
  }

  lemma {:induction false} LastOfSegment(h: Hashing, chain: seq<LogEntry>, from: LogHead, seen: seq<LogEntry>, k: nat)
    requires Injective(h) && Chains(h, EMPTY, chain) && k < |chain|
    requires seen != [] && Chains(h, from, seen) && End(h, from, seen) == HeadAt(h, chain, k + 1)
    requires from.index + |seen| == k + 1
    ensures seen[|seen| - 1] == chain[k]
    ensures Chains(h, from, seen[..|seen| - 1]) && End(h, from, seen[..|seen| - 1]) == HeadAt(h, chain, k)
  {
    ChainsSnoc(h, from, seen);
    ChainLinks(h, chain, k);
    ChainEnds(h, from, seen[..|seen| - 1]);
  }

  /** Entries that chain from a head we replayed to one we replayed are the ones
      we replayed, however they were paged. */
  lemma {:induction false} SegmentIsReplayed(h: Hashing, chain: seq<LogEntry>, i: nat, seen: seq<LogEntry>)
    requires Injective(h) && Chains(h, EMPTY, chain) && i + |seen| <= |chain|
    requires Chains(h, HeadAt(h, chain, i), seen)
    requires End(h, HeadAt(h, chain, i), seen) == HeadAt(h, chain, i + |seen|)
    ensures seen == chain[i..i + |seen|]
    decreases |seen|
  {
    if seen != [] {
      var n := |seen| - 1;
      HeadAtIndex(h, chain, i);
      LastOfSegment(h, chain, HeadAt(h, chain, i), seen, i + n);
      SegmentIsReplayed(h, chain, i, seen[..n]);
      assert seen == seen[..n] + [seen[n]];
    }
  }

  // --- the state a chain leaves ------------------------------------------------------------

  function StateOf(h: Hashing, chain: seq<LogEntry>): LogState {
    NotedAll(h, FRESH, chain)
  }

  lemma {:induction false} NotedAllConcat(h: Hashing, s: LogState, a: seq<LogEntry>, b: seq<LogEntry>)
    ensures NotedAll(h, s, a + b) == NotedAll(h, NotedAll(h, s, a), b)
    decreases |b|
  {
    if b == [] {
      assert a + b == a;
    } else {
      var init := b[..|b| - 1];
      assert (a + b)[..|a + b| - 1] == a + init;
      NotedAllConcat(h, s, a, init);
    }
  }

  lemma {:induction false} StateHead(h: Hashing, chain: seq<LogEntry>)
    ensures StateOf(h, chain).head == End(h, EMPTY, chain)
  {
  }

  /** Replaying a page: it is taken exactly when it chains onto the head, and
      then the state is that of the longer chain. */
  lemma {:induction false} ApplyReplays(h: Hashing, chain: seq<LogEntry>, entries: seq<LogEntry>)
    requires Chains(h, EMPTY, chain)
    ensures Apply(h, StateOf(h, chain), entries).Ok? <==> Chains(h, EMPTY, chain + entries)
    ensures Apply(h, StateOf(h, chain), entries).Ok? ==>
              Apply(h, StateOf(h, chain), entries).value == StateOf(h, chain + entries)
  {
    StateHead(h, chain);
    ChainsConcat(h, EMPTY, chain, entries);
    NotedAllConcat(h, FRESH, chain, entries);
  }

  predicate Ascending(cs: seq<LogHead>) {
    forall j, k | 0 <= j < k < |cs| :: cs[j].index < cs[k].index
  }

  predicate AllOnChain(h: Hashing, chain: seq<LogEntry>, cs: seq<LogHead>) {
    forall c | c in cs :: 0 < c.index && OnChain(h, chain, c) && KeepsCheckpoint(|chain|, c.index)
  }

  predicate HasEvery(h: Hashing, chain: seq<LogEntry>, cs: seq<LogHead>) {
    forall i: nat | 0 < i <= |chain| && KeepsCheckpoint(|chain|, i) :: HeadAt(h, chain, i) in cs
  }

  lemma {:induction false} ThinnedMembers(top: nat, cs: seq<LogHead>)
    ensures forall c :: c in Thinned(top, cs) <==> c in cs && KeepsCheckpoint(top, c.index)
  {
    if cs != [] {
      ThinnedMembers(top, cs[..|cs| - 1]);
      assert cs == cs[..|cs| - 1] + [cs[|cs| - 1]];
    }
  }

  lemma {:induction false} AscendingSnoc(cs: seq<LogHead>, c: LogHead)
    requires Ascending(cs) && forall x | x in cs :: x.index < c.index
    ensures Ascending(cs + [c])
  {
  }

  lemma {:induction false} ThinnedAscending(top: nat, cs: seq<LogHead>)
    requires Ascending(cs)
    ensures Ascending(Thinned(top, cs))
  {
    if cs != [] {
      var init, last := cs[..|cs| - 1], cs[|cs| - 1];
      ThinnedAscending(top, init);
      ThinnedMembers(top, init);
      assert forall j | 0 <= j < |init| :: init[j].index < last.index;
      AscendingSnoc(Thinned(top, init), last);
    }
  }

  lemma {:induction false} KeepsEarlier(top: nat, index: nat)
    requires KeepsCheckpoint(top + 1, index)
    ensures KeepsCheckpoint(top, index)
  {
  }

  /** The checkpoints kept: exactly those heads of the chain in the dense window
      or at a sparse index, in order. */
  lemma {:induction false} CheckpointsAre(h: Hashing, chain: seq<LogEntry>)
    requires Chains(h, EMPTY, chain)
    ensures var cs := StateOf(h, chain).checkpoints;
            Ascending(cs) && AllOnChain(h, chain, cs) && HasEvery(h, chain, cs)
  {
    if chain != [] {
      var init, e := chain[..|chain| - 1], chain[|chain| - 1];
      ChainsSnoc(h, EMPTY, chain);
      CheckpointsAre(h, init);
      HeadAtIndex(h, chain, |chain|);
      var was := StateOf(h, init).checkpoints;
      assert forall c | c in was :: OnChain(h, init, c);
      AscendingSnoc(was, HeadOf(h, e));
      ThinnedAscending(e.index, was + [HeadOf(h, e)]);
      ThinnedOnChain(h, chain, was);
      ThinnedHasEvery(h, chain, was);
    }
  }

  lemma {:induction false} ThinnedOnChain(h: Hashing, chain: seq<LogEntry>, was: seq<LogHead>)
    requires chain != [] && AllOnChain(h, chain[..|chain| - 1], was)
    requires HeadAt(h, chain, |chain|).index == |chain|
    ensures AllOnChain(h, chain, Thinned(|chain|, was + [HeadOf(h, chain[|chain| - 1])]))
  {
    var top := HeadOf(h, chain[|chain| - 1]);
    ThinnedMembers(|chain|, was + [top]);
    forall c | c in Thinned(|chain|, was + [top]) ensures 0 < c.index && OnChain(h, chain, c) {
      if c in was {
        assert OnChain(h, chain[..|chain| - 1], c);
      }
    }
  }

  lemma {:induction false} ThinnedHasEvery(h: Hashing, chain: seq<LogEntry>, was: seq<LogHead>)
    requires chain != [] && HasEvery(h, chain[..|chain| - 1], was) && Chains(h, EMPTY, chain)
    ensures HasEvery(h, chain, Thinned(|chain|, was + [HeadOf(h, chain[|chain| - 1])]))
  {
    var init, more := chain[..|chain| - 1], was + [HeadOf(h, chain[|chain| - 1])];
    ThinnedMembers(|chain|, more);
    forall i: nat | 0 < i <= |chain| && KeepsCheckpoint(|chain|, i)
      ensures HeadAt(h, chain, i) in Thinned(|chain|, more)
    {
      HeadAtIndex(h, chain, i);
      if i == |chain| {
        assert more[|was|] == HeadAt(h, chain, i);
      } else {
        KeepsEarlier(|init|, i);
        assert HeadAt(h, init, i) in was;
        assert HeadAt(h, init, i) == HeadAt(h, chain, i);
      }
    }
  }

  lemma {:induction false} FindCheckpointIs(cs: seq<LogHead>, index: nat)
    ensures match FindCheckpoint(cs, index)
            case Some(hash) => LogHead(index, hash) in cs
            case None => forall c | c in cs :: c.index != index
  {
    if cs != [] {
      FindCheckpointIs(cs[..|cs| - 1], index);
      assert cs == cs[..|cs| - 1] + [cs[|cs| - 1]];
    }
  }

  /** The hash held for an index is the chain's, and one is held exactly for the
      head, the start, the dense window and the sparse indices. */
  lemma {:induction false} HashAtIs(h: Hashing, chain: seq<LogEntry>, index: nat)
    requires Chains(h, EMPTY, chain) && index <= |chain|
    ensures var s := StateOf(h, chain);
            && (HashAt(s, index).Some? <==> index == 0 || index == |chain| || KeepsCheckpoint(|chain|, index))
            && (HashAt(s, index).Some? ==> HashAt(s, index).value == HeadAt(h, chain, index).hash)
  {
    var s := StateOf(h, chain);
    StateHead(h, chain);
    ChainEnds(h, EMPTY, chain);
    CheckpointsAre(h, chain);
    FindCheckpointIs(s.checkpoints, index);
    HeadAtIndex(h, chain, index);
    assert chain[..|chain|] == chain;
    HeadAtIndex(h, chain, |chain|);
    var found := FindCheckpoint(s.checkpoints, index);
    if found.Some? {
      assert OnChain(h, chain, LogHead(index, found.value));
    }
  }

  lemma {:induction false} CountToIs(cs: seq<LogHead>, index: nat)
    requires Ascending(cs)
    ensures var n := CountTo(cs, index);
            && (forall j | 0 <= j < n :: cs[j].index <= index)
            && (forall j | n <= j < |cs| :: cs[j].index > index)
  {
    if cs != [] && cs[0].index <= index {
      CountToIs(cs[1..], index);
      assert forall j | 1 <= j < |cs| :: cs[j] == cs[1..][j - 1];
    }
  }

  lemma {:induction false} BelowIs(h: Hashing, chain: seq<LogEntry>, s: LogState, index: nat)
    requires Ascending(s.checkpoints) && AllOnChain(h, chain, s.checkpoints)
    requires index > 0 && FindCheckpoint(s.checkpoints, index).None?
    ensures OnChain(h, chain, CheckpointBelow(s, index)) && CheckpointBelow(s, index).index < index
  {
    FindCheckpointIs(s.checkpoints, index);
    CountToIs(s.checkpoints, index);
    var n := CountTo(s.checkpoints, index);
    if n > 0 {
      assert s.checkpoints[n - 1] in s.checkpoints;
    }
  }

  lemma {:induction false} AboveIs(h: Hashing, chain: seq<LogEntry>, s: LogState, index: nat)
    requires Ascending(s.checkpoints) && AllOnChain(h, chain, s.checkpoints) && OnChain(h, chain, s.head)
    requires 0 < index < s.head.index && FindCheckpoint(s.checkpoints, index).None?
    ensures OnChain(h, chain, CheckpointAbove(s, index)) && index < CheckpointAbove(s, index).index
  {
    FindCheckpointIs(s.checkpoints, index);
    CountToIs(s.checkpoints, index - 1);
    var n := CountTo(s.checkpoints, index - 1);
    if n < |s.checkpoints| {
      assert s.checkpoints[n] in s.checkpoints;
    }
  }

  /** For an index no hash is held for, the heads either side of it are on the
      chain, one strictly below and one strictly above. */
  lemma {:induction false} BracketIs(h: Hashing, chain: seq<LogEntry>, index: nat)
    requires Chains(h, EMPTY, chain) && index <= |chain| && HashAt(StateOf(h, chain), index).None?
    ensures var s := StateOf(h, chain);
            var from, until := CheckpointBelow(s, index), CheckpointAbove(s, index);
            OnChain(h, chain, from) && OnChain(h, chain, until) && from.index < index < until.index
  {
    var s := StateOf(h, chain);
    StateHead(h, chain);
    assert chain[..|chain|] == chain;
    HeadAtIndex(h, chain, |chain|);
    CheckpointsAre(h, chain);
    BelowIs(h, chain, s, index);
    AboveIs(h, chain, s, index);
  }

  /** A contact's head at or below ours, compared with the whole chain. */
  lemma {:induction false} CheckPeerHeadIs(h: Hashing, chain: seq<LogEntry>, head: LogHead)
    requires Chains(h, EMPTY, chain)
    ensures match CheckPeerHead(StateOf(h, chain), head)
            case Ahead => head.index > |chain|
            case Consistent => OnChain(h, chain, head)
            case Forked(at) => at == head.index <= |chain| && !OnChain(h, chain, head)
            case NeedEntries(from, until) =>
              && head.index <= |chain| && OnChain(h, chain, from) && OnChain(h, chain, until)
              && from.index < head.index < until.index
  {
    StateHead(h, chain);
    ChainEnds(h, EMPTY, chain);
    if head.index <= |chain| {
      HashAtIs(h, chain, head.index);
      HeadAtIndex(h, chain, head.index);
      if HashAt(StateOf(h, chain), head.index).None? {
        BracketIs(h, chain, head.index);
      }
    }
  }

  // --- where an identity last appears ------------------------------------------------------------

  /** The last entry about `subject` that `kind` takes in. */
  function LastEntry(chain: seq<LogEntry>, subject: Hash, kind: Option<EntryKind>): Option<LogPosition> {
    if chain == [] then None
    else
      var e := chain[|chain| - 1];
      if e.subject == subject && (kind.None? || kind.value == e.kind) then Some(LogPosition(e.index, e.leaf))
      else LastEntry(chain[..|chain| - 1], subject, kind)
  }

  function LastKind(chain: seq<LogEntry>, subject: Hash): Option<EntryKind> {
    if chain == [] then None
    else if chain[|chain| - 1].subject == subject then Some(chain[|chain| - 1].kind)
    else LastKind(chain[..|chain| - 1], subject)
  }

  lemma {:induction false} LatestIs(h: Hashing, chain: seq<LogEntry>, subject: Hash)
    ensures var latest := LatestOf(StateOf(h, chain), subject);
            && latest.last == (match LastEntry(chain, subject, None)
                               case Some(p) => p
                               case None => LogPosition(0, 0))
            && latest.kind == LastKind(chain, subject)
            && latest.bundle == LastEntry(chain, subject, Some(BundleEntry))
            && latest.revocation == LastEntry(chain, subject, Some(RevocationEntry))
            && latest.succession == LastEntry(chain, subject, Some(SuccessionEntry))
  {
    if chain != [] {
      LatestIs(h, chain[..|chain| - 1], subject);
    }
  }

  predicate Bears(logged: Option<LogPosition>, served: Option<Hash>) {
    match logged
    case Some(position) => served == Some(position.leaf)
    case None => served.None?
  }

  /** A lookup passes exactly when the log bears it out: a bundle is the latest
      logged one, a revocation is served if and only if it is the logged one,
      and so is a succession unless the identity is revoked. */
  lemma {:induction false} LookupPassesIff(h: Hashing, chain: seq<LogEntry>, subject: Hash, shown: Shown)
    ensures CheckLookup(StateOf(h, chain), subject, shown).None? <==>
            && (shown.claimed.Some? ==>
                  shown.claimed.value == (match LastEntry(chain, subject, None)
                                          case Some(p) => p
                                          case None => LogPosition(0, 0)))
            && (shown.bundle.Some? ==> Bears(LastEntry(chain, subject, Some(BundleEntry)), shown.bundle))
            && Bears(LastEntry(chain, subject, Some(RevocationEntry)), shown.revocation)
            && (LastEntry(chain, subject, Some(RevocationEntry)).None? ==>
                  Bears(LastEntry(chain, subject, Some(SuccessionEntry)), shown.succession))
  {
    LatestIs(h, chain, subject);
  }
}
