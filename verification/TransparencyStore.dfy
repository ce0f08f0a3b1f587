/** The client's copy of the log (`transparency.rs`), updated in place. */
module TransparencyStore {
  import opened Wrappers
  import Spec = Transparency

  class LogStore {
    const h: Spec.Hashing
    var head: Spec.LogHead
    var checkpoints: seq<Spec.LogHead>
    var latest: map<Spec.Hash, Spec.Latest>
    var breaks: seq<Spec.Break>

    function State(): Spec.LogState
      reads this
    {
      Spec.LogState(head, checkpoints, latest)
    }

    constructor (h: Spec.Hashing)
      ensures this.h == h && State() == Spec.FRESH && breaks == []
    {
      this.h, breaks := h, [];
      head, checkpoints, latest := Spec.EMPTY, [], map[];
    }

    /** Keep a checkpoint, and thin out what falls behind the dense window. */
    method NoteCheckpoint(top: Spec.LogHead)
      modifies this`checkpoints
      ensures checkpoints == Spec.Thinned(top.index, old(checkpoints) + [top])
    {
      var all := checkpoints + [top];
      var kept: seq<Spec.LogHead> := [];
      for k := 0 to |all|
        invariant kept == Spec.Thinned(top.index, all[..k])
      {
        assert all[..k + 1][..k] == all[..k];
        if Spec.KeepsCheckpoint(top.index, all[k].index) {
          kept := kept + [all[k]];
        }
      }
      assert all[..|all|] == all;
      checkpoints := kept;
    }

    /** Replay a page onto the head; nothing changes on an error. */
    method Apply(entries: seq<Spec.LogEntry>) returns (r: Result<Spec.LogHead, Spec.ReplayError>)
      modifies this`head, this`checkpoints, this`latest
      ensures match Spec.Apply(h, old(State()), entries)
              case Ok(now) => State() == now && r == Ok(now.head)
              case Err(error) => State() == old(State()) && r == Err(error)
    {
      var at := head;
      for k := 0 to |entries|
        invariant Spec.Chains(h, head, entries) <==> Spec.Chains(h, at, entries[k..])
        invariant !Spec.Chains(h, head, entries) ==>
                    Spec.BreakOf(h, head, entries) == Spec.BreakOf(h, at, entries[k..])
        invariant at == Spec.End(h, head, entries[..k])
      {
        assert entries[k..][0] == entries[k] && entries[k..][1..] == entries[k + 1..];
        if !Spec.Follows(entries[k], at) {
          return Err(Spec.Broken(at.index, entries[k].index));
        }
        at := Spec.HeadOf(h, entries[k]);
      }
      assert entries[..|entries|] == entries;
      NoteAll(entries);
      head := at;
      return Ok(at);
    }

    method NoteAll(entries: seq<Spec.LogEntry>)
      modifies this`checkpoints, this`latest
      ensures var now := Spec.NotedAll(h, old(State()), entries);
              checkpoints == now.checkpoints && latest == now.latest
    {
      ghost var was := State();
      for k := 0 to |entries|
        invariant checkpoints == Spec.NotedAll(h, was, entries[..k]).checkpoints
        invariant latest == Spec.NotedAll(h, was, entries[..k]).latest
      {
        assert entries[..k + 1][..k] == entries[..k];
        var e := entries[k];
        var known := if e.subject in latest then latest[e.subject] else Spec.NOWHERE;
        latest := latest[e.subject := Spec.NotedLatest(known, e)];
        NoteCheckpoint(Spec.HeadOf(h, e));
      }
      assert entries[..|entries|] == entries;
    }

    /** Start the replay again, keeping what disagreed. */
    method Reset(rewound: bool, theirs: Spec.LogHead)
      modifies this
      ensures State() == Spec.FRESH
      ensures breaks == Spec.NewestBreaks(
                          old(breaks) + [Spec.Break(rewound, old(head), theirs, old(checkpoints))])
    {
      var all := breaks + [Spec.Break(rewound, head, theirs, checkpoints)];
      ghost var whole := all;
      while |all| > Spec.BREAKS_KEPT
        invariant |all| <= |whole| && all == whole[|whole| - |all|..]
        invariant |whole| > Spec.BREAKS_KEPT ==> |all| >= Spec.BREAKS_KEPT
        invariant |whole| <= Spec.BREAKS_KEPT ==> all == whole
      {
        all := all[1..];
      }
      head, checkpoints, latest, breaks := Spec.EMPTY, [], map[], all;
    }
  }
}
