/**
 Cutting a device snapshot to what a file may be (`linking.rs`): a greedy
 estimate of how far back the history can go, then a loop that drops the
 oldest lines and measures again until the document fits.

 The JSON writer is a parameter: nothing here depends on how long it makes a
 document, only on its being a function of the document.
 */
module SnapshotCut {
  import opened Wrappers

  const U64_MAX: int := 0xffff_ffff_ffff_ffff

  type U64 = n: int | 0 <= n <= U64_MAX
  type Bytes = seq<bv8>

  datatype Line = Line(timestamp: U64, text: string)

  /** One conversation of the history, lines oldest first. */
  datatype Conversation = Conversation(with: string, lines: seq<Line>)

  /** `rest` is the contacts, the blocked ids and the groups. The two
      histories are ordered maps, by their keys. */
  datatype Snapshot = Snapshot(rest: string, history: seq<Conversation>, groupHistory: seq<Conversation>)

  datatype CutError = ContactsTooLarge

  /** How documents and single lines are written out. */
  datatype Writer = Writer(document: Snapshot -> Bytes, line: Line -> Bytes)

  // --- what a cut keeps -------------------------------------------------------

  function KeepLines(lines: seq<Line>, oldest: nat): seq<Line> {
    if lines == [] then []
    else (if lines[0].timestamp >= oldest then [lines[0]] else []) + KeepLines(lines[1..], oldest)
  }

  /** The lines from `oldest` on; a conversation with none left goes. */
  function KeepHistory(history: seq<Conversation>, oldest: nat): seq<Conversation> {
    if history == [] then []
    else
      var kept := KeepLines(history[0].lines, oldest);
      (if kept == [] then [] else [history[0].(lines := kept)]) + KeepHistory(history[1..], oldest)
  }

  /** `whole` without the lines older than `oldest`. */
  function CutAt(whole: Snapshot, oldest: nat): Snapshot {
    whole.(history := KeepHistory(whole.history, oldest), groupHistory := KeepHistory(whole.groupHistory, oldest))
  }

  function Bare(whole: Snapshot): Snapshot {
    whole.(history := [], groupHistory := [])
  }

  function LinesOf(history: seq<Conversation>): seq<Line> {
    if history == [] then [] else history[0].lines + LinesOf(history[1..])
  }

  /** Every line of every conversation. */
  function AllLines(s: Snapshot): seq<Line> {
    LinesOf(s.history) + LinesOf(s.groupHistory)
  }

  lemma {:induction false} KeepLinesExactly(lines: seq<Line>, oldest: nat)
    ensures forall l :: l in KeepLines(lines, oldest) <==> l in lines && l.timestamp >= oldest
  {
    if lines != [] {
      KeepLinesExactly(lines[1..], oldest);
    }
  }

  lemma {:induction false} KeepHistoryExactly(history: seq<Conversation>, oldest: nat)
    ensures forall l :: l in LinesOf(KeepHistory(history, oldest)) <==> l in LinesOf(history) && l.timestamp >= oldest
  {
    if history != [] {
      KeepLinesExactly(history[0].lines, oldest);
      KeepHistoryExactly(history[1..], oldest);
      var kept := KeepLines(history[0].lines, oldest);
      if kept != [] {
        assert KeepHistory(history, oldest)[1..] == KeepHistory(history[1..], oldest);
      } else {
        assert KeepHistory(history, oldest) == KeepHistory(history[1..], oldest);
        assert forall l | l in history[0].lines :: l !in kept;
      }
    }
  }

  /** A cut keeps the contacts and everything beside the history, and of the
      lines exactly those from `oldest` on: no line it drops, in whatever
      conversation, is as new as one it keeps. */
  lemma {:induction false} CutKeepsNewest(whole: Snapshot, oldest: nat, kept: Line, dropped: Line)
    requires kept in AllLines(CutAt(whole, oldest))
    requires dropped in AllLines(whole) && dropped !in AllLines(CutAt(whole, oldest))
    ensures CutAt(whole, oldest).rest == whole.rest
    ensures kept in AllLines(whole) && dropped.timestamp < kept.timestamp
  {
    KeepHistoryExactly(whole.history, oldest);
    KeepHistoryExactly(whole.groupHistory, oldest);
  }

  lemma {:induction false} KeepLinesTwice(lines: seq<Line>, a: nat, b: nat)
    requires a <= b
    ensures KeepLines(KeepLines(lines, a), b) == KeepLines(lines, b)
  {
    if lines != [] {
      KeepLinesTwice(lines[1..], a, b);
      if lines[0].timestamp >= a {
        assert KeepLines(lines, a)[1..] == KeepLines(lines[1..], a);
      } else {
        assert KeepLines(lines, a) == KeepLines(lines[1..], a);
      }
    }
  }

  lemma {:induction false} KeepHistoryTwice(history: seq<Conversation>, a: nat, b: nat)
    requires a <= b
    ensures KeepHistory(KeepHistory(history, a), b) == KeepHistory(history, b)
  {
    if history != [] {
      KeepLinesTwice(history[0].lines, a, b);
      KeepHistoryTwice(history[1..], a, b);
      if KeepLines(history[0].lines, a) != [] {
        assert KeepHistory(history, a)[1..] == KeepHistory(history[1..], a);
      } else {
        assert KeepHistory(history, a) == KeepHistory(history[1..], a);
      }
    }
  }

  lemma {:induction false} KeepNothing(history: seq<Conversation>)
    ensures KeepHistory(history, U64_MAX + 1) == []
  {
    if history != [] {
      KeepNoLines(history[0].lines);
      KeepNothing(history[1..]);
    }
  }

  lemma {:induction false} KeepNoLines(lines: seq<Line>)
    ensures KeepLines(lines, U64_MAX + 1) == []
  {
    if lines != [] {
      KeepNoLines(lines[1..]);
    }
  }

  // --- the greedy estimate -----------------------------------------------------

  datatype Cost = Cost(timestamp: U64, size: nat)

  function InsertNewest(c: Cost, cs: seq<Cost>): seq<Cost> {
    if cs == [] || c.timestamp >= cs[0].timestamp then [c] + cs else [cs[0]] + InsertNewest(c, cs[1..])
  }

  /** Newest first; what `sort_by_key` with `Reverse` gives. */
  function NewestFirst(cs: seq<Cost>): seq<Cost> {
    if cs == [] then [] else InsertNewest(cs[0], NewestFirst(cs[1..]))
  }

  predicate Newest(cs: seq<Cost>) {
    forall i, j | 0 <= i < j < |cs| :: cs[i].timestamp >= cs[j].timestamp
  }

  lemma {:induction false} InsertNewestKeeps(c: Cost, cs: seq<Cost>)
    ensures multiset(InsertNewest(c, cs)) == multiset(cs) + multiset{c}
    ensures forall x | x in InsertNewest(c, cs) :: x == c || x in cs
  {
    if cs != [] && c.timestamp < cs[0].timestamp {
      InsertNewestKeeps(c, cs[1..]);
      assert cs == [cs[0]] + cs[1..];
    }
  }

  lemma {:induction false} InsertNewestSorts(c: Cost, cs: seq<Cost>)
    requires Newest(cs)
    ensures Newest(InsertNewest(c, cs))
  {
    if cs != [] && c.timestamp < cs[0].timestamp {
      InsertNewestSorts(c, cs[1..]);
      InsertNewestKeeps(c, cs[1..]);
      assert forall x | x in cs[1..] :: x.timestamp <= cs[0].timestamp;
    }
  }

  lemma {:induction false} NewestFirstSorts(cs: seq<Cost>)
    ensures Newest(NewestFirst(cs)) && multiset(NewestFirst(cs)) == multiset(cs)
  {
    if cs != [] {
      NewestFirstSorts(cs[1..]);
      InsertNewestSorts(cs[0], NewestFirst(cs[1..]));
      InsertNewestKeeps(cs[0], NewestFirst(cs[1..]));
      assert cs == [cs[0]] + cs[1..];
    }
  }

  function Total(cs: seq<Cost>): nat {
    if cs == [] then 0 else Total(cs[..|cs| - 1]) + cs[|cs| - 1].size
  }

  /** The newest lines that fit `cap` beside `start` bytes, as many as fit:
      `n` of them, and the age the last of them sets. */
  ghost predicate Fill(costs: seq<Cost>, start: nat, cap: nat, n: nat, oldest: U64) {
    && n <= |costs|
    && (n > 0 ==> start + Total(costs[..n]) <= cap && oldest == costs[n - 1].timestamp)
    && (n == 0 ==> oldest == U64_MAX)
    && (n < |costs| ==> start + Total(costs[..n + 1]) > cap)
  }

  method FillNewest(costs: seq<Cost>, start: nat, cap: nat) returns (oldest: U64)
    ensures exists n :: Fill(costs, start, cap, n, oldest)
  {
    var total := start;
    oldest := U64_MAX;
    var n := 0;
    while n < |costs|
      invariant n <= |costs| && total == start + Total(costs[..n])
      invariant n > 0 ==> total <= cap && oldest == costs[n - 1].timestamp
      invariant n == 0 ==> oldest == U64_MAX
    {
      assert costs[..n + 1][..n] == costs[..n];
      if total + costs[n].size > cap {
        assert Fill(costs, start, cap, n, oldest);
        return;
      }
      total := total + costs[n].size;
      oldest := costs[n].timestamp;
      n := n + 1;
    }
    assert Fill(costs, start, cap, n, oldest);
  }

  // --- measuring again -----------------------------------------------------------

  /** The oldest timestamp above `oldest` among `lines`. */
  function NextAbove(lines: seq<Line>, oldest: nat): (r: Option<U64>)
    ensures r.None? ==> forall l | l in lines :: l.timestamp <= oldest
    ensures r.Some? ==>
              && r.value > oldest
              && (exists l | l in lines :: l.timestamp == r.value)
              && forall l | l in lines && l.timestamp > oldest :: r.value <= l.timestamp
  {
    if lines == [] then None
    else
      var rest := NextAbove(lines[1..], oldest);
      var at := lines[0].timestamp;
      if at > oldest && (rest.None? || at < rest.value) then Some(at) else rest
  }

  /** Some line is exactly that old. */
  ghost predicate Aged(lines: seq<Line>, t: nat) {
    exists l | l in lines :: l.timestamp == t
  }

  /** Whether a cut at a given age is still too long. */
  function TooLong(whole: Snapshot, w: Writer, cap: nat): nat -> bool {
    (t: nat) => |w.document(CutAt(whole, t))| > cap
  }

  /** No cut at an age from `start` up to `oldest` fits. */
  ghost predicate NoneFits(lines: seq<Line>, tooLong: nat -> bool, start: nat, oldest: nat) {
    forall t: nat | start <= t < oldest && (t == start || Aged(lines, t)) :: tooLong(t)
  }

  /** `oldest` is where the cut ends: the estimate `start`, or the age of the
      first line above it at which the document fits, none before doing so. */
  ghost predicate FirstFit(whole: Snapshot, w: Writer, cap: nat, start: nat, oldest: nat) {
    && start <= oldest
    && (oldest == start || oldest == U64_MAX + 1 || Aged(AllLines(whole), oldest))
    && NoneFits(AllLines(whole), TooLong(whole, w, cap), start, oldest)
  }

  /** Past an age that does not fit, the next one to try is the next there is. */
  lemma {:induction false} TryNext(lines: seq<Line>, kept: seq<Line>, tooLong: nat -> bool, start: nat, at: nat)
    requires forall l :: l in kept <==> l in lines && l.timestamp >= at
    requires start <= at && NoneFits(lines, tooLong, start, at) && tooLong(at)
    ensures var next := NextAbove(kept, at);
            && (next.None? ==> NoneFits(lines, tooLong, start, U64_MAX + 1))
            && (next.Some? ==> NoneFits(lines, tooLong, start, next.value) && Aged(lines, next.value))
  {
    var next := NextAbove(kept, at);
    if next.Some? {
      var l :| l in kept && l.timestamp == next.value;
      assert l in lines;
    }
  }

  lemma {:induction false} CutMembers(whole: Snapshot, oldest: nat)
    ensures forall l :: l in AllLines(CutAt(whole, oldest)) <==> l in AllLines(whole) && l.timestamp >= oldest
  {
    KeepHistoryExactly(whole.history, oldest);
    KeepHistoryExactly(whole.groupHistory, oldest);
  }

  lemma {:induction false} CutTwice(whole: Snapshot, a: nat, b: nat)
    requires a <= b
    ensures CutAt(CutAt(whole, a), b) == CutAt(whole, b)
  {
    KeepHistoryTwice(whole.history, a, b);
    KeepHistoryTwice(whole.groupHistory, a, b);
  }

  lemma {:induction false} CutAll(whole: Snapshot)
    ensures CutAt(whole, U64_MAX + 1) == Bare(whole)
  {
    KeepNothing(whole.history);
    KeepNothing(whole.groupHistory);
  }

  /** The loop: cut, measure, and move on to the next age while it does not
      fit. It ends because the age rises every time round. */
  method Remeasure(whole: Snapshot, w: Writer, cap: nat, start: U64) returns (bytes: Bytes, ghost oldest: nat)
    requires |w.document(Bare(whole))| <= cap
    ensures |bytes| <= cap
    ensures bytes == w.document(CutAt(whole, oldest)) && FirstFit(whole, w, cap, start, oldest)
  {
    var cut := whole;
    var at: U64 := start;
    while true
      invariant start <= at
      invariant CutAt(cut, at) == CutAt(whole, at)
      invariant at != start ==> Aged(AllLines(whole), at)
      invariant NoneFits(AllLines(whole), TooLong(whole, w, cap), start, at)
      decreases U64_MAX - at
    {
      cut := CutAt(cut, at);
      bytes := w.document(cut);
      if |bytes| <= cap {
        oldest := at;
        return;
      }
      var next := NextAbove(AllLines(cut), at);
      CutMembers(whole, at);
      TryNext(AllLines(whole), AllLines(cut), TooLong(whole, w, cap), start, at);
      if next.None? {
        cut := Bare(cut);
        bytes := w.document(cut);
        CutAll(whole);
        oldest := U64_MAX + 1;
        return;
      }
      CutTwice(whole, at, next.value);
      at := next.value;
    }
  }

  function CostsOf(lines: seq<Line>, w: Writer): seq<Cost> {
    if lines == [] then [] else [Cost(lines[0].timestamp, |w.line(lines[0])| + 1)] + CostsOf(lines[1..], w)
  }

  /** Where the greedy estimate starts from: the document without lines, and
      eighty bytes for the key and brackets of each conversation. */
  function StartSize(whole: Snapshot, w: Writer): nat {
    |w.document(Bare(whole))| + 80 * (|whole.history| + |whole.groupHistory|)
  }

  /** The document as bytes under a cap: whole when it fits, refused exactly
      when not even the contacts do, and otherwise cut at the first age, from
      the greedy estimate on, at which what is left fits. */
  method ToBytesWithin(whole: Snapshot, w: Writer, cap: nat) returns (r: Result<Bytes, CutError>)
    ensures r.Ok? ==> |r.value| <= cap
    ensures r.Err? <==> |w.document(whole)| > cap && |w.document(Bare(whole))| > cap
    ensures |w.document(whole)| <= cap ==> r == Ok(w.document(whole))
    ensures r.Ok? && |w.document(whole)| > cap ==>
              exists n, start: U64, oldest ::
                && Fill(NewestFirst(CostsOf(AllLines(whole), w)), StartSize(whole, w), cap, n, start)
                && FirstFit(whole, w, cap, start, oldest)
                && r.value == w.document(CutAt(whole, oldest))
  {
    var bytes := w.document(whole);
    if |bytes| <= cap {
      return Ok(bytes);
    }
    var costs := NewestFirst(CostsOf(AllLines(whole), w));
    var base := |w.document(Bare(whole))|;
    if base > cap {
      return Err(ContactsTooLarge);
    }
    var start := FillNewest(costs, StartSize(whole, w), cap);
    ghost var oldest;
    bytes, oldest := Remeasure(whole, w, cap, start);
    ghost var n :| Fill(costs, StartSize(whole, w), cap, n, start);
    assert FirstFit(whole, w, cap, start, oldest);
    return Ok(bytes);
  }
}
