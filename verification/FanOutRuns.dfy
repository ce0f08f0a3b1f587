/**
 A message whose envelopes are registered one at a time, while the relay may
 already be answering for the first of them (`connection.rs`): when it is
 still reported exactly once.
 */
module FanOutRuns {
  import opened FanOuts

  predicate RegistersFor(op: Op, m: Id) {
    op.Registering? && op.copy.message == m
  }

  /** The envelopes of `m` registered so far. */
  function Envelopes(m: Id, ops: seq<Op>): set<Id> {
    if ops == [] then {}
    else
      var before, op := Envelopes(m, ops[..|ops| - 1]), ops[|ops| - 1];
      if RegistersFor(op, m) then before + {op.id} else before
  }

  /** Those of them the relay has not answered for. */
  function Open(m: Id, ops: seq<Op>): set<Id> {
    if ops == [] then {}
    else
      var before, op := Open(m, ops[..|ops| - 1]), ops[|ops| - 1];
      if RegistersFor(op, m) then before + {op.id}
      else if Answers(op, op.id) then before - {op.id}
      else before
  }

  /** How often the last envelope waited for was answered. */
  function Emptied(m: Id, ops: seq<Op>): nat {
    if ops == [] then 0
    else
      Emptied(m, ops[..|ops| - 1]) +
      if Open(m, ops[..|ops| - 1]) != {} && Open(m, ops) == {} then 1 else 0
  }

  predicate RefusesPrimary(op: Op, m: Id) {
    op.Refusing? && Answers(op, m)
  }

  /** The primary was refused while something was waited for, and still is. */
  predicate Failing(m: Id, ops: seq<Op>) {
    ops != [] && Open(m, ops) != {} && (Failing(m, ops[..|ops| - 1]) || RefusesPrimary(ops[|ops| - 1], m))
  }

  /** What step `k` of a run may do, `envelopes` being those of `m`: register one of
      them, under its own id and not twice, and answer for one only after it was
      registered and once; anything else about other messages. */
  predicate ProperAt(m: Id, envelopes: set<Id>, ops: seq<Op>, k: nat)
    requires k < |ops|
  {
    var op, before := ops[k], ops[..k];
    && (RegistersFor(op, m) ==>
          op.id in envelopes && op.id !in Envelopes(m, before) && (op.copy.primary <==> op.id == m))
    && (op.Registering? && op.copy.message != m ==> op.id !in envelopes)
    && (Answers(op, op.id) && op.id in envelopes ==> op.id in Open(m, before))
  }

  predicate Proper(m: Id, envelopes: set<Id>, ops: seq<Op>) {
    m in envelopes && forall k | 0 <= k < |ops| :: ProperAt(m, envelopes, ops, k)
  }

  lemma {:induction false} ProperBefore(m: Id, envelopes: set<Id>, ops: seq<Op>)
    requires ops != [] && Proper(m, envelopes, ops)
    ensures Proper(m, envelopes, ops[..|ops| - 1]) && ProperAt(m, envelopes, ops, |ops| - 1)
  {
    var init := ops[..|ops| - 1];
    forall k | 0 <= k < |init| ensures ProperAt(m, envelopes, init, k) {
      assert ProperAt(m, envelopes, ops, k) && init[..k] == ops[..k];
    }
  }

  lemma {:induction false} OpenWithin(m: Id, envelopes: set<Id>, ops: seq<Op>)
    requires Proper(m, envelopes, ops)
    ensures Open(m, ops) <= Envelopes(m, ops) <= envelopes
    ensures Failing(m, ops) ==> m in Envelopes(m, ops) && m !in Open(m, ops)
    ensures WasRefused(ops, m) ==> m in Envelopes(m, ops) && m !in Open(m, ops)
  {
    if ops != [] {
      var init, op := ops[..|ops| - 1], ops[|ops| - 1];
      ProperBefore(m, envelopes, ops);
      OpenWithin(m, envelopes, init);
      assert ops == init + [op];
      AnsweredGrows(init, op);
    }
  }

  // --- one step ------------------------------------------------------------------------------

  lemma {:induction false} RegisterMore(s: State, m: Id, pending: set<Id>, failed: bool, id: Id, copy: Copy)
    requires Waits(s, m, pending, failed) && copy.message == m && (copy.primary <==> id == m)
    ensures Waits(Register(s, id, copy), m, pending + {id}, pending != {} && failed)
  {
  }

  /** What a step reports of `m`. */
  function Told(m: Id, before: seq<Op>, op: Op): seq<Event> {
    if !Answers(op, op.id) || op.id !in Open(m, before) then []
    else if RefusesPrimary(op, m) then [Rejected(m)]
    else if Open(m, before) == {op.id} && !Failing(m, before) then [Sent(m)]
    else []
  }

  lemma {:induction false} StepTells(s: State, m: Id, envelopes: set<Id>, ops: seq<Op>)
    requires ops != [] && Proper(m, envelopes, ops)
    requires var init := ops[..|ops| - 1]; Waits(s, m, Open(m, init), Failing(m, init))
    ensures var op := ops[|ops| - 1];
            && Waits(Step(s, op).0, m, Open(m, ops), Failing(m, ops))
            && About(m, Step(s, op).1) == Told(m, ops[..|ops| - 1], op)
  {
    var init, op := ops[..|ops| - 1], ops[|ops| - 1];
    ProperBefore(m, envelopes, ops);
    OpenWithin(m, envelopes, init);
    if RegistersFor(op, m) {
      RegisterMore(s, m, Open(m, init), Failing(m, init), op.id, op.copy);
    } else if Answers(op, op.id) && op.id in envelopes {
      StepAnswers(s, m, Open(m, init), Failing(m, init), op, op.id);
    } else {
      StepKeepsOthers(s, m, Open(m, init), Failing(m, init), op);
    }
  }

  // --- whole runs -----------------------------------------------------------------------------

  /** Every time the last envelope waited for is answered, the message has been
      reported once more: by then, or when its primary was refused. */
  lemma {:induction false} ReportsCount(s: State, m: Id, envelopes: set<Id>, ops: seq<Op>)
    requires Waits(s, m, {}, false) && Proper(m, envelopes, ops)
    ensures Waits(After(s, ops), m, Open(m, ops), Failing(m, ops))
    ensures |Reported(s, m, ops)| == Emptied(m, ops) + if Failing(m, ops) then 1 else 0
  {
    if ops != [] {
      var init, op := ops[..|ops| - 1], ops[|ops| - 1];
      ProperBefore(m, envelopes, ops);
      ReportsCount(s, m, envelopes, init);
      StepTells(After(s, init), m, envelopes, ops);
      ToldCount(m, envelopes, ops);
    }
  }

  lemma {:induction false} ToldCount(m: Id, envelopes: set<Id>, ops: seq<Op>)
    requires ops != [] && Proper(m, envelopes, ops)
    ensures var init := ops[..|ops| - 1];
            Emptied(m, init) + (if Failing(m, init) then 1 else 0) + |Told(m, init, ops[|ops| - 1])| ==
            Emptied(m, ops) + if Failing(m, ops) then 1 else 0
  {
    var init := ops[..|ops| - 1];
    ProperBefore(m, envelopes, ops);
    OpenWithin(m, envelopes, init);
  }

  /** Answered for in full at most once, and for good. */
  predicate EmptiesOnce(m: Id, ops: seq<Op>) {
    Emptied(m, ops) == 0 || (Emptied(m, ops) == 1 && Open(m, ops) == {})
  }

  /** Rejected if the primary was refused, otherwise sent once all is answered. */
  function Said(m: Id, ops: seq<Op>): seq<Event> {
    if WasRefused(ops, m) then [Rejected(m)] else if Emptied(m, ops) == 1 then [Sent(m)] else []
  }

  lemma {:induction false} SaidMore(m: Id, envelopes: set<Id>, ops: seq<Op>)
    requires ops != [] && Proper(m, envelopes, ops) && EmptiesOnce(m, ops)
    requires Emptied(m, ops[..|ops| - 1]) == 0 ==>
               (Failing(m, ops[..|ops| - 1]) <==> WasRefused(ops[..|ops| - 1], m))
    ensures EmptiesOnce(m, ops[..|ops| - 1])
    ensures Said(m, ops[..|ops| - 1]) + Told(m, ops[..|ops| - 1], ops[|ops| - 1]) == Said(m, ops)
    ensures Emptied(m, ops) == 0 ==> (Failing(m, ops) <==> WasRefused(ops, m))
  {
    var init, op := ops[..|ops| - 1], ops[|ops| - 1];
    ProperBefore(m, envelopes, ops);
    OpenWithin(m, envelopes, init);
    RefusedMore(m, ops);
    assert op.id in Open(m, init) || !Answers(op, op.id) || op.id !in envelopes;
  }

  lemma {:induction false} RefusedMore(m: Id, ops: seq<Op>)
    requires ops != []
    ensures WasRefused(ops, m) <==> WasRefused(ops[..|ops| - 1], m) || RefusesPrimary(ops[|ops| - 1], m)
  {
    assert ops == ops[..|ops| - 1] + [ops[|ops| - 1]];
    AnsweredGrows(ops[..|ops| - 1], ops[|ops| - 1]);
  }

  lemma {:induction false} ReportsSaid(s: State, m: Id, envelopes: set<Id>, ops: seq<Op>)
    requires Waits(s, m, {}, false) && Proper(m, envelopes, ops) && EmptiesOnce(m, ops)
    ensures Reported(s, m, ops) == Said(m, ops)
    ensures Emptied(m, ops) == 0 ==> (Failing(m, ops) <==> WasRefused(ops, m))
  {
    if ops != [] {
      var init := ops[..|ops| - 1];
      ProperBefore(m, envelopes, ops);
      EmptiesOnceBefore(m, ops);
      ReportsSaid(s, m, envelopes, init);
      ReportsCount(s, m, envelopes, init);
      StepTells(After(s, init), m, envelopes, ops);
      SaidMore(m, envelopes, ops);
    }
  }

  lemma {:induction false} EmptiesOnceBefore(m: Id, ops: seq<Op>)
    requires ops != [] && EmptiesOnce(m, ops)
    ensures EmptiesOnce(m, ops[..|ops| - 1])
  {
  }

  /** From the first registration to the last, something is waited for. */
  predicate Overlaps(m: Id, envelopes: set<Id>, ops: seq<Op>) {
    forall k | 0 <= k <= |ops| :: OverlapsAt(m, envelopes, ops, k)
  }

  predicate OverlapsAt(m: Id, envelopes: set<Id>, ops: seq<Op>, k: nat)
    requires k <= |ops|
  {
    Envelopes(m, ops[..k]) == {} || Envelopes(m, ops[..k]) == envelopes || Open(m, ops[..k]) != {}
  }

  lemma {:induction false} OverlapsEmptiesOnce(m: Id, envelopes: set<Id>, ops: seq<Op>)
    requires Proper(m, envelopes, ops) && Overlaps(m, envelopes, ops)
    ensures Emptied(m, ops) == 0 || (Emptied(m, ops) == 1 && Open(m, ops) == {} && Envelopes(m, ops) == envelopes)
  {
    if ops != [] {
      var init := ops[..|ops| - 1];
      ProperBefore(m, envelopes, ops);
      forall k | 0 <= k <= |init| ensures OverlapsAt(m, envelopes, init, k) {
        assert OverlapsAt(m, envelopes, ops, k) && init[..k] == ops[..k];
      }
      OverlapsEmptiesOnce(m, envelopes, init);
      OpenWithin(m, envelopes, init);
      assert ops[..|ops|] == ops;
      assert OverlapsAt(m, envelopes, ops, |ops|);
    }
  }

  lemma {:induction false} RegisteredOpensOrEmptied(m: Id, ops: seq<Op>)
    ensures Envelopes(m, ops) != {} ==> Emptied(m, ops) > 0 || Open(m, ops) != {}
  {
    if ops != [] {
      RegisteredOpensOrEmptied(m, ops[..|ops| - 1]);
    }
  }

  /** After everything was answered, another registration means being answered in
      full once more. */
  lemma {:induction false} EmptiedAgain(m: Id, ops: seq<Op>, k: nat)
    requires k <= |ops| && Open(m, ops[..k]) == {}
    ensures Emptied(m, ops) >= Emptied(m, ops[..k])
    ensures Envelopes(m, ops) != Envelopes(m, ops[..k]) ==>
              Emptied(m, ops) > Emptied(m, ops[..k]) || Open(m, ops) != {}
  {
    if k == |ops| {
      assert ops[..k] == ops;
    } else {
      var init := ops[..|ops| - 1];
      assert init[..k] == ops[..k];
      EmptiedAgain(m, init, k);
    }
  }

  /** For every interleaving in which each envelope of a message is registered once
      and answered once after that: the message is reported exactly once if and
      only if, from its first registration to its last, some envelope of it is
      always waited for; and then it is rejected if its primary was refused and
      sent if not. */
  lemma {:induction false} ReportedOnceIff(s: State, m: Id, ops: seq<Op>)
    requires Waits(s, m, {}, false) && Proper(m, Envelopes(m, ops), ops) && Open(m, ops) == {}
    ensures |Reported(s, m, ops)| == 1 <==> Overlaps(m, Envelopes(m, ops), ops)
    ensures Overlaps(m, Envelopes(m, ops), ops) ==>
              Reported(s, m, ops) == [if WasRefused(ops, m) then Rejected(m) else Sent(m)]
  {
    var envelopes := Envelopes(m, ops);
    ReportsCount(s, m, envelopes, ops);
    RegisteredOpensOrEmptied(m, ops);
    if Overlaps(m, envelopes, ops) {
      OverlapsEmptiesOnce(m, envelopes, ops);
      ReportsSaid(s, m, envelopes, ops);
    } else {
      var k :| 0 <= k <= |ops| && !OverlapsAt(m, envelopes, ops, k);
      RegisteredOpensOrEmptied(m, ops[..k]);
      EmptiedAgain(m, ops, k);
    }
  }
}
