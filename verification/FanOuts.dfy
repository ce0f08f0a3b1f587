/**
 A message sent to several devices is one envelope per device. `connection.rs`
 keeps which envelopes of a message are still unanswered and reports the
 message once: rejected when the envelope to the recipient's primary is
 refused, sent when the relay has answered for the last of them.
 */
module FanOuts {
  type Id = string

  /** One envelope's place in a message sent to several devices. */
  datatype Copy = Copy(message: Id, account: Id, device: Id, primary: bool)

  datatype FanOut = FanOut(pending: set<Id>, failed: bool)

  datatype Settled = Alone | Waiting | Message(id: Id) | Failed

  datatype Code = RateLimited | NotFound | OtherCode

  datatype Event =
    | Sent(id: Id)
    | Rejected(id: Id)
    | DeviceGone(account: Id, device: Id)
    | Notice

  /** The queues of the connection: the two maps of the fan-outs, the outbox,
      and whether a retry is already scheduled. */
  datatype State = State(copies: map<Id, Copy>, messages: map<Id, FanOut>, outbox: seq<Id>, retrying: bool)

  function Without(outbox: seq<Id>, id: Id): seq<Id> {
    if outbox == [] then []
    else (if outbox[0] == id then [] else [outbox[0]]) + Without(outbox[1..], id)
  }

  function Register(s: State, id: Id, copy: Copy): State {
    var known := if copy.message in s.messages then s.messages[copy.message] else FanOut({}, false);
    s.(copies := s.copies[id := copy],
       messages := s.messages[copy.message := known.(pending := known.pending + {id})])
  }

  function Fail(s: State, message: Id): State {
    if message in s.messages
    then s.(messages := s.messages[message := s.messages[message].(failed := true)])
    else s
  }

  /** The relay answered for `id`, one way or the other. */
  function Done(s: State, id: Id): (State, Settled) {
    if id !in s.copies then (s, Alone)
    else
      var message := s.copies[id].message;
      var rest := s.(copies := s.copies - {id});
      if message !in s.messages then (rest, Alone)
      else
        var pending := s.messages[message].pending - {id};
        if pending != {}
        then (rest.(messages := s.messages[message := s.messages[message].(pending := pending)]), Waiting)
        else
          (rest.(messages := s.messages - {message}), if s.messages[message].failed then Failed else Message(message))
  }

  function Accepted(s: State, id: Id): (State, seq<Event>) {
    var (after, settled) := Done(s.(outbox := Without(s.outbox, id)), id);
    (after,
     match settled
     case Alone => [Sent(id)]
     case Message(m) => [Sent(m)]
     case _ => [])
  }

  function Refused(s: State, id: Id, code: Code): (State, seq<Event>) {
    if code == RateLimited then (s.(retrying := true), if s.retrying then [] else [Notice])
    else
      var t := s.(outbox := Without(s.outbox, id));
      if id !in t.copies then (t, [Rejected(id)])
      else
        var copy := t.copies[id];
        var u := if copy.primary then Fail(t, copy.message) else t;
        var told :=
          if copy.primary then Rejected(copy.message)
          else if code == NotFound then DeviceGone(copy.account, copy.device)
          else Notice;
        var (after, settled) := Done(u, id);
        (after, [told] + if settled.Message? then [Sent(settled.id)] else [])
  }

  // --- whole runs -----------------------------------------------------------------

  datatype Op =
    | Registering(id: Id, copy: Copy)
    | Accepting(id: Id)
    | Refusing(id: Id, code: Code)

  /** A verdict on an envelope; rate limiting is not one. */
  predicate Answers(op: Op, id: Id) {
    (op.Accepting? && op.id == id) || (op.Refusing? && op.id == id && op.code != RateLimited)
  }

  function Step(s: State, op: Op): (State, seq<Event>) {
    match op
    case Registering(id, copy) => (Register(s, id, copy), [])
    case Accepting(id) => Accepted(s, id)
    case Refusing(id, code) => Refused(s, id, code)
  }

  function After(s: State, ops: seq<Op>): State {
    if ops == [] then s else Step(After(s, ops[..|ops| - 1]), ops[|ops| - 1]).0
  }

  /** What was reported about the message `m`, over all of `ops`. */
  function Reported(s: State, m: Id, ops: seq<Op>): seq<Event> {
    if ops == [] then []
    else
      var before := ops[..|ops| - 1];
      Reported(s, m, before) + About(m, Step(After(s, before), ops[|ops| - 1]).1)
  }

  function About(m: Id, events: seq<Event>): seq<Event> {
    if events == [] then []
    else (if events[0] == Sent(m) || events[0] == Rejected(m) then [events[0]] else []) + About(m, events[1..])
  }

  predicate Answered(ops: seq<Op>, id: Id) {
    exists k | 0 <= k < |ops| :: Answers(ops[k], id)
  }

  predicate WasRefused(ops: seq<Op>, id: Id) {
    exists k | 0 <= k < |ops| :: ops[k].Refusing? && Answers(ops[k], id)
  }

  ghost function Unanswered(envelopes: set<Id>, ops: seq<Op>): set<Id> {
    set id | id in envelopes && !Answered(ops, id)
  }

  /** The message `m` waits for the envelopes in `pending`. */
  ghost predicate Waits(s: State, m: Id, pending: set<Id>, failed: bool) {
    && (forall id | id in s.copies && s.copies[id].message == m :: id in pending)
    && (forall id | id in pending ::
          id in s.copies && s.copies[id].message == m && (s.copies[id].primary <==> id == m))
    && (if pending == {} then m !in s.messages else m in s.messages && s.messages[m] == FanOut(pending, failed))
  }

  /** What the rest of a run may do: register envelopes of other messages
      under ids of their own, and answer for any envelope, but for each of
      `m`'s at most once. */
  ghost predicate LeavesAlone(m: Id, envelopes: set<Id>, ops: seq<Op>) {
    && (forall k | 0 <= k < |ops| && ops[k].Registering? :: ops[k].id !in envelopes && ops[k].copy.message != m)
    && (forall i, j, id | 0 <= i < j < |ops| && id in envelopes :: !(Answers(ops[i], id) && Answers(ops[j], id)))
  }

  /** Registering an envelope of `m` adds it to what `m` waits for. */
  lemma {:induction false} RegisterWaits(s: State, m: Id, pending: set<Id>, id: Id, copy: Copy)
    requires Waits(s, m, pending, false)
    requires copy.message == m && (copy.primary <==> id == m)
    ensures Waits(Register(s, id, copy), m, pending + {id}, false)
  {
  }

  function IdsOf(ops: seq<Op>): set<Id> {
    if ops == [] then {} else IdsOf(ops[..|ops| - 1]) + {ops[|ops| - 1].id}
  }

  /** Registering the envelopes of a message nothing is known of, in any
      order, makes it wait for all of them. */
  lemma {:induction false} RegisterAll(s: State, m: Id, regs: seq<Op>)
    requires Waits(s, m, {}, false)
    requires forall k | 0 <= k < |regs| ::
               regs[k].Registering? && regs[k].copy.message == m && (regs[k].copy.primary <==> regs[k].id == m)
    ensures Waits(After(s, regs), m, IdsOf(regs), false)
    ensures Reported(s, m, regs) == []
  {
    if regs != [] {
      var before, op := regs[..|regs| - 1], regs[|regs| - 1];
      RegisterAll(s, m, before);
      RegisterWaits(After(s, before), m, IdsOf(before), op.id, op.copy);
    }
  }

  /** An envelope of a message registered after the message has settled is reported
      as the message again, whatever the relay answers for it. */
  lemma {:induction false} LateEnvelopeReportsAgain(s: State, m: Id, id: Id, copy: Copy, answer: Op)
    requires Waits(s, m, {}, false) && copy.message == m && !copy.primary && id != m && Answers(answer, id)
    ensures Reported(s, m, [Registering(id, copy), answer]) == [Sent(m)]
  {
    var ops := [Registering(id, copy), answer];
    assert ops[..1] == [Registering(id, copy)] && ops[..1][..0] == [];
    RegisterWaits(s, m, {}, id, copy);
    assert {} + {id} == {id};
    assert After(s, ops[..1]) == Register(s, id, copy);
    StepAnswers(Register(s, id, copy), m, {id}, false, answer, id);
    assert Reported(s, m, ops[..1]) == [];
  }

  lemma {:induction false} AboutTwo(m: Id, x: Event, ys: seq<Event>)
    requires |ys| <= 1
    ensures About(m, [x] + ys) == About(m, [x]) + About(m, ys)
    ensures About(m, [x]) == if x == Sent(m) || x == Rejected(m) then [x] else []
  {
    assert ([x] + ys)[1..] == ys && [x][1..] == [];
    assert ys != [] ==> ys[1..] == [];
  }

  lemma {:induction false} DoneWithOther(s: State, m: Id, pending: set<Id>, failed: bool, id: Id)
    requires Waits(s, m, pending, failed) && id !in pending
    ensures var (t, settled) := Done(s, id);
            Waits(t, m, pending, failed) && settled != Message(m)
  {
    assert id in s.copies ==> s.copies[id].message != m;
  }

  lemma {:induction false} DoneWithMine(s: State, m: Id, pending: set<Id>, failed: bool, id: Id)
    requires Waits(s, m, pending, failed) && id in pending
    ensures var (t, settled) := Done(s, id);
            && Waits(t, m, pending - {id}, failed)
            && settled == if pending != {id} then Waiting else if failed then Failed else Message(m)
  {
  }

  lemma {:induction false} StepKeepsOthers(s: State, m: Id, pending: set<Id>, failed: bool, op: Op)
    requires Waits(s, m, pending, failed)
    requires op.Registering? ==> op.id !in pending && op.copy.message != m
    requires forall id | id in pending :: !Answers(op, id)
    requires !Answers(op, m)
    ensures Waits(Step(s, op).0, m, pending, failed) && About(m, Step(s, op).1) == []
  {
    match op
    case Registering(id, copy) =>
    case Accepting(id) =>
      DoneWithOther(s.(outbox := Without(s.outbox, id)), m, pending, failed, id);
      AboutTwo(m, Sent(id), []);
      var settled := Done(s.(outbox := Without(s.outbox, id)), id).1;
      if settled.Message? {
        AboutTwo(m, Sent(settled.id), []);
      }
    case Refusing(id, code) =>
      if code == RateLimited {
        AboutTwo(m, Notice, []);
      } else {
        assert Answers(op, id);
        RefusingOther(s, m, pending, failed, id, code);
      }
  }

  lemma {:induction false} RefusingOther(s: State, m: Id, pending: set<Id>, failed: bool, id: Id, code: Code)
    requires Waits(s, m, pending, failed) && id !in pending && id != m && code != RateLimited
    ensures Waits(Refused(s, id, code).0, m, pending, failed) && About(m, Refused(s, id, code).1) == []
  {
    var t := s.(outbox := Without(s.outbox, id));
    AboutTwo(m, Rejected(id), []);
    if id in t.copies {
      var copy := t.copies[id];
      assert copy.message != m;
      var u := if copy.primary then Fail(t, copy.message) else t;
      assert Waits(u, m, pending, failed);
      DoneWithOther(u, m, pending, failed, id);
      var settled := Done(u, id).1;
      var told := Refused(s, id, code).1[0];
      var sent := if settled.Message? then [Sent(settled.id)] else [];
      AboutTwo(m, told, sent);
      if settled.Message? {
        AboutTwo(m, Sent(settled.id), []);
      }
    }
  }

  lemma {:induction false} StepAnswers(s: State, m: Id, pending: set<Id>, failed: bool, op: Op, id: Id)
    requires Waits(s, m, pending, failed) && id in pending && Answers(op, id)
    ensures var refusedNow := op.Refusing? && id == m;
            && Waits(Step(s, op).0, m, pending - {id}, failed || refusedNow)
            && About(m, Step(s, op).1) ==
               (if refusedNow then [Rejected(m)] else if pending == {id} && !failed then [Sent(m)] else [])
  {
    var t := s.(outbox := Without(s.outbox, id));
    if op.Accepting? {
      DoneWithMine(t, m, pending, failed, id);
      AboutTwo(m, Sent(m), []);
    } else {
      var copy := t.copies[id];
      var u := if copy.primary then Fail(t, copy.message) else t;
      var failed' := failed || id == m;
      assert Waits(u, m, pending, failed');
      DoneWithMine(u, m, pending, failed', id);
      var settled := Done(u, id).1;
      var told := Refused(s, id, op.code).1[0];
      var sent := if settled.Message? then [Sent(settled.id)] else [];
      AboutTwo(m, told, sent);
      AboutTwo(m, Sent(m), []);
      assert Step(s, op).1 == [told] + sent;
    }
  }

  /** What has been reported of `m` once `ops` have happened. */
  ghost function Verdict(m: Id, envelopes: set<Id>, ops: seq<Op>): seq<Event> {
    if WasRefused(ops, m) then [Rejected(m)]
    else if Unanswered(envelopes, ops) == {} then [Sent(m)]
    else []
  }

  /** Every order of answers reports a message exactly once: rejected as soon
      as its primary envelope is refused, and otherwise sent at the answer
      that leaves none of its envelopes unanswered, and not before. */
  lemma {:induction false} ReportedOnce(s: State, m: Id, envelopes: set<Id>, ops: seq<Op>)
    requires m in envelopes && Waits(s, m, envelopes, false) && LeavesAlone(m, envelopes, ops)
    ensures Waits(After(s, ops), m, Unanswered(envelopes, ops), WasRefused(ops, m))
    ensures Reported(s, m, ops) == Verdict(m, envelopes, ops)
  {
    if ops == [] {
      assert Unanswered(envelopes, ops) == envelopes;
    } else {
      var n := |ops| - 1;
      var before, op := ops[..n], ops[n];
      assert ops == before + [op];
      ReportedOnce(s, m, envelopes, before);
      AnsweredGrows(before, op);
      if id :| id in envelopes && Answers(op, id) {
        NotAnsweredBefore(ops, envelopes, m, id);
        AnswerReports(After(s, before), m, envelopes, before, op, id);
      } else {
        StepKeepsOthers(After(s, before), m, Unanswered(envelopes, before), WasRefused(before, m), op);
        assert Unanswered(envelopes, ops) == Unanswered(envelopes, before);
      }
    }
  }

  lemma {:induction false} NotAnsweredBefore(ops: seq<Op>, envelopes: set<Id>, m: Id, id: Id)
    requires ops != [] && LeavesAlone(m, envelopes, ops) && id in envelopes && Answers(ops[|ops| - 1], id)
    ensures !Answered(ops[..|ops| - 1], id)
  {
    var before := ops[..|ops| - 1];
    forall k | 0 <= k < |before| ensures !Answers(before[k], id) {
      assert before[k] == ops[k];
    }
  }

  lemma {:induction false} AnswerReports(t: State, m: Id, envelopes: set<Id>, before: seq<Op>, op: Op, id: Id)
    requires m in envelopes && id in envelopes && Answers(op, id) && !Answered(before, id)
    requires Waits(t, m, Unanswered(envelopes, before), WasRefused(before, m))
    ensures var ops := before + [op];
            && Waits(Step(t, op).0, m, Unanswered(envelopes, ops), WasRefused(ops, m))
            && Verdict(m, envelopes, before) + About(m, Step(t, op).1) == Verdict(m, envelopes, ops)
  {
    StepAnswers(t, m, Unanswered(envelopes, before), WasRefused(before, m), op, id);
    VerdictGrows(m, envelopes, before, op, id, About(m, Step(t, op).1));
  }

  /** What one more answer does to what should have been reported. */
  lemma {:induction false} VerdictGrows(m: Id, envelopes: set<Id>, before: seq<Op>, op: Op, id: Id, told: seq<Event>)
    requires m in envelopes && id in envelopes && Answers(op, id) && !Answered(before, id)
    requires told == if op.Refusing? && id == m then [Rejected(m)]
                     else if Unanswered(envelopes, before) == {id} && !WasRefused(before, m) then [Sent(m)] else []
    ensures Unanswered(envelopes, before + [op]) == Unanswered(envelopes, before) - {id}
    ensures WasRefused(before + [op], m) <==> WasRefused(before, m) || (op.Refusing? && id == m)
    ensures Verdict(m, envelopes, before) + told == Verdict(m, envelopes, before + [op])
  {
    AnsweredGrows(before, op);
    var pending := Unanswered(envelopes, before);
    assert Unanswered(envelopes, before + [op]) == pending - {id};
    assert id in pending;
    RefusedIsAnswered(before, m);
  }

  lemma {:induction false} RefusedIsAnswered(ops: seq<Op>, id: Id)
    ensures WasRefused(ops, id) ==> Answered(ops, id)
  {
  }

  lemma {:induction false} AnsweredGrows(before: seq<Op>, op: Op)
    ensures forall id :: Answered(before + [op], id) <==> Answered(before, id) || Answers(op, id)
    ensures forall id :: WasRefused(before + [op], id) <==> WasRefused(before, id) || (op.Refusing? && Answers(op, id))
  {
    var ops := before + [op];
    forall id
      ensures Answered(ops, id) <==> Answered(before, id) || Answers(op, id)
      ensures WasRefused(ops, id) <==> WasRefused(before, id) || (op.Refusing? && Answers(op, id))
    {
      if Answered(before, id) {
        var k :| 0 <= k < |before| && Answers(before[k], id);
        assert Answers(ops[k], id);
      }
      if WasRefused(before, id) {
        var k :| 0 <= k < |before| && before[k].Refusing? && Answers(before[k], id);
        assert ops[k].Refusing? && Answers(ops[k], id);
      }
      if Answers(op, id) {
        assert ops[|before|] == op;
      }
    }
  }
}
