/** The same, as the connection task does it to its queues. */
module FanOutQueues {
  import opened FanOuts

  class Queues {
    var copies: map<Id, Copy>
    var messages: map<Id, FanOut>
    var outbox: seq<Id>
    var retrying: bool

    ghost function View(): State
      reads this
    {
      State(copies, messages, outbox, retrying)
    }

    constructor ()
      ensures View() == State(map[], map[], [], false)
    {
      copies, messages, outbox, retrying := map[], map[], [], false;
    }

    method Register(id: Id, copy: Copy)
      modifies this
      ensures View() == FanOuts.Register(old(View()), id, copy)
    {
      if copy.message !in messages {
        messages := messages[copy.message := FanOut({}, false)];
      }
      var fanout := messages[copy.message];
      messages := messages[copy.message := fanout.(pending := fanout.pending + {id})];
      copies := copies[id := copy];
      assert messages == FanOuts.Register(old(View()), id, copy).messages;
    }

    method Fail(message: Id)
      modifies this`messages
      ensures View() == FanOuts.Fail(old(View()), message)
    {
      if message in messages {
        messages := messages[message := messages[message].(failed := true)];
      }
    }

    method Done(id: Id) returns (settled: Settled)
      modifies this`copies, this`messages
      ensures (View(), settled) == FanOuts.Done(old(View()), id)
    {
      if id !in copies {
        return Alone;
      }
      var copy := copies[id];
      copies := copies - {id};
      if copy.message !in messages {
        return Alone;
      }
      var fanout := messages[copy.message];
      fanout := fanout.(pending := fanout.pending - {id});
      if fanout.pending != {} {
        messages := messages[copy.message := fanout];
        return Waiting;
      }
      messages := messages - {copy.message};
      return if fanout.failed then Failed else Message(copy.message);
    }

    method RemoveFromOutbox(id: Id)
      modifies this`outbox
      ensures outbox == Without(old(outbox), id)
    {
      var kept, i := [], 0;
      while i < |outbox|
        invariant i <= |outbox|
        invariant Without(outbox, id) == kept + Without(outbox[i..], id)
      {
        assert outbox[i..][0] == outbox[i] && outbox[i..][1..] == outbox[i + 1..];
        if outbox[i] != id {
          kept := kept + [outbox[i]];
        }
        i := i + 1;
      }
      outbox := kept;
    }

    method Accepted(id: Id) returns (events: seq<Event>)
      modifies this
      ensures (View(), events) == FanOuts.Accepted(old(View()), id)
    {
      RemoveFromOutbox(id);
      var settled := Done(id);
      match settled
      case Alone => return [Sent(id)];
      case Message(m) => return [Sent(m)];
      case Waiting => return [];
      case Failed => return [];
    }

    method Refused(id: Id, code: Code) returns (events: seq<Event>)
      modifies this
      ensures (View(), events) == FanOuts.Refused(old(View()), id, code)
    {
      events := [];
      if code == RateLimited {
        if !retrying {
          retrying := true;
          events := [Notice];
        }
        return;
      }
      RemoveFromOutbox(id);
      if id !in copies {
        return [Rejected(id)];
      }
      var copy := copies[id];
      if copy.primary {
        Fail(copy.message);
        events := [Rejected(copy.message)];
      } else if code == NotFound {
        events := [DeviceGone(copy.account, copy.device)];
      } else {
        events := [Notice];
      }
      var settled := Done(id);
      assert events == [events[0]] + [];
      if settled.Message? {
        events := events + [Sent(settled.id)];
      }
    }
  }
}
