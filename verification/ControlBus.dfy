/** The hub's outboxes (`packages/hub-daemon/src/control-bus.ts`). */
module ControlBus {
  import opened Wrappers
  import opened ControlMessages

  const TTL_MS: int := 24 * 60 * 60 * 1000

  datatype Principal = Principal(space: string, token: string, client: string)

  datatype Box = Box(messages: seq<Message>, expiresAt: int)

  /** Messages carry the sequence numbers 1, 2, 3, ... */
  predicate Numbered(messages: seq<Message>) {
    forall k :: 0 <= k < |messages| ==> messages[k].seqNo == k + 1
  }

  /** What an outbox holds after one more message is published. */
  function Published(messages: seq<Message>, m: Message): (r: seq<Message>)
    requires Numbered(messages)
    ensures Numbered(r)
  {
    messages + [m.(seqNo := |messages| + 1)]
  }

  /** What a numbered outbox hands out after a given sequence number. */
  function After(messages: seq<Message>, afterSeq: nat): seq<Message> {
    if afterSeq <= |messages| then messages[afterSeq..] else []
  }

  /** Where a drain starts.  `None`: the client's number is not finite.  A number above the hub's
      own counter comes from an earlier life of the hub. */
  function HandshakeDrainCursor(lastAckSeq: Option<int>, currentSeq: int): (cursor: nat)
    ensures lastAckSeq.Some? && 0 <= lastAckSeq.value <= currentSeq ==> cursor == lastAckSeq.value
    ensures lastAckSeq.None? || !(0 <= lastAckSeq.value <= currentSeq) ==> cursor == 0
  {
    match lastAckSeq
    case None => 0
    case Some(n) => if n < 0 then 0 else if n > currentSeq then 0 else n
  }

  class Bus {
    var outboxes: map<Principal, Box>
    var counters: map<Principal, nat>

    /** Every counter is the length of its outbox, and every outbox is numbered from 1. */
    ghost predicate Valid()
      reads this
    {
      && counters.Keys <= outboxes.Keys
      && forall p :: p in outboxes ==>
           Numbered(outboxes[p].messages)
           && |outboxes[p].messages| == (if p in counters then counters[p] else 0)
    }

    function Outbox(p: Principal): seq<Message>
      reads this
    {
      if p in outboxes then outboxes[p].messages else []
    }

    /** What is left of an outbox at a given time. */
    ghost function LiveOutbox(p: Principal, now: int): seq<Message>
      reads this
    {
      if p in outboxes && outboxes[p].expiresAt > now then outboxes[p].messages else []
    }

    constructor ()
      ensures Valid() && outboxes == map[]
    {
      outboxes, counters := map[], map[];
    }

    method PurgeExpired(now: int)
      requires Valid()
      modifies this
      ensures Valid()
      ensures outboxes == map p | p in old(outboxes) && old(outboxes)[p].expiresAt > now :: old(outboxes)[p]
    {
      var todo := outboxes.Keys;
      while todo != {}
        invariant Valid() && todo <= old(outboxes).Keys
        invariant outboxes == map p | p in old(outboxes) && (p in todo || old(outboxes)[p].expiresAt > now) :: old(outboxes)[p]
      {
        var p :| p in todo;
        if outboxes[p].expiresAt <= now {
          outboxes := outboxes - {p};
          counters := counters - {p};
        }
        todo := todo - {p};
      }
    }

    /** The message as sent, numbered one above everything still in the outbox. */
    method Publish(p: Principal, m: Message, now: int) returns (full: Message)
      requires Valid()
      modifies this
      ensures Valid()
      ensures full == m.(seqNo := |old(LiveOutbox(p, now))| + 1)
      ensures Outbox(p) == Published(old(LiveOutbox(p, now)), m)
      ensures p in outboxes && outboxes[p].expiresAt == now + 86_400_000
      ensures forall q :: q != p ==> Outbox(q) == old(LiveOutbox(q, now))
    {
      PurgeExpired(now);
      var n := (if p in counters then counters[p] else 0) + 1;
      counters := counters[p := n];
      full := m.(seqNo := n);
      var box := if p in outboxes then outboxes[p] else Box([], now + TTL_MS);
      outboxes := outboxes[p := Box(box.messages + [full], now + TTL_MS)];
    }

    method Drain(p: Principal, afterSeq: nat, now: int) returns (messages: seq<Message>)
      requires Valid()
      modifies this
      ensures Valid() && messages == After(old(LiveOutbox(p, now)), afterSeq)
      ensures forall q :: Outbox(q) == old(LiveOutbox(q, now))
    {
      PurgeExpired(now);
      if p !in outboxes {
        return [];
      }
      var box := outboxes[p].messages;
      messages := [];
      for i := 0 to |box|
        invariant messages == After(box[..i], afterSeq)
      {
        if box[i].seqNo > afterSeq {
          messages := messages + [box[i]];
        }
        assert box[..i + 1] == box[..i] + [box[i]];
      }
      assert box[..|box|] == box;
    }

    method RegisterPrincipal(p: Principal, now: int)
      requires Valid()
      modifies this
      ensures Valid()
      ensures outboxes == if p in old(outboxes) then old(outboxes) else old(outboxes)[p := Box([], now + TTL_MS)]
    {
      if p !in outboxes {
        outboxes := outboxes[p := Box([], now + TTL_MS)];
      }
    }

    /** One handshake of the MCP route: publish an ack, then drain behind the client's number. */
    method Handshake(p: Principal, ack: Message, lastAckSeq: Option<int>, now: int)
      returns (ackSeq: nat, messages: seq<Message>)
      requires Valid()
      modifies this
      ensures Valid()
      ensures Outbox(p) == Published(old(LiveOutbox(p, now)), ack) && ackSeq == |Outbox(p)|
      ensures messages == After(Outbox(p), HandshakeDrainCursor(lastAckSeq, ackSeq))
    {
      RegisterPrincipal(p, now);
      var full := Publish(p, ack, now);
      ackSeq := full.seqNo;
      messages := Drain(p, HandshakeDrainCursor(lastAckSeq, ackSeq), now);
    }
  }
}
