/** Delivery of control messages from a hub to one bridge: the hub's handshake answer, and the
    bridge's `pollHandshake` (`packages/mcp-bridge/src/main.ts`). */
module HandshakeDelivery {
  import opened Wrappers
  import opened ControlMessages
  import opened ControlBus
  import opened Selections
  import opened WakeCoalescing

  datatype Response = Response(ackSeq: nat, messages: seq<Message>)

  /** One principal's outbox, and the bridge: its acknowledged number, the response on its way (the
      `polling` flag admits one), the raw messages it accounted for, and what it acted on. */
  datatype System = System(
    outbox: seq<Message>, lastAck: nat, inFlight: Option<Response>,
    accounted: seq<Message>, handled: seq<Message>, firstAck: Option<nat>)

  datatype Event =
    | Publish(m: Message)
    | Poll(ack: Message)
    | Complete(instanceChanged: bool)
    | Lose

  /** The hub's counter is behind the bridge's number: the hub has restarted. */
  function HandshakeSeqReset(lastAckSeq: nat, handshakeAckSeq: nat): (reset: bool)
    ensures reset && handshakeAckSeq >= 0 ==> HandshakeDrainCursor(Some(lastAckSeq), handshakeAckSeq) == 0
  {
    handshakeAckSeq > 0 && lastAckSeq > handshakeAckSeq
  }

  function AfterPoll(s: System, ack: Message): System
    requires Numbered(s.outbox)
  {
    var outbox := Published(s.outbox, ack);
    s.(outbox := outbox,
       inFlight := Some(Response(|outbox|, After(outbox, HandshakeDrainCursor(Some(s.lastAck), |outbox|)))))
  }

  /** The number below which the bridge skips messages. */
  function Base(lastAck: nat, ackSeq: nat, instanceChanged: bool): nat {
    if instanceChanged || HandshakeSeqReset(lastAck, ackSeq) then 0 else lastAck
  }

  /** The messages the skip rule lets through. */
  function Beyond(ms: seq<Message>, base: nat): seq<Message> {
    if ms == [] then []
    else
      var m := ms[|ms| - 1];
      Beyond(ms[..|ms| - 1], base) + (if m.seqNo > base then [m] else [])
  }

  function Max3(a: nat, b: nat, c: nat): nat {
    var ab := if a > b then a else b;
    if ab > c then ab else c
  }

  function AfterComplete(s: System, instanceChanged: bool, rewrite: Rewrite): System
    requires s.inFlight.Some?
  {
    var r := s.inFlight.value;
    var base := Base(s.lastAck, r.ackSeq, instanceChanged);
    s.(inFlight := None,
       accounted := s.accounted + Beyond(r.messages, base),
       handled := s.handled + Beyond(Coalesced(r.messages, rewrite), base),
       lastAck := Max3(base, r.ackSeq, MaxSeq(r.messages)),
       firstAck := if s.firstAck.None? then Some(r.ackSeq) else s.firstAck)
  }

  /** The bridge's loop over one response. */
  method CompletePoll(lastAck: nat, r: Response, instanceChanged: bool, rewrite: Rewrite)
    returns (handled: seq<Message>, lastAck': nat)
    ensures handled == Beyond(Coalesced(r.messages, rewrite), Base(lastAck, r.ackSeq, instanceChanged))
    ensures lastAck' == Max3(Base(lastAck, r.ackSeq, instanceChanged), r.ackSeq, MaxSeq(r.messages))
  {
    var base := lastAck;
    if instanceChanged || HandshakeSeqReset(lastAck, r.ackSeq) {
      base := 0;
    }
    var messages := CoalesceMeetingSaidMessages(r.messages, rewrite);
    handled := [];
    for i := 0 to |messages|
      invariant handled == Beyond(messages[..i], base)
    {
      assert messages[..i + 1][..i] == messages[..i];
      if messages[i].seqNo <= base {
        continue;
      }
      handled := handled + [messages[i]];
    }
    assert messages[..|messages|] == messages;
    lastAck' := Max3(base, r.ackSeq, MaxSeq(r.messages));
  }

  /** Where a poll starts: from nothing when the hub is another one, or has counted less than the bridge
      remembers; and otherwise from what the bridge remembers. */
  ghost predicate StartsFrom(lastAck: nat, ackSeq: nat, instanceChanged: bool, base: nat) {
    base == if instanceChanged || 0 < ackSeq < lastAck then 0 else lastAck
  }

  /** `n` is the largest of the base, the poll's own number and the numbers of its messages. */
  ghost predicate Largest(n: nat, base: nat, r: Response) {
    && base <= n && r.ackSeq <= n && (forall m :: m in r.messages ==> m.seqNo <= n)
    && (n == base || n == r.ackSeq || exists m :: m in r.messages && m.seqNo == n)
  }

  function Above(base: nat): Message -> bool {
    (m: Message) => m.seqNo > base
  }

  lemma {:induction false} BeyondIsKept(ms: seq<Message>, base: nat)
    ensures Beyond(ms, base) == Kept(ms, Above(base))
  {
    if ms != [] {
      BeyondIsKept(ms[..|ms| - 1], base);
    }
  }

  /** Whatever a poll brings: the bridge acts on the coalesced messages beyond its base, in order, and
      its number becomes the largest there is. */
  lemma CompleteDoes(s: System, instanceChanged: bool, rewrite: Rewrite, base: nat)
    requires s.inFlight.Some? && StartsFrom(s.lastAck, s.inFlight.value.ackSeq, instanceChanged, base)
    ensures var r, t := s.inFlight.value, AfterComplete(s, instanceChanged, rewrite);
      && t.handled == s.handled + Kept(Coalesced(r.messages, rewrite), Above(base))
      && t.accounted == s.accounted + Kept(r.messages, Above(base))
      && Largest(t.lastAck, base, r) && t.inFlight == None && t.outbox == s.outbox
  {
    var r := s.inFlight.value;
    BeyondIsKept(r.messages, base);
    BeyondIsKept(Coalesced(r.messages, rewrite), base);
    if MaxSeq(r.messages) != 0 {
      var k :| 0 <= k < |r.messages| && r.messages[k].seqNo == MaxSeq(r.messages);
      assert r.messages[k] in r.messages;
    }
  }

  predicate Enabled(s: System, e: Event) {
    match e
    case Publish(_) => true
    case Poll(_) => s.inFlight.None?
    case Complete(_) => s.inFlight.Some?
    case Lose => s.inFlight.Some?
  }

  function Step(s: System, e: Event, rewrite: Rewrite): System
    requires Numbered(s.outbox) && Enabled(s, e)
  {
    match e
    case Publish(m) => s.(outbox := Published(s.outbox, m))
    case Poll(ack) => AfterPoll(s, ack)
    case Complete(instanceChanged) => AfterComplete(s, instanceChanged, rewrite)
    case Lose => s.(inFlight := None)
  }

  /** A hub that has just started, and a bridge that still remembers `lastAck`. */
  function Fresh(lastAck: nat): System {
    System([], lastAck, None, [], [], None)
  }

  /** The states of one hub incarnation. */
  ghost predicate IsRun(run: seq<System>, events: seq<Event>, rewrite: Rewrite) {
    && |run| == |events| + 1 && run[0] == Fresh(run[0].lastAck)
    && forall k :: 0 <= k < |events| ==> StepAt(run, events, k, rewrite)
  }

  ghost predicate StepAt(run: seq<System>, events: seq<Event>, k: nat, rewrite: Rewrite)
    requires k < |events| && k + 1 < |run|
  {
    Numbered(run[k].outbox) && Enabled(run[k], events[k]) && run[k + 1] == Step(run[k], events[k], rewrite)
  }

  // ---------------------------------------------------------------- the invariant

  /** From which message on the bridge hears this incarnation: from the first one, unless the
      counter had already caught up with the old number when the first poll completed. */
  function From(oldAck: nat, firstAck: nat): nat {
    if oldAck > firstAck then 0 else oldAck
  }

  ghost predicate Answers(s: System, r: Response) {
    && 0 < r.ackSeq <= |s.outbox|
    && r.messages == After(s.outbox[..r.ackSeq], HandshakeDrainCursor(Some(s.lastAck), r.ackSeq))
  }

  ghost predicate Invariant(s: System, oldAck: nat) {
    && Numbered(s.outbox)
    && (s.inFlight.Some? ==> Answers(s, s.inFlight.value) && (s.firstAck.Some? ==> s.lastAck <= s.inFlight.value.ackSeq))
    && match s.firstAck
       case None => s.lastAck == oldAck && s.accounted == []
       case Some(first) =>
         && From(oldAck, first) <= s.lastAck <= |s.outbox|
         && s.accounted == s.outbox[From(oldAck, first)..s.lastAck]
  }

  lemma {:induction false} BeyondAll(ms: seq<Message>, base: nat)
    requires forall k :: 0 <= k < |ms| ==> ms[k].seqNo > base
    ensures Beyond(ms, base) == ms
  {
    if ms != [] {
      BeyondAll(ms[..|ms| - 1], base);
      assert ms == ms[..|ms| - 1] + [ms[|ms| - 1]];
    }
  }

  lemma PublishKeepsInvariant(s: System, m: Message, oldAck: nat)
    requires Invariant(s, oldAck)
    ensures Invariant(s.(outbox := Published(s.outbox, m)), oldAck)
  {
    var outbox := Published(s.outbox, m);
    if s.inFlight.Some? {
      var n := s.inFlight.value.ackSeq;
      assert outbox[..n] == s.outbox[..n];
    }
    if s.firstAck.Some? {
      var from := From(oldAck, s.firstAck.value);
      assert outbox[from..s.lastAck] == s.outbox[from..s.lastAck];
    }
  }

  lemma PollKeepsInvariant(s: System, ack: Message, oldAck: nat)
    requires Invariant(s, oldAck) && s.inFlight.None?
    ensures Invariant(AfterPoll(s, ack), oldAck)
  {
    PublishKeepsInvariant(s, ack, oldAck);
    var outbox := Published(s.outbox, ack);
    assert outbox[..|outbox|] == outbox;
  }

  lemma Slices(outbox: seq<Message>, from: nat, middle: nat, to: nat)
    requires from <= middle <= to <= |outbox|
    ensures outbox[from..middle] + outbox[middle..to] == outbox[from..to]
    ensures outbox[..to][from..] == outbox[from..to]
  {
  }

  lemma MaxOfSlice(outbox: seq<Message>, from: nat, to: nat)
    requires Numbered(outbox) && from <= to <= |outbox|
    ensures MaxSeq(outbox[from..to]) <= to
  {
    var ms := outbox[from..to];
    if MaxSeq(ms) > 0 {
      var k :| 0 <= k < |ms| && ms[k].seqNo == MaxSeq(ms);
    }
  }

  lemma BaseBelowCursor(lastAck: nat, ackSeq: nat, instanceChanged: bool)
    requires ackSeq > 0
    ensures var cursor := HandshakeDrainCursor(Some(lastAck), ackSeq);
      Base(lastAck, ackSeq, instanceChanged) <= cursor <= ackSeq
  {
  }

  lemma SliceBeyond(outbox: seq<Message>, from: nat, to: nat, base: nat)
    requires Numbered(outbox) && base <= from <= to <= |outbox|
    ensures Beyond(outbox[from..to], base) == outbox[from..to]
  {
    var ms := outbox[from..to];
    assert forall k :: 0 <= k < |ms| ==> ms[k] == outbox[from + k];
    BeyondAll(ms, base);
  }

  /** What a response brings: the outbox from the cursor on; the skip rule drops nothing of it. */
  lemma ResponseBrings(s: System, r: Response, instanceChanged: bool)
    requires Numbered(s.outbox) && Answers(s, r)
    ensures var cursor := HandshakeDrainCursor(Some(s.lastAck), r.ackSeq);
      var base := Base(s.lastAck, r.ackSeq, instanceChanged);
      && base <= cursor <= r.ackSeq
      && r.messages == s.outbox[cursor..r.ackSeq]
      && Beyond(r.messages, base) == r.messages
      && Max3(base, r.ackSeq, MaxSeq(r.messages)) == r.ackSeq
  {
    var cursor := HandshakeDrainCursor(Some(s.lastAck), r.ackSeq);
    BaseBelowCursor(s.lastAck, r.ackSeq, instanceChanged);
    Slices(s.outbox, cursor, cursor, r.ackSeq);
    MaxOfSlice(s.outbox, cursor, r.ackSeq);
    SliceBeyond(s.outbox, cursor, r.ackSeq, Base(s.lastAck, r.ackSeq, instanceChanged));
  }

  lemma CompleteBrings(s: System, instanceChanged: bool, rewrite: Rewrite)
    requires Numbered(s.outbox) && s.inFlight.Some? && Answers(s, s.inFlight.value)
    ensures var r, t := s.inFlight.value, AfterComplete(s, instanceChanged, rewrite);
      var cursor := HandshakeDrainCursor(Some(s.lastAck), r.ackSeq);
      && cursor <= r.ackSeq <= |s.outbox|
      && t == s.(inFlight := None, accounted := s.accounted + s.outbox[cursor..r.ackSeq], handled := t.handled,
                 lastAck := r.ackSeq, firstAck := if s.firstAck.None? then Some(r.ackSeq) else s.firstAck)
  {
    ResponseBrings(s, s.inFlight.value, instanceChanged);
  }

  lemma CompleteKeepsInvariant(s: System, instanceChanged: bool, rewrite: Rewrite, oldAck: nat)
    requires Invariant(s, oldAck) && s.inFlight.Some?
    ensures Invariant(AfterComplete(s, instanceChanged, rewrite), oldAck)
    ensures AfterComplete(s, instanceChanged, rewrite).lastAck == s.inFlight.value.ackSeq
  {
    var r := s.inFlight.value;
    CompleteBrings(s, instanceChanged, rewrite);
    if s.firstAck.Some? {
      Slices(s.outbox, From(oldAck, s.firstAck.value), s.lastAck, r.ackSeq);
    }
  }

  lemma {:induction false} AlwaysInvariant(run: seq<System>, events: seq<Event>, rewrite: Rewrite, n: nat)
    requires IsRun(run, events, rewrite) && n < |run|
    ensures Invariant(run[n], run[0].lastAck)
  {
    if n > 0 {
      AlwaysInvariant(run, events, rewrite, n - 1);
      assert StepAt(run, events, n - 1, rewrite);
      match events[n - 1]
      case Publish(m) => PublishKeepsInvariant(run[n - 1], m, run[0].lastAck);
      case Poll(ack) => PollKeepsInvariant(run[n - 1], ack, run[0].lastAck);
      case Complete(changed) => CompleteKeepsInvariant(run[n - 1], changed, rewrite, run[0].lastAck);
      case Lose =>
    }
  }

  // ---------------------------------------------------------------- the theorems

  /** Within one life of the hub, whatever is published and whichever responses are lost, the
      messages a bridge accounts for are exactly the outbox up to its acknowledged number: in
      order, with no gap and no repeat. */
  lemma DeliversExactlyAPrefix(run: seq<System>, events: seq<Event>, rewrite: Rewrite, n: nat)
    requires IsRun(run, events, rewrite) && n < |run| && run[0].lastAck == 0
    ensures run[n].lastAck <= |run[n].outbox| && run[n].accounted == run[n].outbox[..run[n].lastAck]
  {
    AlwaysInvariant(run, events, rewrite, n);
  }

  lemma {:induction false} OutboxGrows(run: seq<System>, events: seq<Event>, rewrite: Rewrite, m: nat, n: nat)
    requires IsRun(run, events, rewrite) && m <= n < |run|
    ensures run[m].outbox <= run[n].outbox
    decreases n
  {
    if m < n {
      OutboxGrows(run, events, rewrite, m, n - 1);
      assert StepAt(run, events, n - 1, rewrite);
    }
  }

  lemma {:induction false} SamePollInFlight(run: seq<System>, events: seq<Event>, rewrite: Rewrite, m: nat, n: nat)
    requires IsRun(run, events, rewrite) && m <= n < |run| && run[m].inFlight.Some?
    requires forall k :: m <= k < n ==> events[k].Publish?
    ensures run[n].inFlight == run[m].inFlight
    decreases n
  {
    if m < n {
      SamePollInFlight(run, events, rewrite, m, n - 1);
      assert StepAt(run, events, n - 1, rewrite);
    }
  }

  /** A poll that completes has brought everything published before it was sent, and its own ack. */
  lemma CompletedPollCatchesUp(run: seq<System>, events: seq<Event>, rewrite: Rewrite, m: nat, n: nat)
    requires IsRun(run, events, rewrite) && m < n < |events|
    requires events[m].Poll? && events[n].Complete? && forall k :: m < k < n ==> events[k].Publish?
    ensures run[n + 1].lastAck == |run[m].outbox| + 1
  {
    assert StepAt(run, events, m, rewrite) && StepAt(run, events, n, rewrite);
    SamePollInFlight(run, events, rewrite, m + 1, n);
    AlwaysInvariant(run, events, rewrite, n);
    CompleteKeepsInvariant(run[n], events[n].instanceChanged, rewrite, run[0].lastAck);
  }

  /** Every message acted on is what coalescing made of the response: the skip rule adds no loss. */
  lemma ActsOnEveryCoalescedMessage(run: seq<System>, events: seq<Event>, rewrite: Rewrite, n: nat)
    requires IsRun(run, events, rewrite) && n < |events| && events[n].Complete?
    ensures run[n].inFlight.Some?
      && run[n + 1].handled == run[n].handled + Coalesced(run[n].inFlight.value.messages, rewrite)
  {
    assert StepAt(run, events, n, rewrite);
    AlwaysInvariant(run, events, rewrite, n);
    var r := run[n].inFlight.value;
    var base := Base(run[n].lastAck, r.ackSeq, events[n].instanceChanged);
    ResponseBrings(run[n], r, events[n].instanceChanged);
    var out := Coalesced(r.messages, rewrite);
    forall k | 0 <= k < |out|
      ensures out[k].seqNo > base
    {
      RepresentativeBound(r.messages, Firsts(r.messages)[k], rewrite);
    }
    BeyondAll(out, base);
  }

  /** The restarted hub's messages are all delivered exactly when, at the first completed poll,
      the counter had not caught up with the old number (or there was none): otherwise the first
      `oldAck` messages of the new life are never delivered. */
  lemma RestartDeliversAllIff(run: seq<System>, events: seq<Event>, rewrite: Rewrite, n: nat)
    requires IsRun(run, events, rewrite) && n < |run| && run[n].firstAck.Some?
    ensures var s, oldAck := run[n], run[0].lastAck;
      && s.lastAck <= |s.outbox|
      && (oldAck > s.firstAck.value ==> s.accounted == s.outbox[..s.lastAck])
      && (oldAck <= s.firstAck.value ==> oldAck <= s.lastAck && s.accounted == s.outbox[oldAck..s.lastAck])
      && (s.accounted == s.outbox[..s.lastAck] <==> oldAck > s.firstAck.value || oldAck == 0)
  {
    AlwaysInvariant(run, events, rewrite, n);
    var s, oldAck := run[n], run[0].lastAck;
    if 0 < oldAck <= s.firstAck.value {
      assert |s.outbox[oldAck..s.lastAck]| < |s.outbox[..s.lastAck]|;
    }
  }

  lemma Extend(run: seq<System>, events: seq<Event>, e: Event, rewrite: Rewrite)
    returns (run': seq<System>, events': seq<Event>)
    requires IsRun(run, events, rewrite) && Numbered(run[|events|].outbox) && Enabled(run[|events|], e)
    ensures IsRun(run', events', rewrite) && events' == events + [e]
    ensures run' == run + [Step(run[|events|], e, rewrite)]
  {
    run', events' := run + [Step(run[|events|], e, rewrite)], events + [e];
    forall k | 0 <= k < |events'|
      ensures StepAt(run', events', k, rewrite)
    {
      assert k < |events| ==> StepAt(run, events, k, rewrite);
    }
  }

  lemma LosingPoll(m: Message, ack: Message)
    ensures var first, second := m.(seqNo := 1), ack.(seqNo := 2);
      && Published([], m) == [first] && Numbered([first]) && Numbered([first, second])
      && AfterPoll(Fresh(1).(outbox := [first]), ack)
         == Fresh(1).(outbox := [first, second], inFlight := Some(Response(2, [second])))
  {
    var first, second := m.(seqNo := 1), ack.(seqNo := 2);
    assert Published([first], ack) == [first, second];
    assert After([first, second], 1) == [second];
  }

  lemma LosingComplete(s: System, second: Message, rewrite: Rewrite)
    requires s.inFlight == Some(Response(2, [second])) && s.accounted == [] && second.seqNo == 2
    ensures var s' := AfterComplete(s, true, rewrite);
      s'.lastAck == 2 && s'.accounted == [second] && s'.outbox == s.outbox
  {
    BeyondAll([second], 0);
    assert [second][..0] == [];
    assert MaxSeq([second]) == 2;
  }

  lemma LosingRun(m: Message, ack: Message, rewrite: Rewrite) returns (run: seq<System>, events: seq<Event>)
    ensures IsRun(run, events, rewrite) && run[0].lastAck == 1 && events == [Publish(m), Poll(ack)]
    ensures var first, second := m.(seqNo := 1), ack.(seqNo := 2);
      run[2] == Fresh(1).(outbox := [first, second], inFlight := Some(Response(2, [second])))
  {
    LosingPoll(m, ack);
    run, events := [Fresh(1)], [];
    run, events := Extend(run, events, Publish(m), rewrite);
    run, events := Extend(run, events, Poll(ack), rewrite);
  }

  /** A hub that restarts, publishes one message, and is polled by a bridge that remembers number 1:
      the message is lost, although the bridge notices the restart. */
  lemma RestartLosesMessage(m: Message, ack: Message, rewrite: Rewrite) returns (run: seq<System>, events: seq<Event>)
    ensures IsRun(run, events, rewrite) && run[0].lastAck == 1 && events == [Publish(m), Poll(ack), Complete(true)]
    ensures var s := run[3];
      s.outbox == [m.(seqNo := 1), ack.(seqNo := 2)] && s.lastAck == 2 && s.accounted == [ack.(seqNo := 2)]
  {
    run, events := LosingRun(m, ack, rewrite);
    LosingComplete(run[2], ack.(seqNo := 2), rewrite);
    run, events := Extend(run, events, Complete(true), rewrite);
  }
}
