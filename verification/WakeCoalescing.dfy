/** Collapsing the said notifications of one live seat into one wake
    (`packages/mcp-bridge/src/wake-relay.ts`). */
module WakeCoalescing {
  import opened JsText
  import opened Wrappers
  import opened ControlMessages

  datatype Seat = Seat(session: string, participant: string, handler: string)

  /** How a merged message words its prompt: text rendering, taken as given. */
  type Rewrite = (Value, Option<string>, Option<nat>, nat) -> Value

  function AsString(v: Value): Option<string> {
    if v.Text? && Trim(v.text) != "" then Some(v.text) else None
  }

  function AsCursor(v: Value): Option<nat> {
    if v.Number? && v.number >= 0.0 then Some(v.number.Floor) else None
  }

  function SeatOf(m: Message): Option<Seat> {
    if !m.kind.MeetingSaid? then None
    else match (AsString(m.session), AsString(m.participant), AsString(m.handler))
      case (Some(s), Some(p), Some(h)) => Some(Seat(s, p, h))
      case _ => None
  }

  // ---------------------------------------------------------------- what coalescing means

  /** The messages for one seat, in order. */
  function Group(ms: seq<Message>, seat: Seat): seq<Message> {
    if ms == [] then []
    else
      var m := ms[|ms| - 1];
      Group(ms[..|ms| - 1], seat) + (if SeatOf(m) == Some(seat) then [m] else [])
  }

  function Earlier(a: Option<nat>, b: Option<nat>): Option<nat> {
    match (a, b)
    case (None, _) => b
    case (_, None) => a
    case (Some(x), Some(y)) => Some(if x < y then x else y)
  }

  /** The smallest valid cursor. */
  function EarliestCursor(ms: seq<Message>): Option<nat> {
    if ms == [] then None
    else Earlier(EarliestCursor(ms[..|ms| - 1]), AsCursor(ms[|ms| - 1].since))
  }

  function MergeInto(last: Message, cursor: Option<nat>, count: nat, rewrite: Rewrite): Message {
    last.(since := if cursor.Some? then Number(cursor.value as real) else last.since,
          count := Some(count),
          prompt := rewrite(last.prompt, AsString(last.messageId), cursor, count))
  }

  /** One message for a whole group: the last one, with the earliest cursor. */
  function Merged(group: seq<Message>, rewrite: Rewrite): Message
    requires group != []
  {
    if |group| == 1 then group[0]
    else MergeInto(group[|group| - 1], EarliestCursor(group), |group|, rewrite)
  }

  /** No earlier message is for the same seat. */
  predicate IsFirst(ms: seq<Message>, i: nat)
    requires i < |ms|
  {
    SeatOf(ms[i]).None? || forall k :: 0 <= k < i ==> SeatOf(ms[k]) != SeatOf(ms[i])
  }

  /** The positions that get a message in the output. */
  function Firsts(ms: seq<Message>): (r: seq<nat>)
    ensures forall j :: 0 <= j < |r| ==> r[j] < |ms|
  {
    if ms == [] then []
    else
      var r := Firsts(ms[..|ms| - 1]);
      if IsFirst(ms, |ms| - 1) then r + [|ms| - 1] else r
  }

  /** They are, in order, exactly the positions of first messages. */
  lemma {:induction false} FirstsAre(ms: seq<Message>)
    ensures var r := Firsts(ms);
      && (forall j :: 0 <= j < |r| ==> IsFirst(ms, r[j]))
      && (forall j, k :: 0 <= j < k < |r| ==> r[j] < r[k])
      && (forall i: nat :: i < |ms| && IsFirst(ms, i) ==> i in r)
  {
    if ms != [] {
      var front := ms[..|ms| - 1];
      FirstsAre(front);
      forall i: nat | i < |front|
        ensures IsFirst(front, i) <==> IsFirst(ms, i)
      {
        assert forall k :: 0 <= k <= i ==> front[k] == ms[k];
      }
    }
  }

  lemma GroupNonempty(ms: seq<Message>, i: nat, seat: Seat)
    requires i < |ms| && SeatOf(ms[i]) == Some(seat)
    ensures Group(ms, seat) != []
  {
    if i < |ms| - 1 {
      GroupNonempty(ms[..|ms| - 1], i, seat);
    }
  }

  /** What stands for the message at `i`. */
  function Representative(ms: seq<Message>, i: nat, rewrite: Rewrite): Message
    requires i < |ms|
  {
    match SeatOf(ms[i])
    case None => ms[i]
    case Some(seat) =>
      GroupNonempty(ms, i, seat);
      Merged(Group(ms, seat), rewrite)
  }

  /** One representative at each first position. */
  function Coalesced(ms: seq<Message>, rewrite: Rewrite): (output: seq<Message>)
    ensures |output| == |Firsts(ms)|
  {
    var f := Firsts(ms);
    seq(|f|, j requires 0 <= j < |f| => Representative(ms, f[j], rewrite))
  }

  // ---------------------------------------------------------------- the source's single pass

  datatype Position = Position(index: nat, count: nat, since: Option<nat>)

  /** What the pass knows about a seat after reading `ms`. */
  ghost predicate Tracks(ms: seq<Message>, p: Position, seat: Seat) {
    && p.index < |Firsts(ms)| && SeatOf(ms[Firsts(ms)[p.index]]) == Some(seat)
    && p.count == |Group(ms, seat)| && p.since == EarliestCursor(Group(ms, seat))
  }

  ghost predicate Seen(ms: seq<Message>, seat: Seat) {
    exists k :: 0 <= k < |ms| && SeatOf(ms[k]) == Some(seat)
  }

  lemma LastIsFirst(ms: seq<Message>, m: Message)
    ensures IsFirst(ms + [m], |ms|) <==> SeatOf(m).None? || !Seen(ms, SeatOf(m).value)
  {
    var all := ms + [m];
    assert forall k :: 0 <= k < |ms| ==> all[k] == ms[k];
    if SeatOf(m).Some? && Seen(ms, SeatOf(m).value) {
      var k :| 0 <= k < |ms| && SeatOf(ms[k]) == Some(SeatOf(m).value);
      assert SeatOf(all[k]) == SeatOf(all[|ms|]);
    }
  }

  lemma OneMoreFirst(ms: seq<Message>, m: Message)
    ensures Firsts(ms + [m]) ==
      if SeatOf(m).None? || !Seen(ms, SeatOf(m).value) then Firsts(ms) + [|ms|] else Firsts(ms)
  {
    LastIsFirst(ms, m);
    assert (ms + [m])[..|ms|] == ms;
  }

  lemma OneMoreInGroup(ms: seq<Message>, m: Message, seat: Seat)
    ensures Group(ms + [m], seat) == if SeatOf(m) == Some(seat) then Group(ms, seat) + [m] else Group(ms, seat)
  {
    assert (ms + [m])[..|ms|] == ms;
  }

  lemma {:induction false} UnseenGroupEmpty(ms: seq<Message>, seat: Seat)
    requires !Seen(ms, seat)
    ensures Group(ms, seat) == []
  {
    if ms != [] {
      var front := ms[..|ms| - 1];
      assert forall k :: 0 <= k < |front| ==> front[k] == ms[k];
      UnseenGroupEmpty(front, seat);
      assert SeatOf(ms[|ms| - 1]) != Some(seat);
    }
  }

  /** A message for no seat, or for a seat not seen before, is simply appended. */
  lemma CoalesceAppended(ms: seq<Message>, m: Message, rewrite: Rewrite)
    requires SeatOf(m).None? || !Seen(ms, SeatOf(m).value)
    ensures Coalesced(ms + [m], rewrite) == Coalesced(ms, rewrite) + [m]
  {
    var all, f := ms + [m], Firsts(ms);
    OneMoreFirst(ms, m);
    forall j | 0 <= j < |f|
      ensures Representative(all, f[j], rewrite) == Representative(ms, f[j], rewrite)
    {
      RepresentativeUnmoved(ms, m, f[j], rewrite);
    }
    if SeatOf(m).Some? {
      UnseenGroupEmpty(ms, SeatOf(m).value);
      OneMoreInGroup(ms, m, SeatOf(m).value);
    }
  }

  lemma RepresentativeUnmoved(ms: seq<Message>, m: Message, i: nat, rewrite: Rewrite)
    requires i < |ms| && (SeatOf(ms[i]).None? || SeatOf(ms[i]) != SeatOf(m))
    ensures Representative(ms + [m], i, rewrite) == Representative(ms, i, rewrite)
  {
    if SeatOf(ms[i]).Some? {
      OneMoreInGroup(ms, m, SeatOf(ms[i]).value);
    }
  }

  /** What stands at each first position once one more message for a seat is read. */
  lemma RepresentativesAfter(ms: seq<Message>, m: Message, seat: Seat, index: nat, j: nat, rewrite: Rewrite)
    requires SeatOf(m) == Some(seat) && index < |Firsts(ms)| && SeatOf(ms[Firsts(ms)[index]]) == Some(seat)
    requires j < |Firsts(ms)| && Group(ms, seat) != []
    ensures Representative(ms + [m], Firsts(ms)[j], rewrite) ==
      if j == index then Merged(Group(ms, seat) + [m], rewrite) else Representative(ms, Firsts(ms)[j], rewrite)
  {
    var f := Firsts(ms);
    if j == index {
      OneMoreInGroup(ms, m, seat);
    } else {
      FirstsAre(ms);
      assert IsFirst(ms, f[j]) && IsFirst(ms, f[index]);
      RepresentativeUnmoved(ms, m, f[j], rewrite);
    }
  }

  /** A further message for a seat replaces the seat's slot by the merge of the whole group. */
  lemma CoalesceMerged(ms: seq<Message>, m: Message, seat: Seat, index: nat, rewrite: Rewrite)
    requires SeatOf(m) == Some(seat) && index < |Firsts(ms)| && SeatOf(ms[Firsts(ms)[index]]) == Some(seat)
    ensures Group(ms, seat) != [] && Firsts(ms + [m]) == Firsts(ms)
    ensures Coalesced(ms + [m], rewrite) ==
      Coalesced(ms, rewrite)[index := Merged(Group(ms, seat) + [m], rewrite)]
  {
    assert Seen(ms, seat);
    OneMoreFirst(ms, m);
    GroupNonempty(ms, Firsts(ms)[index], seat);
    forall j | 0 <= j < |Firsts(ms)|
      ensures Representative(ms + [m], Firsts(ms)[j], rewrite) ==
        if j == index then Merged(Group(ms, seat) + [m], rewrite) else Representative(ms, Firsts(ms)[j], rewrite)
    {
      RepresentativesAfter(ms, m, seat, index, j, rewrite);
    }
  }

  lemma MergedOneMore(group: seq<Message>, m: Message, rewrite: Rewrite)
    requires group != []
    ensures Merged(group + [m], rewrite) ==
      MergeInto(m, Earlier(EarliestCursor(group), AsCursor(m.since)), |group| + 1, rewrite)
    ensures EarliestCursor(group + [m]) == Earlier(EarliestCursor(group), AsCursor(m.since))
  {
    assert (group + [m])[..|group|] == group;
  }

  lemma TracksOthers(ms: seq<Message>, m: Message, p: Position, seat: Seat)
    requires Tracks(ms, p, seat) && SeatOf(m) != Some(seat)
    ensures Tracks(ms + [m], p, seat)
  {
    OneMoreFirst(ms, m);
    OneMoreInGroup(ms, m, seat);
  }

  lemma TracksNew(ms: seq<Message>, m: Message, seat: Seat)
    requires SeatOf(m) == Some(seat) && !Seen(ms, seat)
    ensures Tracks(ms + [m], Position(|Firsts(ms)|, 1, AsCursor(m.since)), seat)
  {
    FirstOfSeat(ms, m, seat);
  }

  lemma TracksMore(ms: seq<Message>, m: Message, p: Position, seat: Seat)
    requires SeatOf(m) == Some(seat) && Tracks(ms, p, seat)
    ensures Tracks(ms + [m], p.(count := p.count + 1, since := Earlier(p.since, AsCursor(m.since))), seat)
  {
    assert Seen(ms, seat);
    OneMoreFirst(ms, m);
    OneMoreInGroup(ms, m, seat);
    assert (Group(ms, seat) + [m])[..|Group(ms, seat)|] == Group(ms, seat);
  }

  lemma FirstOfSeat(ms: seq<Message>, m: Message, seat: Seat)
    requires SeatOf(m) == Some(seat) && !Seen(ms, seat)
    ensures Firsts(ms + [m]) == Firsts(ms) + [|ms|] && Group(ms + [m], seat) == [m]
    ensures EarliestCursor([m]) == AsCursor(m.since)
  {
    OneMoreFirst(ms, m);
    UnseenGroupEmpty(ms, seat);
    OneMoreInGroup(ms, m, seat);
    assert [m][..0] == [];
  }

  lemma SeenOneMore(ms: seq<Message>, m: Message)
    ensures forall seat :: Seen(ms + [m], seat) <==> Seen(ms, seat) || SeatOf(m) == Some(seat)
  {
    var all := ms + [m];
    forall seat
      ensures Seen(all, seat) <==> Seen(ms, seat) || SeatOf(m) == Some(seat)
    {
      if Seen(ms, seat) {
        var k :| 0 <= k < |ms| && SeatOf(ms[k]) == Some(seat);
        assert SeatOf(all[k]) == Some(seat);
      }
      if SeatOf(m) == Some(seat) {
        assert SeatOf(all[|ms|]) == Some(seat);
      }
    }
  }

  ghost predicate Knows(ms: seq<Message>, positions: map<Seat, Position>) {
    && (forall seat :: seat in positions <==> Seen(ms, seat))
    && forall seat :: seat in positions ==> Tracks(ms, positions[seat], seat)
  }

  /** The pass's variables after reading `ms`. */
  ghost predicate Gathered(ms: seq<Message>, output: seq<Message>, positions: map<Seat, Position>, rewrite: Rewrite) {
    output == Coalesced(ms, rewrite) && Knows(ms, positions)
  }

  /** One more message moves only its own seat's position. */
  lemma KnowsOneMore(ms: seq<Message>, positions: map<Seat, Position>, m: Message, positions': map<Seat, Position>)
    requires Knows(ms, positions)
    requires SeatOf(m).None? ==> positions' == positions
    requires SeatOf(m).Some? ==>
      var seat := SeatOf(m).value;
      && seat in positions' && positions' == positions[seat := positions'[seat]]
      && Tracks(ms + [m], positions'[seat], seat)
    ensures Knows(ms + [m], positions')
  {
    SeenOneMore(ms, m);
    forall seat | seat in positions'
      ensures Tracks(ms + [m], positions'[seat], seat)
    {
      if SeatOf(m) != Some(seat) {
        TracksOthers(ms, m, positions[seat], seat);
      }
    }
  }

  lemma GatherPlain(ms: seq<Message>, output: seq<Message>, positions: map<Seat, Position>, m: Message, rewrite: Rewrite)
    requires Gathered(ms, output, positions, rewrite) && SeatOf(m).None?
    ensures Gathered(ms + [m], output + [m], positions, rewrite)
  {
    CoalesceAppended(ms, m, rewrite);
    KnowsOneMore(ms, positions, m, positions);
  }

  lemma GatherNew(ms: seq<Message>, output: seq<Message>, positions: map<Seat, Position>, m: Message, rewrite: Rewrite)
    requires Gathered(ms, output, positions, rewrite) && SeatOf(m).Some? && SeatOf(m).value !in positions
    ensures Gathered(ms + [m], output + [m],
      positions[SeatOf(m).value := Position(|output|, 1, AsCursor(m.since))], rewrite)
  {
    var seat := SeatOf(m).value;
    CoalesceAppended(ms, m, rewrite);
    TracksNew(ms, m, seat);
    KnowsOneMore(ms, positions, m, positions[seat := Position(|output|, 1, AsCursor(m.since))]);
  }

  lemma GatherMore(ms: seq<Message>, output: seq<Message>, positions: map<Seat, Position>, m: Message, rewrite: Rewrite)
    requires Gathered(ms, output, positions, rewrite) && SeatOf(m).Some? && SeatOf(m).value in positions
    ensures var p := positions[SeatOf(m).value];
      var p' := p.(count := p.count + 1, since := Earlier(p.since, AsCursor(m.since)));
      && p.index < |output|
      && Gathered(ms + [m], output[p.index := MergeInto(m, p'.since, p'.count, rewrite)],
           positions[SeatOf(m).value := p'], rewrite)
  {
    var seat := SeatOf(m).value;
    var p := positions[seat];
    assert Tracks(ms, p, seat);
    CoalesceMerged(ms, m, seat, p.index, rewrite);
    MergedOneMore(Group(ms, seat), m, rewrite);
    TracksMore(ms, m, p, seat);
    KnowsOneMore(ms, positions, m,
      positions[seat := p.(count := p.count + 1, since := Earlier(p.since, AsCursor(m.since)))]);
  }

  method CoalesceMeetingSaidMessages(messages: seq<Message>, rewrite: Rewrite) returns (output: seq<Message>)
    ensures output == Coalesced(messages, rewrite)
  {
    output := [];
    var positions: map<Seat, Position> := map[];
    for i := 0 to |messages|
      invariant Gathered(messages[..i], output, positions, rewrite)
    {
      var message := messages[i];
      ghost var before := messages[..i];
      assert messages[..i + 1] == before + [message];
      var key := SeatOf(message);
      if key.None? {
        GatherPlain(before, output, positions, message, rewrite);
        output := output + [message];
        continue;
      }
      var cursor := AsCursor(message.since);
      if key.value !in positions {
        GatherNew(before, output, positions, message, rewrite);
        positions := positions[key.value := Position(|output|, 1, cursor)];
        output := output + [message];
        continue;
      }
      GatherMore(before, output, positions, message, rewrite);
      var existing := positions[key.value];
      existing := existing.(count := existing.count + 1, since := Earlier(existing.since, cursor));
      positions := positions[key.value := existing];
      output := output[existing.index := MergeInto(message, existing.since, existing.count, rewrite)];
    }
    assert messages[..|messages|] == messages;
  }

  // ---------------------------------------------------------------- what it guarantees

  lemma {:induction false} GroupAllForSeat(ms: seq<Message>, seat: Seat)
    ensures forall k :: 0 <= k < |Group(ms, seat)| ==> SeatOf(Group(ms, seat)[k]) == Some(seat)
  {
    if ms != [] {
      GroupAllForSeat(ms[..|ms| - 1], seat);
    }
  }

  lemma {:induction false} EarliestCursorIsMinimum(ms: seq<Message>)
    ensures EarliestCursor(ms).None? <==> forall k :: 0 <= k < |ms| ==> AsCursor(ms[k].since).None?
    ensures EarliestCursor(ms).Some? ==>
      && (exists k :: 0 <= k < |ms| && AsCursor(ms[k].since) == EarliestCursor(ms))
      && forall k :: 0 <= k < |ms| && AsCursor(ms[k].since).Some? ==>
           EarliestCursor(ms).value <= AsCursor(ms[k].since).value
  {
    if ms != [] {
      var front, last := ms[..|ms| - 1], ms[|ms| - 1];
      EarliestCursorIsMinimum(front);
      assert forall k :: 0 <= k < |front| ==> front[k] == ms[k];
      if EarliestCursor(ms).Some? {
        if EarliestCursor(ms) == AsCursor(last.since) {
          assert AsCursor(ms[|front|].since) == EarliestCursor(ms);
        } else {
          var k :| 0 <= k < |front| && AsCursor(front[k].since) == EarliestCursor(front);
          assert AsCursor(ms[k].since) == EarliestCursor(ms);
        }
      }
    }
  }

  /** The message that stands for a seat: the seat's own, with the last sequence number of the
      group, a cursor no later than any of the group's, and the number of messages it stands for. */
  lemma MergedMeans(ms: seq<Message>, seat: Seat, rewrite: Rewrite)
    requires Group(ms, seat) != []
    ensures var g := Group(ms, seat); var m := Merged(g, rewrite);
      && SeatOf(m) == Some(seat)
      && m.seqNo == g[|g| - 1].seqNo && m.messageId == g[|g| - 1].messageId
      && AsCursor(m.since) == EarliestCursor(g)
      && (|g| > 1 ==> m.count == Some(|g|)) && (|g| == 1 ==> m == g[0])
  {
    var g := Group(ms, seat);
    GroupAllForSeat(ms, seat);
    EarliestCursorIsMinimum(g);
    if |g| == 1 {
      assert EarliestCursor(g[..0]) == None;
    } else if EarliestCursor(g).None? {
      assert AsCursor(g[|g| - 1].since).None?;
    } else {
      assert (EarliestCursor(g).value as real).Floor == EarliestCursor(g).value;
    }
  }

  lemma RepresentativeSeat(ms: seq<Message>, i: nat, rewrite: Rewrite)
    requires i < |ms|
    ensures SeatOf(Representative(ms, i, rewrite)) == SeatOf(ms[i])
    ensures SeatOf(ms[i]).None? ==> Representative(ms, i, rewrite) == ms[i]
  {
    if SeatOf(ms[i]).Some? {
      GroupNonempty(ms, i, SeatOf(ms[i]).value);
      MergedMeans(ms, SeatOf(ms[i]).value, rewrite);
    }
  }

  /** The output's messages are for pairwise different seats. */
  ghost predicate OnePerSeat(ms: seq<Message>) {
    forall j, k :: 0 <= j < k < |ms| && SeatOf(ms[j]).Some? ==> SeatOf(ms[j]) != SeatOf(ms[k])
  }

  lemma CoalescedOnePerSeat(ms: seq<Message>, rewrite: Rewrite)
    ensures OnePerSeat(Coalesced(ms, rewrite))
  {
    var f, out := Firsts(ms), Coalesced(ms, rewrite);
    FirstsAre(ms);
    forall j, k | 0 <= j < k < |out| && SeatOf(out[j]).Some?
      ensures SeatOf(out[j]) != SeatOf(out[k])
    {
      RepresentativeSeat(ms, f[j], rewrite);
      RepresentativeSeat(ms, f[k], rewrite);
      assert IsFirst(ms, f[k]);
    }
  }

  lemma {:induction false} NothingToMerge(ms: seq<Message>, rewrite: Rewrite)
    requires OnePerSeat(ms)
    ensures Coalesced(ms, rewrite) == ms
  {
    if ms != [] {
      var front, m := ms[..|ms| - 1], ms[|ms| - 1];
      assert forall k :: 0 <= k < |front| ==> front[k] == ms[k];
      NothingToMerge(front, rewrite);
      CoalesceAppended(front, m, rewrite);
      assert ms == front + [m];
    }
  }

  /** Coalescing what was coalesced changes nothing. */
  lemma CoalescingIsIdempotent(ms: seq<Message>, rewrite: Rewrite)
    ensures Coalesced(Coalesced(ms, rewrite), rewrite) == Coalesced(ms, rewrite)
  {
    CoalescedOnePerSeat(ms, rewrite);
    NothingToMerge(Coalesced(ms, rewrite), rewrite);
  }

  function NotForSeats(ms: seq<Message>): seq<Message> {
    if ms == [] then []
    else
      var m := ms[|ms| - 1];
      NotForSeats(ms[..|ms| - 1]) + (if SeatOf(m).None? then [m] else [])
  }

  lemma NotForSeatsOneMore(ms: seq<Message>, m: Message)
    ensures NotForSeats(ms + [m]) == NotForSeats(ms) + (if SeatOf(m).None? then [m] else [])
  {
    assert (ms + [m])[..|ms|] == ms;
  }

  lemma {:induction false} NotForSeatsReplaced(ms: seq<Message>, index: nat, m: Message)
    requires index < |ms| && SeatOf(ms[index]).Some? && SeatOf(m).Some?
    ensures NotForSeats(ms[index := m]) == NotForSeats(ms)
  {
    var n := |ms| - 1;
    if index < n {
      NotForSeatsReplaced(ms[..n], index, m);
      assert ms[index := m][..n] == ms[..n][index := m];
    } else {
      assert ms[index := m][..n] == ms[..n];
    }
  }

  lemma {:induction false} FirstSeen(ms: seq<Message>, k: nat, seat: Seat) returns (first: nat)
    requires k < |ms| && SeatOf(ms[k]) == Some(seat)
    ensures first <= k && SeatOf(ms[first]) == Some(seat) && IsFirst(ms, first)
    decreases k
  {
    if IsFirst(ms, k) {
      first := k;
    } else {
      var earlier: nat :| earlier < k && SeatOf(ms[earlier]) == SeatOf(ms[k]);
      first := FirstSeen(ms, earlier, seat);
    }
  }

  lemma SlotOf(ms: seq<Message>, seat: Seat) returns (index: nat)
    requires Seen(ms, seat)
    ensures index < |Firsts(ms)| && SeatOf(ms[Firsts(ms)[index]]) == Some(seat)
  {
    var k: nat :| k < |ms| && SeatOf(ms[k]) == Some(seat);
    var first := FirstSeen(ms, k, seat);
    FirstsAre(ms);
    assert first in Firsts(ms);
    index :| index < |Firsts(ms)| && Firsts(ms)[index] == first;
  }

  /** Messages that are for no seat all survive, in order and unchanged. */
  lemma {:induction false} OthersSurvive(ms: seq<Message>, rewrite: Rewrite)
    ensures NotForSeats(Coalesced(ms, rewrite)) == NotForSeats(ms)
  {
    if ms != [] {
      var front, m := ms[..|ms| - 1], ms[|ms| - 1];
      assert ms == front + [m];
      OthersSurvive(front, rewrite);
      NotForSeatsOneMore(front, m);
      if SeatOf(m).None? || !Seen(front, SeatOf(m).value) {
        CoalesceAppended(front, m, rewrite);
        NotForSeatsOneMore(Coalesced(front, rewrite), m);
      } else {
        var index := SlotOf(front, SeatOf(m).value);
        CoalesceMerged(front, m, SeatOf(m).value, index, rewrite);
        RepresentativeSeat(front, Firsts(front)[index], rewrite);
        MergedOneMore(Group(front, SeatOf(m).value), m, rewrite);
        NotForSeatsReplaced(Coalesced(front, rewrite), index, Merged(Group(ms, SeatOf(m).value), rewrite));
      }
    }
  }

  /** Every seat that is told something gets exactly one message, at the place of its first one,
      with the earliest cursor, the last sequence number and the number of messages merged. */
  lemma OneMessagePerSeat(ms: seq<Message>, seat: Seat, rewrite: Rewrite) returns (index: nat)
    requires Seen(ms, seat)
    ensures var out, g := Coalesced(ms, rewrite), Group(ms, seat);
      && index < |out| && g != [] && out[index] == Merged(g, rewrite)
      && SeatOf(out[index]) == Some(seat)
      && out[index].seqNo == g[|g| - 1].seqNo
      && AsCursor(out[index].since) == EarliestCursor(g)
      && (|g| > 1 ==> out[index].count == Some(|g|))
      && (forall k :: 0 <= k < |out| && SeatOf(out[k]) == Some(seat) ==> k == index)
      && (forall k :: 0 <= k < Firsts(ms)[index] ==> SeatOf(ms[k]) != Some(seat))
  {
    index := SlotOf(ms, seat);
    GroupNonempty(ms, Firsts(ms)[index], seat);
    MergedMeans(ms, seat, rewrite);
    CoalescedOnePerSeat(ms, rewrite);
    FirstsAre(ms);
    assert IsFirst(ms, Firsts(ms)[index]);
  }

  ghost predicate Ascending(ms: seq<Message>) {
    forall j, k :: 0 <= j < k < |ms| ==> ms[j].seqNo < ms[k].seqNo
  }

  lemma MaxOfAscending(ms: seq<Message>)
    requires Ascending(ms) && ms != []
    ensures MaxSeq(ms) == ms[|ms| - 1].seqNo
  {
    if MaxSeq(ms) != 0 {
      var k :| 0 <= k < |ms| && ms[k].seqNo == MaxSeq(ms);
    }
  }

  lemma RepresentativeBound(ms: seq<Message>, i: nat, rewrite: Rewrite)
    requires i < |ms|
    ensures exists k :: 0 <= k < |ms| && Representative(ms, i, rewrite).seqNo == ms[k].seqNo
  {
    if SeatOf(ms[i]).Some? {
      var seat := SeatOf(ms[i]).value;
      GroupNonempty(ms, i, seat);
      var k := LastOfGroup(ms, seat);
      MergedMeans(ms, seat, rewrite);
    }
  }

  lemma {:induction false} LastOfGroup(ms: seq<Message>, seat: Seat) returns (k: nat)
    requires Group(ms, seat) != []
    ensures k < |ms| && Group(ms, seat)[|Group(ms, seat)| - 1] == ms[k]
    ensures forall j :: k < j < |ms| ==> SeatOf(ms[j]) != Some(seat)
  {
    if SeatOf(ms[|ms| - 1]) == Some(seat) {
      k := |ms| - 1;
    } else {
      k := LastOfGroup(ms[..|ms| - 1], seat);
    }
  }

  /** For messages in ascending order the largest sequence number survives, so acknowledging what
      was coalesced acknowledges what was received. */
  lemma CoalescingKeepsMaxSeq(ms: seq<Message>, rewrite: Rewrite)
    requires Ascending(ms)
    ensures MaxSeq(Coalesced(ms, rewrite)) == MaxSeq(ms)
  {
    var out := Coalesced(ms, rewrite);
    if ms != [] {
      var n := |ms| - 1;
      MaxOfAscending(ms);
      forall j | 0 <= j < |out|
        ensures out[j].seqNo <= ms[n].seqNo
      {
        RepresentativeBound(ms, Firsts(ms)[j], rewrite);
      }
      LastSurvives(ms, rewrite);
    }
  }

  lemma LastSurvives(ms: seq<Message>, rewrite: Rewrite)
    requires ms != []
    ensures exists j :: 0 <= j < |Coalesced(ms, rewrite)| && Coalesced(ms, rewrite)[j].seqNo == ms[|ms| - 1].seqNo
  {
    var n, out := |ms| - 1, Coalesced(ms, rewrite);
    match SeatOf(ms[n])
    case None =>
      FirstsAre(ms);
      assert IsFirst(ms, n) && n in Firsts(ms);
      var j :| 0 <= j < |Firsts(ms)| && Firsts(ms)[j] == n;
      assert out[j] == ms[n];
    case Some(seat) =>
      assert Seen(ms, seat);
      var j := OneMessagePerSeat(ms, seat, rewrite);
      var k := LastOfGroup(ms, seat);
      assert k == n;
      assert out[j].seqNo == ms[n].seqNo;
  }
}
