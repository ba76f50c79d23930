/** What coalescing does to the messages of one seat, by the fields of the messages themselves
    (`packages/mcp-bridge/src/wake-relay.ts`). */
module WakeSeats {
  import opened JsText
  import opened Wrappers
  import opened ControlMessages
  import opened Selections
  import opened WakeCoalescing

  ghost predicate Blank(text: string) {
    forall k :: 0 <= k < |text| ==> IsSpace(text[k])
  }

  /** The message tells this participant, through this handler, that something was said in this
      meeting. */
  ghost predicate SaidTo(m: Message, session: string, participant: string, handler: string) {
    && m.kind == MeetingSaid
    && m.session == Text(session) && m.participant == Text(participant) && m.handler == Text(handler)
    && !Blank(session) && !Blank(participant) && !Blank(handler)
  }

  ghost predicate ForSomeSeat(m: Message) {
    exists session, participant, handler :: SaidTo(m, session, participant, handler)
  }

  /** Both tell the same participant of the same meeting through the same handler. */
  ghost predicate SameAddress(a: Message, b: Message) {
    exists session, participant, handler ::
      SaidTo(a, session, participant, handler) && SaidTo(b, session, participant, handler)
  }

  lemma TrimmedAwayIsBlank(text: string)
    requires Trim(text) == ""
    ensures Blank(text)
  {
    var w := TrimStartSplit(text);
    var v := TrimEndSplit(TrimStart(text));
    assert text == w + v;
  }

  lemma BlankIff(text: string)
    ensures Trim(text) == "" <==> Blank(text)
  {
    if Blank(text) {
      TrimStartOfSpace(text);
    }
    if Trim(text) == "" {
      TrimmedAwayIsBlank(text);
    }
  }

  lemma SaidToIff(m: Message, session: string, participant: string, handler: string)
    ensures SaidTo(m, session, participant, handler) <==> SeatOf(m) == Some(Seat(session, participant, handler))
  {
    BlankIff(session);
    BlankIff(participant);
    BlankIff(handler);
  }

  lemma ForSomeSeatIff(m: Message)
    ensures ForSomeSeat(m) <==> SeatOf(m).Some?
  {
    if SeatOf(m).Some? {
      var seat := SeatOf(m).value;
      SaidToIff(m, seat.session, seat.participant, seat.handler);
    }
    if ForSomeSeat(m) {
      var session, participant, handler :| SaidTo(m, session, participant, handler);
      SaidToIff(m, session, participant, handler);
    }
  }

  lemma SameAddressIff(a: Message, b: Message)
    ensures SameAddress(a, b) <==> SeatOf(a).Some? && SeatOf(a) == SeatOf(b)
  {
    if SameAddress(a, b) {
      var session, participant, handler :| SaidTo(a, session, participant, handler) && SaidTo(b, session, participant, handler);
      SaidToIff(a, session, participant, handler);
      SaidToIff(b, session, participant, handler);
    }
    if SeatOf(a).Some? && SeatOf(a) == SeatOf(b) {
      var seat := SeatOf(a).value;
      SaidToIff(a, seat.session, seat.participant, seat.handler);
      SaidToIff(b, seat.session, seat.participant, seat.handler);
    }
  }

  /** Two messages fall together exactly when they have the same address. */
  lemma FallTogetherIff(a: Message, b: Message, rewrite: Rewrite)
    ensures |Coalesced([a, b], rewrite)| == if SameAddress(a, b) then 1 else 2
    ensures !SameAddress(a, b) ==> Coalesced([a, b], rewrite) == [a, b]
  {
    SameAddressIff(a, b);
    assert [] + [a] == [a] && [a] + [b] == [a, b];
    CoalesceAppended([], a, rewrite);
    assert [a][0] == a;
    if SameAddress(a, b) {
      OneMoreFirst([], a);
      assert Firsts([a]) == [0];
      CoalesceMerged([a], b, SeatOf(a).value, 0, rewrite);
    } else {
      assert SeatOf(b).Some? ==> !Seen([a], SeatOf(b).value);
      CoalesceAppended([a], b, rewrite);
    }
  }

  // ---------------------------------------------------------------- the messages of one seat

  /** The messages with an address, in order. */
  ghost function Told(ms: seq<Message>, session: string, participant: string, handler: string): seq<Message> {
    if ms == [] then []
    else
      var m := ms[|ms| - 1];
      Told(ms[..|ms| - 1], session, participant, handler) + if SaidTo(m, session, participant, handler) then [m] else []
  }

  lemma {:induction false} ToldIsGroup(ms: seq<Message>, session: string, participant: string, handler: string)
    ensures Told(ms, session, participant, handler) == Group(ms, Seat(session, participant, handler))
  {
    if ms != [] {
      ToldIsGroup(ms[..|ms| - 1], session, participant, handler);
      SaidToIff(ms[|ms| - 1], session, participant, handler);
    }
  }

  /** The cursor of a message: a number, not negative, of which the fraction does not count. */
  ghost predicate HasCursor(m: Message, n: nat) {
    m.since.Number? && n as real <= m.since.number < (n + 1) as real
  }

  lemma HasCursorIff(m: Message, n: nat)
    ensures HasCursor(m, n) <==> AsCursor(m.since) == Some(n)
  {
  }

  /** What a merged prompt is worded with: the last message's prompt and id, the smallest cursor, and
      how many messages there are. */
  ghost predicate PromptFor(prompt: Value, m: Message, told: seq<Message>, rewrite: Rewrite)
    requires told != []
  {
    var last := told[|told| - 1];
    exists id: Option<string>, cursor: Option<nat> ::
      && prompt == rewrite(last.prompt, id, cursor, |told|)
      && (forall text :: id == Some(text) <==> last.messageId == Text(text) && !Blank(text))
      && (cursor.Some? ==> HasCursor(m, cursor.value))
      && (cursor.None? ==> forall k: nat, n: nat :: k < |told| ==> !HasCursor(told[k], n))
  }

  ghost predicate NoCursor(told: seq<Message>) {
    forall k: nat, n: nat :: k < |told| ==> !HasCursor(told[k], n)
  }

  /** The smallest of the cursors, if there is one. */
  ghost predicate EarliestFor(m: Message, told: seq<Message>) {
    && (forall k: nat, n: nat :: k < |told| && HasCursor(told[k], n) ==> exists c: nat :: c <= n && HasCursor(m, c))
    && (forall c: nat :: HasCursor(m, c) ==> exists k :: 0 <= k < |told| && HasCursor(told[k], c))
  }

  /** In a merged message it is a whole number; without one, what was there is left alone. */
  ghost predicate CursorFor(m: Message, told: seq<Message>)
    requires told != []
  {
    if NoCursor(told) then m.since == told[|told| - 1].since
    else exists c: nat | HasCursor(m, c) :: m.since == Number(c as real)
  }

  lemma MergedCursor(told: seq<Message>, rewrite: Rewrite)
    requires |told| > 1
    ensures CursorFor(Merged(told, rewrite), told)
  {
    var cursor, m := EarliestCursor(told), Merged(told, rewrite);
    EarliestCursorIsMinimum(told);
    if cursor.Some? {
      var k: nat :| k < |told| && AsCursor(told[k].since) == cursor;
      HasCursorIff(told[k], cursor.value);
      HasCursorIff(m, cursor.value);
      assert m.since == Number(cursor.value as real);
    } else {
      forall k: nat, n: nat | k < |told|
        ensures !HasCursor(told[k], n)
      {
        HasCursorIff(told[k], n);
      }
    }
  }

  lemma MergedEarliest(told: seq<Message>, m: Message)
    requires told != [] && AsCursor(m.since) == EarliestCursor(told)
    ensures EarliestFor(m, told)
  {
    EarliestCursorIsMinimum(told);
    forall k: nat, n: nat | k < |told| && HasCursor(told[k], n)
      ensures exists c: nat :: c <= n && HasCursor(m, c)
    {
      HasCursorIff(told[k], n);
      HasCursorIff(m, EarliestCursor(told).value);
    }
    forall c: nat | HasCursor(m, c)
      ensures exists k :: 0 <= k < |told| && HasCursor(told[k], c)
    {
      HasCursorIff(m, c);
      var k :| 0 <= k < |told| && AsCursor(told[k].since) == EarliestCursor(told);
      HasCursorIff(told[k], c);
    }
  }

  /** `m` stands for the messages `told`: it is the last of them; when there are more, with their
      number, the smallest of their cursors if one has any, and the prompt reworded. */
  ghost predicate StandsFor(m: Message, told: seq<Message>, rewrite: Rewrite) {
    && told != []
    && var last := told[|told| - 1];
       && m == last.(since := m.since, count := m.count, prompt := m.prompt)
       && (|told| == 1 ==> m == last)
       && (|told| > 1 ==> m.count == Some(|told|) && PromptFor(m.prompt, m, told, rewrite) && CursorFor(m, told))
       && EarliestFor(m, told)
  }

  lemma MergedPrompt(told: seq<Message>, rewrite: Rewrite)
    requires |told| > 1
    ensures var m := Merged(told, rewrite); PromptFor(m.prompt, m, told, rewrite)
  {
    var m, last, cursor := Merged(told, rewrite), told[|told| - 1], EarliestCursor(told);
    var id := AsString(last.messageId);
    EarliestCursorIsMinimum(told);
    forall text
      ensures id == Some(text) <==> last.messageId == Text(text) && !Blank(text)
    {
      BlankIff(text);
    }
    forall k: nat, n: nat | k < |told| && HasCursor(told[k], n)
      ensures cursor.Some?
    {
      HasCursorIff(told[k], n);
    }
    assert m.prompt == rewrite(last.prompt, id, cursor, |told|);
  }

  lemma MergedStandsFor(ms: seq<Message>, session: string, participant: string, handler: string, rewrite: Rewrite)
    requires Told(ms, session, participant, handler) != []
    ensures var told := Told(ms, session, participant, handler);
      Group(ms, Seat(session, participant, handler)) == told && StandsFor(Merged(told, rewrite), told, rewrite)
  {
    var told := Told(ms, session, participant, handler);
    var m := Merged(told, rewrite);
    ToldIsGroup(ms, session, participant, handler);
    MergedMeans(ms, Seat(session, participant, handler), rewrite);
    MergedEarliest(told, m);
    if |told| > 1 {
      MergedPrompt(told, rewrite);
      MergedCursor(told, rewrite);
    }
  }

  lemma ToldIsSeen(ms: seq<Message>, i: nat, session: string, participant: string, handler: string)
    requires i < |ms| && SaidTo(ms[i], session, participant, handler)
    ensures Seen(ms, Seat(session, participant, handler)) && Told(ms, session, participant, handler) != []
  {
    SaidToIff(ms[i], session, participant, handler);
    GroupNonempty(ms, i, Seat(session, participant, handler));
    ToldIsGroup(ms, session, participant, handler);
  }

  /** Every participant that is told something in a meeting, through a handler, is told once: by
      exactly one message with these three fields, which stands for all that had them. */
  lemma EveryAddressOnce(ms: seq<Message>, i: nat, session: string, participant: string, handler: string, rewrite: Rewrite)
    returns (index: nat)
    requires i < |ms| && SaidTo(ms[i], session, participant, handler)
    ensures var out := Coalesced(ms, rewrite);
      && index < |out| && SaidTo(out[index], session, participant, handler)
      && StandsFor(out[index], Told(ms, session, participant, handler), rewrite)
      && forall k :: 0 <= k < |out| && SaidTo(out[k], session, participant, handler) ==> k == index
  {
    var seat, out := Seat(session, participant, handler), Coalesced(ms, rewrite);
    ToldIsSeen(ms, i, session, participant, handler);
    index := OneMessagePerSeat(ms, seat, rewrite);
    MergedStandsFor(ms, session, participant, handler, rewrite);
    SaidToIff(out[index], session, participant, handler);
    forall k | 0 <= k < |out| && SaidTo(out[k], session, participant, handler)
      ensures k == index
    {
      SaidToIff(out[k], session, participant, handler);
    }
  }

  // ---------------------------------------------------------------- the order of the output

  /** The message at `i` keeps its place: it has no complete address, or it is the first for its. */
  ghost predicate KeepsPlace(ms: seq<Message>, i: nat)
    requires i < |ms|
  {
    !ForSomeSeat(ms[i]) || forall k :: 0 <= k < i ==> !SameAddress(ms[k], ms[i])
  }

  lemma KeepsPlaceIff(ms: seq<Message>, i: nat)
    requires i < |ms|
    ensures KeepsPlace(ms, i) <==> IsFirst(ms, i)
  {
    ForSomeSeatIff(ms[i]);
    forall k | 0 <= k < i
      ensures SameAddress(ms[k], ms[i]) <==> SeatOf(ms[k]).Some? && SeatOf(ms[k]) == SeatOf(ms[i])
    {
      SameAddressIff(ms[k], ms[i]);
    }
  }

  ghost predicate AreFirsts(ms: seq<Message>, at: seq<nat>) {
    && Rising(at) && (forall j :: 0 <= j < |at| ==> at[j] < |ms| && IsFirst(ms, at[j]))
    && forall i: nat :: i < |ms| && IsFirst(ms, i) ==> i in at
  }

  lemma FirstsAreFirsts(ms: seq<Message>)
    ensures AreFirsts(ms, Firsts(ms))
  {
    FirstsAre(ms);
  }

  lemma FirstsKeepPlace(ms: seq<Message>, at: seq<nat>, i: nat)
    requires AreFirsts(ms, at)
    ensures i in at <==> i < |ms| && KeepsPlace(ms, i)
  {
    if i < |ms| {
      KeepsPlaceIff(ms, i);
    }
  }

  /** The output has a message for exactly the messages that keep their place, in their order: the
      message itself if it has no complete address, and otherwise one of the same address. */
  lemma PlacesKept(ms: seq<Message>, rewrite: Rewrite) returns (at: seq<nat>)
    ensures var out := Coalesced(ms, rewrite);
      && |at| == |out| && Rising(at)
      && (forall i: nat :: i in at <==> i < |ms| && KeepsPlace(ms, i))
      && forall k :: 0 <= k < |at| ==>
           at[k] < |ms| && if ForSomeSeat(ms[at[k]]) then SameAddress(out[k], ms[at[k]]) else out[k] == ms[at[k]]
  {
    at := Firsts(ms);
    FirstsAreFirsts(ms);
    forall i: nat
      ensures i in at <==> i < |ms| && KeepsPlace(ms, i)
    {
      FirstsKeepPlace(ms, at, i);
    }
    forall k | 0 <= k < |at|
      ensures if ForSomeSeat(ms[at[k]]) then SameAddress(Coalesced(ms, rewrite)[k], ms[at[k]])
              else Coalesced(ms, rewrite)[k] == ms[at[k]]
    {
      RepresentativeSeat(ms, at[k], rewrite);
      ForSomeSeatIff(ms[at[k]]);
      SameAddressIff(Coalesced(ms, rewrite)[k], ms[at[k]]);
    }
  }
}
