/** What each call does to a seat and by which way a message reaches it, by the fields of the seat and
    of the message (`packages/hub-daemon/src/live-assignments.ts`). */
module LiveDelivery {
  import opened JsText
  import opened LiveSeats
  import opened LiveSeatRuns
  import opened Wrappers

  // ---------------------------------------------------------------- keys

  /** The session ids are one, or one is the other with the prefix before it. */
  predicate NameSameSession(a: string, b: string) {
    a == b || (a == "ses_" + b && !("ses_" <= b)) || (b == "ses_" + a && !("ses_" <= a))
  }

  /** Two calls speak of the same seat exactly when they name the same participant of one session. */
  lemma SameSeatIff(session: string, participant: string, session': string, participant': string)
    ensures KeyOf(session, participant) == KeyOf(session', participant')
      <==> participant == participant' && NameSameSession(session, session')
  {
    SessionIdIs(session);
    SessionIdIs(session');
    assert ("ses_" + session)[4..] == session && ("ses_" + session')[4..] == session';
  }

  lemma SessionIdIs(session: string)
    ensures SessionId(session) == if "ses_" <= session then session else "ses_" + session
    ensures "ses_" <= SessionId(session)
  {
  }

  // ---------------------------------------------------------------- ways to a seat

  /** The seat's terminal can be written to, and the message has something to type. */
  predicate CanType(seat: Seat, row: Row) {
    && seat.controller.Some? && seat.controller.value.writable
    && row.prompt.Some? && Trim(row.prompt.value) != ""
  }

  /** The message is typed, trimmed, where that can be done, and posted to the principal otherwise. */
  predicate Reaches(seat: Seat, row: Row, via: Via) {
    match via
    case Typed(controller, text) =>
      CanType(seat, row) && seat.controller == Some(controller) && text == Trim(row.prompt.value)
    case Posted(principal) => !CanType(seat, row) && seat.principal == Some(principal)
  }

  lemma RouteIff(seat: Seat, row: Row, via: Via)
    ensures Route(seat, row) == Some(via) <==> Reaches(seat, row, via)
    ensures Route(seat, row).None? <==> !CanType(seat, row) && seat.principal.None?
  {
  }

  // ---------------------------------------------------------------- notify

  /** A notification: nothing for a message the seat was told before; otherwise it is delivered where
      a way to the seat exists, and queued once where none does.  Nobody else is concerned. */
  lemma NotifyDoes(s: State, session: string, participant: string, row: Row, via: Via)
    ensures var key, e := KeyOf(session, participant), Notify(session, participant, row);
      var t, out := Next(s, e), Output(s, e);
      if key in s.seats && row.id in s.seats[key].told then
        t == s && out == []
      else if key in s.seats && (CanType(s.seats[key], row) || s.seats[key].principal.Some?) then
        && (Reaches(s.seats[key], row, via) ==> out == [Sent(key, row, via)])
        && t == s.(seats := s.seats[key := s.seats[key].(lastSeq := Some(row.sinceSeq), told := s.seats[key].told + {row.id})])
      else
        && out == []
        && var waiting := if key in s.pending then s.pending[key] else [];
           if exists k :: 0 <= k < |waiting| && waiting[k].id == row.id then t == s
           else t == s.(pending := s.pending[key := waiting + [row]])
  {
    var key := KeyOf(session, participant);
    if key in s.seats {
      RouteIff(s.seats[key], row, via);
    }
    IdsIff(Backlog(s, key), row.id);
  }

  lemma IdsIff(rows: seq<Row>, id: string)
    ensures id in Ids(rows) <==> exists k :: 0 <= k < |rows| && rows[k].id == id
  {
    if exists k :: 0 <= k < |rows| && rows[k].id == id {
      var k :| 0 <= k < |rows| && rows[k].id == id;
      assert rows[k] in rows;
    }
  }

  // ---------------------------------------------------------------- start

  /** A start gives the seat its run and handler; principal and space only where it brings some; and
      leaves terminal, told messages and cursor as they were.  Nothing is delivered, nobody else is
      concerned. */
  lemma StartDoes(s: State, e: Step)
    requires e.Start?
    ensures var key, t := KeyOf(e.session, e.participant), Next(s, e);
      && Output(s, e) == [] && key in t.seats && t == s.(seats := s.seats[key := t.seats[key]])
      && var seat := t.seats[key];
         && seat.run == e.run && seat.handler == e.handler
         && (e.principal.Some? ==> seat.principal == e.principal)
         && (e.space.Some? ==> seat.space == e.space)
         && if key in s.seats then
              var was := s.seats[key];
              && seat.told == was.told && seat.lastSeq == was.lastSeq && seat.controller == was.controller
              && (e.principal.None? ==> seat.principal == was.principal)
              && (e.space.None? && was.space.Some? ==> seat.space == was.space)
              && (e.space.None? && was.space.None? ==>
                    seat.space == if e.principal.Some? then Some(e.principal.value.space) else None)
            else
              && seat.told == {} && seat.lastSeq == None && seat.controller == None
              && (e.principal.None? ==> seat.principal == None)
              && (e.space.None? ==> seat.space == if e.principal.Some? then Some(e.principal.value.space) else None)
  {
  }

  // ---------------------------------------------------------------- attach and bind

  /** Each message went the way the seat allows; the last one set the seat's cursor; and no way exists
      for what is left. */
  ghost predicate WentRightly(key: Key, seat: Seat, rows: seq<Row>, f: Flushed) {
    && (forall m :: 0 <= m < |f.sent| ==> SentRightly(key, seat, rows, f.sent[m]))
    && NoWay(seat, f.left)
    && f.seat.lastSeq == (if f.sent == [] then seat.lastSeq else Some(f.sent[|f.sent| - 1].row.sinceSeq))
  }

  predicate NoWay(seat: Seat, rows: seq<Row>) {
    forall m :: 0 <= m < |rows| ==> !CanType(seat, rows[m]) && seat.principal.None?
  }

  ghost predicate SentRightly(key: Key, seat: Seat, rows: seq<Row>, m: Sent) {
    m.key == key && m.row in rows && Reaches(seat, m.row, m.via)
  }

  lemma RowWentRightly(key: Key, seat: Seat, rows: seq<Row>, f: Flushed, row: Row)
    requires WentRightly(key, seat, rows, f) && row in rows
    requires f.seat == seat.(lastSeq := f.seat.lastSeq, told := f.seat.told)
    ensures WentRightly(key, seat, rows, FlushRow(key, f, row))
  {
    if Route(f.seat, row).Some? {
      RouteIff(f.seat, row, Route(f.seat, row).value);
    }
  }

  lemma MoreRows(key: Key, seat: Seat, rows: seq<Row>, row: Row, f: Flushed)
    requires WentRightly(key, seat, rows, f)
    ensures WentRightly(key, seat, rows + [row], f)
  {
    forall m | 0 <= m < |f.sent|
      ensures SentRightly(key, seat, rows + [row], f.sent[m])
    {
      assert SentRightly(key, seat, rows, f.sent[m]);
    }
  }

  lemma {:induction false} FlushRoutes(key: Key, seat: Seat, rows: seq<Row>)
    ensures WentRightly(key, seat, rows, Flush(key, seat, rows))
  {
    if rows != [] {
      var front, row := rows[..|rows| - 1], rows[|rows| - 1];
      FlushRoutes(key, seat, front);
      FlushKeepsSeat(key, seat, front);
      assert rows == front + [row];
      MoreRows(key, seat, front, row, Flush(key, seat, front));
      RowWentRightly(key, seat, rows, Flush(key, seat, front), row);
    }
  }

  /** The seat a call hands its backlog to: with the terminal attached, or the principal bound. */
  ghost predicate Takes(s: State, e: Step, key: Key, seat: Seat) {
    && key in s.seats
    && match e
       case Attach(session, participant, controller) =>
         key == KeyOf(session, participant) && seat == s.seats[key].(controller := Some(controller))
       case Bind(session, participant, binder) =>
         && key == KeyOf(session, participant) && InSeatsSpace(s, key, binder)
         && seat == s.seats[key].(principal := Some(binder), space := Some(binder.space))
       case _ => false
  }

  /** Attaching a terminal, or binding a principal of the seat's space: every message of the backlog
      goes the way the seat then allows, and only the seat and its backlog change. */
  lemma HandOverDoes(s: State, e: Step, key: Key, seat: Seat)
    requires Takes(s, e, key, seat)
    ensures var t, out := Next(s, e), Output(s, e);
      && key in t.seats && t.seats == s.seats[key := t.seats[key]] && t.archives == s.archives
      && (forall other :: other != key ==> Backlog(t, other) == Backlog(s, other))
      && (forall m :: 0 <= m < |out| ==> SentRightly(key, seat, Backlog(s, key), out[m]))
      && t.seats[key] == seat.(told := t.seats[key].told,
           lastSeq := if out == [] then seat.lastSeq else Some(out[|out| - 1].row.sinceSeq))
      && NoWay(seat, Backlog(t, key))
  {
    FlushRoutes(key, seat, Backlog(s, key));
    FlushKeepsSeat(key, seat, Backlog(s, key));
    if e.Bind? {
      AdmitsIff(s, key, e.binder);
    }
    assert Backlog(Next(s, e), key) == Flush(key, seat, Backlog(s, key)).left;
  }

  /** Without a seat, or with a principal of another space, nothing happens. */
  lemma RefusedDoesNothing(s: State, e: Step)
    requires e.Attach? || e.Bind?
    requires var key := KeyOf(e.session, e.participant); key !in s.seats || (e.Bind? && !InSeatsSpace(s, key, e.binder))
    ensures Next(s, e) == s && Output(s, e) == []
  {
    if e.Bind? {
      AdmitsIff(s, KeyOf(e.session, e.participant), e.binder);
    }
  }
}
