/** Live meeting seats (`packages/hub-daemon/src/live-assignments.ts`): who sits in a meeting, what
    is still to be told to whom, and every way a message reaches a seat.

    Each public call is one step; its specification is a function on the three tables.  The class
    that runs the steps in place is in `LiveAssignments`. */
module LiveSeats {
  import opened JsText
  import opened SpaceIds
  import opened Wrappers

  datatype Principal = Principal(token: string, space: string)

  /** The terminal of a persistent session.  Only some can be written to. */
  datatype Controller = Controller(id: nat, writable: bool)

  datatype Seat = Seat(
    run: string, handler: string, principal: Option<Principal>, space: Option<string>,
    lastSeq: Option<int>, told: set<string>, controller: Option<Controller>)

  datatype Row = Row(id: string, sinceSeq: int, handler: string, prompt: Option<string>)

  datatype Archive = Archive(run: string, handler: string, snapshot: string)

  datatype Key = Key(session: string, participant: string)

  datatype State = State(seats: map<Key, Seat>, pending: map<Key, seq<Row>>, archives: map<Key, Archive>)

  /** How a message reaches a seat: typed into its terminal, or posted to its principal. */
  datatype Via = Typed(controller: Controller, text: string) | Posted(principal: Principal)

  datatype Sent = Sent(key: Key, row: Row, via: Via)

  function SessionId(session: string): string {
    if "ses_" <= session then session else "ses_" + session
  }

  function KeyOf(session: string, participant: string): Key {
    Key(SessionId(session), participant)
  }

  predicate SameSpace(left: Option<string>, right: string) {
    left.Some? && left.value != "" && right != "" && Bare(left.value) == Bare(right)
  }

  function OrElse<T>(first: Option<T>, second: Option<T>): Option<T> {
    if first.Some? then first else second
  }

  // ---------------------------------------------------------------- delivery to one seat

  function TypedText(seat: Seat, row: Row): Option<string> {
    if seat.controller.Some? && seat.controller.value.writable && row.prompt.Some? && Trim(row.prompt.value) != ""
    then Some(Trim(row.prompt.value))
    else None
  }

  function Route(seat: Seat, row: Row): Option<Via> {
    var text := TypedText(seat, row);
    if text.Some? then Some(Typed(seat.controller.value, text.value))
    else if seat.principal.Some? then Some(Posted(seat.principal.value))
    else None
  }

  function Marked(seat: Seat, row: Row): Seat {
    seat.(lastSeq := Some(row.sinceSeq), told := seat.told + {row.id})
  }

  datatype Flushed = Flushed(seat: Seat, left: seq<Row>, sent: seq<Sent>)

  /** A backlog handed to a seat, row after row. */
  function Flush(key: Key, seat: Seat, rows: seq<Row>): Flushed {
    if rows == [] then Flushed(seat, [], [])
    else FlushRow(key, Flush(key, seat, rows[..|rows| - 1]), rows[|rows| - 1])
  }

  function FlushRow(key: Key, f: Flushed, row: Row): Flushed {
    if row.id in f.seat.told then f
    else
      match Route(f.seat, row)
      case Some(via) => Flushed(Marked(f.seat, row), f.left, f.sent + [Sent(key, row, via)])
      case None => f.(left := f.left + [row])
  }

  // ---------------------------------------------------------------- the steps

  datatype Step =
    | Start(session: string, participant: string, handler: string, run: string,
            principal: Option<Principal>, space: Option<string>)
    | Attach(session: string, participant: string, controller: Controller)
    | Notify(session: string, participant: string, row: Row)
    | Bind(session: string, participant: string, binder: Principal)
    | Revoke(session: string, only: Option<string>, snapshot: map<Controller, string>)

  function Backlog(s: State, key: Key): seq<Row> {
    if key in s.pending then s.pending[key] else []
  }

  function Told(s: State, key: Key): set<string> {
    if key in s.seats then s.seats[key].told else {}
  }

  function Ids(rows: seq<Row>): set<string> {
    set row | row in rows :: row.id
  }

  function StartedSeat(s: State, e: Step): Seat
    requires e.Start?
  {
    var key := KeyOf(e.session, e.participant);
    var was := if key in s.seats then Some(s.seats[key]) else None;
    var ownSpace := if e.principal.Some? then Some(e.principal.value.space) else None;
    if was.Some? then
      Seat(e.run, e.handler, OrElse(e.principal, was.value.principal),
           OrElse(e.space, OrElse(was.value.space, ownSpace)), was.value.lastSeq, was.value.told, was.value.controller)
    else
      Seat(e.run, e.handler, e.principal, OrElse(e.space, ownSpace), None, {}, None)
  }

  /** The seat takes what it can of its backlog; the rest goes back. */
  function AfterFlush(s: State, key: Key, seat: Seat): State {
    var f := Flush(key, seat, Backlog(s, key));
    State(s.seats[key := f.seat], if f.left == [] then s.pending - {key} else s.pending[key := f.left], s.archives)
  }

  function Attached(s: State, key: Key, controller: Controller): Seat
    requires key in s.seats
  {
    s.seats[key].(controller := Some(controller))
  }

  function Bound(s: State, key: Key, principal: Principal): Seat
    requires key in s.seats
  {
    s.seats[key].(principal := Some(principal), space := Some(principal.space))
  }

  predicate Admits(s: State, key: Key, principal: Principal) {
    key in s.seats && SameSpace(s.seats[key].space, principal.space)
  }

  function NotifyRoute(s: State, key: Key, row: Row): Option<Via> {
    if key in s.seats then Route(s.seats[key], row) else None
  }

  function AfterNotify(s: State, key: Key, row: Row): State {
    if row.id in Told(s, key) then s
    else if NotifyRoute(s, key, row).Some? then s.(seats := s.seats[key := Marked(s.seats[key], row)])
    else if row.id in Ids(Backlog(s, key)) then s
    else s.(pending := s.pending[key := Backlog(s, key) + [row]])
  }

  /** An empty participant counts as none: the whole session is revoked. */
  predicate NamesOne(only: Option<string>) {
    only.Some? && only.value != ""
  }

  /** The seats a revoke takes away. */
  predicate Evicts(s: State, e: Step, key: Key)
    requires e.Revoke?
  {
    key in s.seats && if NamesOne(e.only) then key == KeyOf(e.session, e.only.value) else key.session == SessionId(e.session)
  }

  /** The backlogs a revoke drops: a session-wide one only those of the seats it takes away. */
  predicate Drops(s: State, e: Step, key: Key)
    requires e.Revoke?
  {
    if NamesOne(e.only) then key == KeyOf(e.session, e.only.value) else Evicts(s, e, key)
  }

  function ArchiveOf(seat: Seat, snapshot: map<Controller, string>): Archive {
    Archive(seat.run, seat.handler,
            if seat.controller.Some? && seat.controller.value in snapshot then snapshot[seat.controller.value] else "")
  }

  function AfterRevoke(s: State, e: Step): State
    requires e.Revoke?
  {
    State(
      map k | k in s.seats && !Evicts(s, e, k) :: s.seats[k],
      map k | k in s.pending && !Drops(s, e, k) :: s.pending[k],
      s.archives + map k | k in s.seats && Evicts(s, e, k) :: ArchiveOf(s.seats[k], e.snapshot))
  }

  function Next(s: State, e: Step): State {
    match e
    case Start(session, participant, _, _, _, _) =>
      s.(seats := s.seats[KeyOf(session, participant) := StartedSeat(s, e)])
    case Attach(session, participant, controller) =>
      var key := KeyOf(session, participant);
      if key in s.seats then AfterFlush(s, key, Attached(s, key, controller)) else s
    case Notify(session, participant, row) => AfterNotify(s, KeyOf(session, participant), row)
    case Bind(session, participant, principal) =>
      var key := KeyOf(session, participant);
      if Admits(s, key, principal) then AfterFlush(s, key, Bound(s, key, principal)) else s
    case Revoke(_, _, _) => AfterRevoke(s, e)
  }

  /** The messages a step delivers, in order. */
  function Output(s: State, e: Step): seq<Sent> {
    match e
    case Start(_, _, _, _, _, _) => []
    case Attach(session, participant, controller) =>
      var key := KeyOf(session, participant);
      if key in s.seats then Flush(key, Attached(s, key, controller), Backlog(s, key)).sent else []
    case Notify(session, participant, row) =>
      var key := KeyOf(session, participant);
      if row.id in Told(s, key) || NotifyRoute(s, key, row).None? then []
      else [Sent(key, row, NotifyRoute(s, key, row).value)]
    case Bind(session, participant, principal) =>
      var key := KeyOf(session, participant);
      if Admits(s, key, principal) then Flush(key, Bound(s, key, principal), Backlog(s, key)).sent else []
    case Revoke(_, _, _) => []
  }

  const EMPTY := State(map[], map[], map[])

  ghost predicate StepAt(run: seq<State>, steps: seq<Step>, k: nat)
    requires |run| == |steps| + 1 && k < |steps|
  {
    run[k + 1] == Next(run[k], steps[k])
  }

  ghost predicate IsRun(run: seq<State>, steps: seq<Step>) {
    |run| == |steps| + 1 && forall k :: 0 <= k < |steps| ==> StepAt(run, steps, k)
  }

  // ---------------------------------------------------------------- one backlog

  function One(b: bool): nat {
    if b then 1 else 0
  }

  predicate Carries(m: Sent, key: Key, id: string) {
    m.key == key && m.row.id == id
  }

  function Count(sent: seq<Sent>, key: Key, id: string): nat {
    if sent == [] then 0
    else Count(sent[..|sent| - 1], key, id) + One(Carries(sent[|sent| - 1], key, id))
  }

  lemma CountSnoc(sent: seq<Sent>, m: Sent, key: Key, id: string)
    ensures Count(sent + [m], key, id) == Count(sent, key, id) + One(Carries(m, key, id))
  {
    assert (sent + [m])[..|sent|] == sent;
  }

  lemma {:induction false} CountOfOthers(sent: seq<Sent>, key: Key, id: string)
    requires forall m :: m in sent ==> m.key != key
    ensures Count(sent, key, id) == 0
  {
    if sent != [] {
      CountOfOthers(sent[..|sent| - 1], key, id);
    }
  }

  lemma RowCounts(key: Key, f: Flushed, row: Row, id: string)
    ensures var g := FlushRow(key, f, row);
      Count(g.sent, key, id) + One(id in f.seat.told) == Count(f.sent, key, id) + One(id in g.seat.told)
  {
    if row.id !in f.seat.told && Route(f.seat, row).Some? {
      CountSnoc(f.sent, Sent(key, row, Route(f.seat, row).value), key, id);
    }
  }

  /** Flushing tells a seat exactly the messages it had not been told, each once. */
  lemma {:induction false} FlushCounts(key: Key, seat: Seat, rows: seq<Row>, id: string)
    ensures var f := Flush(key, seat, rows); Count(f.sent, key, id) + One(id in seat.told) == One(id in f.seat.told)
  {
    if rows != [] {
      FlushCounts(key, seat, rows[..|rows| - 1], id);
      RowCounts(key, Flush(key, seat, rows[..|rows| - 1]), rows[|rows| - 1], id);
    }
  }

  /** Apart from what it was told and up to where, flushing leaves the seat as it was. */
  lemma {:induction false} FlushKeepsSeat(key: Key, seat: Seat, rows: seq<Row>)
    ensures var f := Flush(key, seat, rows); f.seat == seat.(lastSeq := f.seat.lastSeq, told := f.seat.told)
  {
    if rows != [] {
      FlushKeepsSeat(key, seat, rows[..|rows| - 1]);
    }
  }

  lemma {:induction false} FlushSendsToKey(key: Key, seat: Seat, rows: seq<Row>)
    ensures forall m :: m in Flush(key, seat, rows).sent ==> m.key == key
  {
    if rows != [] {
      FlushSendsToKey(key, seat, rows[..|rows| - 1]);
    }
  }

  lemma IdsSnoc(rows: seq<Row>, row: Row)
    ensures Ids(rows + [row]) == Ids(rows) + {row.id}
  {
    assert forall r :: r in rows + [row] <==> r in rows || r == row;
    forall id | id in Ids(rows) + {row.id}
      ensures id in Ids(rows + [row])
    {
      var r :| r in rows + [row] && r.id == id;
    }
  }

  /** No row of a backlog is lost by flushing it. */
  lemma {:induction false} FlushKeepsIds(key: Key, seat: Seat, rows: seq<Row>)
    ensures var f := Flush(key, seat, rows); f.seat.told + Ids(f.left) == seat.told + Ids(rows)
  {
    if rows != [] {
      var front, row := rows[..|rows| - 1], rows[|rows| - 1];
      FlushKeepsIds(key, seat, front);
      assert rows == front + [row];
      IdsSnoc(front, row);
      IdsSnoc(Flush(key, seat, front).left, row);
    }
  }

  /** A seat with a principal takes everything: what it gets are the rows it had not been told, in
      the order they were queued. */
  function Untold(rows: seq<Row>, told: set<string>): seq<Row> {
    if rows == [] then []
    else
      var row := rows[|rows| - 1];
      Untold(rows[..|rows| - 1], told) + if row.id in told then [] else [row]
  }

  function Rows(sent: seq<Sent>): seq<Row> {
    seq(|sent|, k requires 0 <= k < |sent| => sent[k].row)
  }

  predicate DistinctIds(rows: seq<Row>) {
    forall j, k :: 0 <= j < k < |rows| ==> rows[j].id != rows[k].id
  }

  lemma {:induction false} FlushLeavesNone(key: Key, seat: Seat, rows: seq<Row>)
    requires seat.principal.Some?
    ensures var f := Flush(key, seat, rows); f.left == [] && f.seat.principal == seat.principal
  {
    if rows != [] {
      FlushLeavesNone(key, seat, rows[..|rows| - 1]);
    }
  }

  lemma NotInFront(rows: seq<Row>)
    requires rows != [] && DistinctIds(rows)
    ensures rows[|rows| - 1].id !in Ids(rows[..|rows| - 1])
  {
  }

  lemma RowsSnoc(sent: seq<Sent>, m: Sent)
    ensures Rows(sent + [m]) == Rows(sent) + [m.row]
  {
  }

  lemma {:induction false} FlushHandsOverAll(key: Key, seat: Seat, rows: seq<Row>)
    requires seat.principal.Some? && DistinctIds(rows)
    ensures Rows(Flush(key, seat, rows).sent) == Untold(rows, seat.told)
  {
    if rows != [] {
      var front, row := rows[..|rows| - 1], rows[|rows| - 1];
      FlushHandsOverAll(key, seat, front);
      FlushLeavesNone(key, seat, front);
      FlushKeepsIds(key, seat, front);
      NotInFront(rows);
      var g := Flush(key, seat, front);
      if row.id !in g.seat.told {
        RowsSnoc(g.sent, Sent(key, row, Route(g.seat, row).value));
      }
    }
  }

  // ---------------------------------------------------------------- one step

  /** The seat's incarnation ends with this step. */
  predicate Ends(s: State, e: Step, key: Key) {
    e.Revoke? && Evicts(s, e, key)
  }

  lemma AttachCounts(s: State, e: Step, key: Key, id: string)
    requires e.Attach?
    ensures Count(Output(s, e), key, id) + One(id in Told(s, key)) == One(id in Told(Next(s, e), key))
  {
    var k := KeyOf(e.session, e.participant);
    if k in s.seats {
      FlushCounts(k, Attached(s, k, e.controller), Backlog(s, k), id);
      FlushSendsToKey(k, Attached(s, k, e.controller), Backlog(s, k));
      if k != key {
        CountOfOthers(Output(s, e), key, id);
      }
    }
  }

  lemma BindCounts(s: State, e: Step, key: Key, id: string)
    requires e.Bind?
    ensures Count(Output(s, e), key, id) + One(id in Told(s, key)) == One(id in Told(Next(s, e), key))
  {
    var k := KeyOf(e.session, e.participant);
    if Admits(s, k, e.binder) {
      FlushCounts(k, Bound(s, k, e.binder), Backlog(s, k), id);
      FlushSendsToKey(k, Bound(s, k, e.binder), Backlog(s, k));
      if k != key {
        CountOfOthers(Output(s, e), key, id);
      }
    }
  }

  lemma NotifyCounts(s: State, e: Step, key: Key, id: string)
    requires e.Notify?
    ensures Count(Output(s, e), key, id) + One(id in Told(s, key)) == One(id in Told(Next(s, e), key))
  {
    if Output(s, e) != [] {
      CountSnoc([], Output(s, e)[0], key, id);
      assert Output(s, e) == [] + Output(s, e);
    }
  }

  /** A step delivers a message to a seat if and only if it enters the seat's told set, and then
      exactly once.  This holds for every step but the one that takes the seat away. */
  lemma StepCounts(s: State, e: Step, key: Key, id: string)
    requires !Ends(s, e, key)
    ensures Count(Output(s, e), key, id) + One(id in Told(s, key)) == One(id in Told(Next(s, e), key))
  {
    match e {
      case Start(_, _, _, _, _, _) =>
      case Attach(_, _, _) => AttachCounts(s, e, key, id);
      case Notify(_, _, _) => NotifyCounts(s, e, key, id);
      case Bind(_, _, _) => BindCounts(s, e, key, id);
      case Revoke(_, _, _) =>
    }
  }

  /** Messages told to, or waiting for, a participant. */
  function InHand(s: State, key: Key): set<string> {
    Told(s, key) + Ids(Backlog(s, key))
  }

  /** The message a step addresses to a participant. */
  function Asked(e: Step, key: Key): set<string> {
    if e.Notify? && KeyOf(e.session, e.participant) == key then {e.row.id} else {}
  }

  lemma FlushKeepsInHand(s: State, k: Key, seat: Seat, key: Key)
    requires k in s.seats && seat.told == s.seats[k].told
    ensures InHand(AfterFlush(s, k, seat), key) == InHand(s, key)
  {
    FlushKeepsIds(k, seat, Backlog(s, k));
  }

  lemma NotifyAddsInHand(s: State, k: Key, row: Row, key: Key)
    ensures InHand(AfterNotify(s, k, row), key) == InHand(s, key) + if k == key then {row.id} else {}
  {
    IdsSnoc(Backlog(s, k), row);
  }

  /** No step but a revoke that names the participant, or takes its seat away, makes one of its
      messages disappear; and none appears that was not notified. */
  lemma StepKeepsInHand(s: State, e: Step, key: Key)
    requires e.Revoke? ==> !Drops(s, e, key)
    ensures InHand(Next(s, e), key) == InHand(s, key) + Asked(e, key)
  {
    match e {
      case Start(_, _, _, _, _, _) =>
      case Attach(session, participant, controller) =>
        var k := KeyOf(session, participant);
        if k in s.seats {
          FlushKeepsInHand(s, k, Attached(s, k, controller), key);
        }
      case Notify(session, participant, row) => NotifyAddsInHand(s, KeyOf(session, participant), row, key);
      case Bind(session, participant, binder) =>
        var k := KeyOf(session, participant);
        if Admits(s, k, binder) {
          FlushKeepsInHand(s, k, Bound(s, k, binder), key);
        }
      case Revoke(_, _, _) =>
        assert Backlog(Next(s, e), key) == Backlog(s, key);
        assert Told(Next(s, e), key) == Told(s, key);
    }
  }
}
