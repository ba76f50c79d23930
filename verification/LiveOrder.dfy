/** In which order a seat receives its messages (`packages/hub-daemon/src/live-assignments.ts`). */
module LiveOrder {
  import opened JsText
  import opened LiveSeats
  import opened LiveSeatRuns
  import opened Wrappers

  /** What a participant still has to be told, oldest first. */
  function Waiting(s: State, key: Key): seq<Row> {
    Untold(Backlog(s, key), Told(s, key))
  }

  function IdsInOrder(rows: seq<Row>): seq<string> {
    seq(|rows|, k requires 0 <= k < |rows| => rows[k].id)
  }

  // ---------------------------------------------------------------- a backlog split by its routes

  function Routable(seat: Seat, rows: seq<Row>): seq<Row> {
    if rows == [] then []
    else
      var front, last := Routable(seat, rows[..|rows| - 1]), rows[|rows| - 1];
      if Route(seat, last).Some? then front + [last] else front
  }

  function Unroutable(seat: Seat, rows: seq<Row>): seq<Row> {
    if rows == [] then []
    else
      var front, last := Unroutable(seat, rows[..|rows| - 1]), rows[|rows| - 1];
      if Route(seat, last).Some? then front else front + [last]
  }

  /** A row has a route while an earlier one has none. */
  predicate Inverts(seat: Seat, rows: seq<Row>) {
    exists i, j | 0 <= i < j < |rows| :: Route(seat, rows[i]).None? && Route(seat, rows[j]).Some?
  }

  lemma {:induction false} SplitHas(seat: Seat, rows: seq<Row>, row: Row)
    ensures row in Routable(seat, rows) <==> row in rows && Route(seat, row).Some?
    ensures row in Unroutable(seat, rows) <==> row in rows && Route(seat, row).None?
  {
    if rows != [] {
      SplitHas(seat, rows[..|rows| - 1], row);
      assert rows == rows[..|rows| - 1] + [rows[|rows| - 1]];
    }
  }

  lemma FrontInverts(seat: Seat, rows: seq<Row>)
    requires rows != []
    ensures var front, last := rows[..|rows| - 1], rows[|rows| - 1];
      Inverts(seat, rows) <==> Inverts(seat, front) || (Route(seat, last).Some? && Unroutable(seat, front) != [])
  {
    var front, last := rows[..|rows| - 1], rows[|rows| - 1];
    assert forall k :: 0 <= k < |front| ==> front[k] == rows[k];
    if Unroutable(seat, front) != [] {
      SplitHas(seat, front, Unroutable(seat, front)[0]);
    }
    if Inverts(seat, rows) && !Inverts(seat, front) {
      var i, j :| 0 <= i < j < |rows| && Route(seat, rows[i]).None? && Route(seat, rows[j]).Some?;
      SplitHas(seat, front, rows[i]);
      assert j == |rows| - 1;
    }
  }

  lemma SplitSnoc(seat: Seat, front: seq<Row>, row: Row)
    ensures Routable(seat, front + [row])
         == if Route(seat, row).Some? then Routable(seat, front) + [row] else Routable(seat, front)
    ensures Unroutable(seat, front + [row])
         == if Route(seat, row).Some? then Unroutable(seat, front) else Unroutable(seat, front) + [row]
  {
    assert (front + [row])[..|front|] == front;
  }

  lemma {:induction false} SplitLength(seat: Seat, rows: seq<Row>)
    ensures |Routable(seat, rows)| + |Unroutable(seat, rows)| == |rows|
  {
    if rows != [] {
      SplitLength(seat, rows[..|rows| - 1]);
    }
  }

  /** Taking the routable rows first keeps the order when nothing inverts. */
  lemma {:induction false} SplitInOrder(seat: Seat, rows: seq<Row>)
    requires !Inverts(seat, rows)
    ensures Routable(seat, rows) + Unroutable(seat, rows) == rows
  {
    if rows != [] {
      var front, last := rows[..|rows| - 1], rows[|rows| - 1];
      FrontInverts(seat, rows);
      SplitInOrder(seat, front);
      assert rows == front + [last];
      SplitSnoc(seat, front, last);
    }
  }

  ghost predicate DiffersAt(taken: seq<Row>, rows: seq<Row>, p: nat) {
    p < |taken| && p < |rows| && taken[p].id != rows[p].id
  }

  lemma LateTaken(seat: Seat, front: seq<Row>, last: Row)
    requires DistinctIds(front + [last]) && !Inverts(seat, front)
    requires Route(seat, last).Some? && Unroutable(seat, front) != []
    ensures DiffersAt(Routable(seat, front + [last]), front + [last], |Routable(seat, front)|)
  {
    SplitInOrder(seat, front);
    SplitSnoc(seat, front, last);
    var p, rows := |Routable(seat, front)|, front + [last];
    SplitLength(seat, front);
    assert rows[p] == front[p] && rows[|front|] == last;
  }

  /** Otherwise it puts some row in the place of another one. */
  lemma {:induction false} SplitOutOfOrder(seat: Seat, rows: seq<Row>) returns (p: nat)
    requires DistinctIds(rows) && Inverts(seat, rows)
    ensures DiffersAt(Routable(seat, rows), rows, p)
  {
    var front, last := rows[..|rows| - 1], rows[|rows| - 1];
    assert rows == front + [last];
    FrontInverts(seat, rows);
    if Inverts(seat, front) {
      p := SplitOutOfOrder(seat, front);
      SplitSnoc(seat, front, last);
    } else {
      p := |Routable(seat, front)|;
      LateTaken(seat, front, last);
    }
  }

  lemma UntoldSnoc(rows: seq<Row>, row: Row, told: set<string>)
    ensures Untold(rows + [row], told) == if row.id in told then Untold(rows, told) else Untold(rows, told) + [row]
  {
    assert (rows + [row])[..|rows|] == rows;
  }

  lemma {:induction false} UntoldHas(rows: seq<Row>, told: set<string>, row: Row)
    ensures row in Untold(rows, told) <==> row in rows && row.id !in told
  {
    if rows != [] {
      UntoldHas(rows[..|rows| - 1], told, row);
      assert rows == rows[..|rows| - 1] + [rows[|rows| - 1]];
    }
  }

  lemma {:induction false} UntoldDistinct(rows: seq<Row>, told: set<string>)
    requires DistinctIds(rows)
    ensures DistinctIds(Untold(rows, told))
  {
    if rows != [] {
      var front := rows[..|rows| - 1];
      UntoldDistinct(front, told);
      forall r | r in Untold(front, told)
        ensures r.id != rows[|rows| - 1].id
      {
        UntoldHas(front, told, r);
      }
    }
  }

  lemma SameRoute(seat: Seat, other: Seat, row: Row)
    requires other.controller == seat.controller && other.principal == seat.principal
    ensures Route(other, row) == Route(seat, row)
  {
  }

  /** One more row is offered to a seat that has taken what it could of the rows before it. */
  lemma FlushSplitsRow(key: Key, seat: Seat, f: Flushed, waiting: seq<Row>, row: Row)
    requires Rows(f.sent) == Routable(seat, waiting) && f.left == Unroutable(seat, waiting)
    requires f.seat == seat.(lastSeq := f.seat.lastSeq, told := seat.told + Ids(Routable(seat, waiting)))
    requires row.id !in Ids(Routable(seat, waiting))
    ensures var g, now := FlushRow(key, f, row), if row.id in seat.told then waiting else waiting + [row];
      Rows(g.sent) == Routable(seat, now) && g.left == Unroutable(seat, now)
      && g.seat.told == seat.told + Ids(Routable(seat, now))
  {
    SameRoute(seat, f.seat, row);
    SplitSnoc(seat, waiting, row);
    if row.id !in seat.told && Route(seat, row).Some? {
      RowsSnoc(f.sent, Sent(key, row, Route(f.seat, row).value));
      IdsSnoc(Routable(seat, waiting), row);
    }
  }

  /** A flush sends the routable rows a seat had not been told and leaves the others. */
  lemma {:induction false} FlushSplits(key: Key, seat: Seat, rows: seq<Row>)
    requires DistinctIds(rows)
    ensures var f, waiting := Flush(key, seat, rows), Untold(rows, seat.told);
      Rows(f.sent) == Routable(seat, waiting) && f.left == Unroutable(seat, waiting)
      && f.seat.told == seat.told + Ids(Routable(seat, waiting))
  {
    if rows != [] {
      var front, row := rows[..|rows| - 1], rows[|rows| - 1];
      assert rows == front + [row];
      FlushSplits(key, seat, front);
      FlushKeepsSeat(key, seat, front);
      LastUntaken(seat, front, row);
      FlushSplitsRow(key, seat, Flush(key, seat, front), Untold(front, seat.told), row);
      UntoldSnoc(front, row, seat.told);
    }
  }

  /** The last row of a backlog is not told by flushing the rows before it. */
  lemma LastUntaken(seat: Seat, front: seq<Row>, row: Row)
    requires DistinctIds(front + [row])
    ensures row.id !in Ids(Routable(seat, Untold(front, seat.told)))
  {
    var waiting := Untold(front, seat.told);
    forall r | r in Routable(seat, waiting)
      ensures r.id != row.id
    {
      SplitHas(seat, waiting, r);
      UntoldHas(front, seat.told, r);
      var k :| 0 <= k < |front| && front[k] == r;
      assert (front + [row])[k] == r && (front + [row])[|front|] == row;
    }
  }

  // ---------------------------------------------------------------- one step

  /** The ids a step sends to a participant, in order. */
  function SentTo(sent: seq<Sent>, key: Key): seq<string> {
    if sent == [] then []
    else
      var front, last := SentTo(sent[..|sent| - 1], key), sent[|sent| - 1];
      if last.key == key then front + [last.row.id] else front
  }

  /** The id a step asks a participant to be told, unless it was told or is queued already. */
  function NewlyAsked(s: State, e: Step, key: Key): seq<string> {
    if e.Notify? && KeyOf(e.session, e.participant) == key && e.row.id !in InHand(s, key) then [e.row.id] else []
  }

  /** A row is handed over while an earlier one has to wait: by a notify that finds a route although
      another message is waiting, or by a controller that can be typed some waiting rows but not an
      earlier one. */
  predicate Overtakes(s: State, e: Step, key: Key) {
    match e
    case Notify(session, participant, row) =>
      && KeyOf(session, participant) == key && row.id !in Told(s, key) && NotifyRoute(s, key, row).Some?
      && Waiting(s, key) != [] && Waiting(s, key)[0].id != row.id
    case Attach(session, participant, controller) =>
      KeyOf(session, participant) == key && key in s.seats && Inverts(Attached(s, key, controller), Waiting(s, key))
    case _ => false
  }

  /** What was given, followed by what is waiting, is what was asked. */
  predicate InOrder(s: State, key: Key, given: seq<string>, asked: seq<string>) {
    asked == given + IdsInOrder(Waiting(s, key))
  }

  /** Some message was given in the place of another one. */
  predicate OutOfOrder(given: seq<string>, asked: seq<string>) {
    exists p | 0 <= p < |given| && p < |asked| :: given[p] != asked[p]
  }

  lemma {:induction false} SentToKey(sent: seq<Sent>, key: Key)
    requires forall m :: m in sent ==> m.key == key
    ensures SentTo(sent, key) == IdsInOrder(Rows(sent))
  {
    if sent != [] {
      var front, last := sent[..|sent| - 1], sent[|sent| - 1];
      SentToKey(front, key);
      assert sent == front + [last];
      RowsSnoc(front, last);
    }
  }

  lemma {:induction false} SentToOthers(sent: seq<Sent>, key: Key)
    requires forall m :: m in sent ==> m.key != key
    ensures SentTo(sent, key) == []
  {
    if sent != [] {
      SentToOthers(sent[..|sent| - 1], key);
    }
  }

  lemma {:induction false} UntoldMore(rows: seq<Row>, told: set<string>, id: string)
    requires DistinctIds(rows)
    ensures var waiting, now := Untold(rows, told), Untold(rows, told + {id});
      && (waiting == [] ==> now == [])
      && (waiting != [] && waiting[0].id == id ==> now == waiting[1..])
      && ((forall k :: 0 <= k < |rows| ==> rows[k].id != id) ==> now == waiting)
  {
    if rows != [] {
      var front, last := rows[..|rows| - 1], rows[|rows| - 1];
      UntoldMore(front, told, id);
      if Untold(front, told) != [] {
        UntoldHas(front, told, Untold(front, told)[0]);
      }
    }
  }

  lemma {:induction false} UntoldNoneLeft(rows: seq<Row>, told: set<string>)
    requires forall k :: 0 <= k < |rows| ==> rows[k].id !in told
    ensures Untold(rows, told) == rows
    decreases |rows|
  {
    if rows != [] {
      UntoldNoneLeft(rows[..|rows| - 1], told);
      assert rows == rows[..|rows| - 1] + [rows[|rows| - 1]];
    }
  }

  /** What a flush leaves is what waits afterwards. */
  lemma LeftWaits(s: State, key: Key, seat: Seat)
    requires TidyBacklogs(s) && seat.told == Told(s, key)
    ensures Waiting(AfterFlush(s, key, seat), key) == Unroutable(seat, Waiting(s, key))
  {
    var rows, waiting := Backlog(s, key), Waiting(s, key);
    var left := Unroutable(seat, waiting);
    FlushSplits(key, seat, rows);
    UntoldDistinct(rows, seat.told);
    forall k | 0 <= k < |left|
      ensures left[k].id !in Flush(key, seat, rows).seat.told
    {
      SplitHas(seat, waiting, left[k]);
      UntoldHas(rows, seat.told, left[k]);
      forall r | r in Routable(seat, waiting)
        ensures r.id != left[k].id
      {
        SplitHas(seat, waiting, r);
      }
    }
    UntoldNoneLeft(left, Flush(key, seat, rows).seat.told);
  }

  lemma IdsConcat(a: seq<Row>, b: seq<Row>)
    ensures IdsInOrder(a + b) == IdsInOrder(a) + IdsInOrder(b)
  {
  }

  lemma Associate(a: seq<string>, b: seq<string>, c: seq<string>)
    ensures a + (b + c) == a + b + c
  {
  }

  lemma FlushGives(s: State, key: Key, seat: Seat)
    requires TidyBacklogs(s) && seat.told == Told(s, key)
    ensures SentTo(Flush(key, seat, Backlog(s, key)).sent, key) == IdsInOrder(Routable(seat, Waiting(s, key)))
    ensures DistinctIds(Waiting(s, key))
  {
    var rows := Backlog(s, key);
    FlushSplits(key, seat, rows);
    FlushSendsToKey(key, seat, rows);
    SentToKey(Flush(key, seat, rows).sent, key);
    UntoldDistinct(rows, seat.told);
  }

  lemma DiffersGiven(given: seq<string>, taken: seq<Row>, waiting: seq<Row>, p: nat)
    requires DiffersAt(taken, waiting, p)
    ensures OutOfOrder(given + IdsInOrder(taken), given + IdsInOrder(waiting))
  {
    assert (given + IdsInOrder(taken))[|given| + p] != (given + IdsInOrder(waiting))[|given| + p];
  }

  lemma FlushOrder(s: State, key: Key, seat: Seat, given: seq<string>, asked: seq<string>)
    requires TidyBacklogs(s) && seat.told == Told(s, key) && InOrder(s, key, given, asked)
    ensures var given' := given + SentTo(Flush(key, seat, Backlog(s, key)).sent, key);
      if Inverts(seat, Waiting(s, key)) then OutOfOrder(given', asked)
      else InOrder(AfterFlush(s, key, seat), key, given', asked)
  {
    var waiting := Waiting(s, key);
    FlushGives(s, key, seat);
    if Inverts(seat, waiting) {
      var p := SplitOutOfOrder(seat, waiting);
      DiffersGiven(given, Routable(seat, waiting), waiting, p);
    } else {
      LeftWaits(s, key, seat);
      SplitInOrder(seat, waiting);
      IdsConcat(Routable(seat, waiting), Unroutable(seat, waiting));
      Associate(given, IdsInOrder(Routable(seat, waiting)), IdsInOrder(Unroutable(seat, waiting)));
    }
  }

  lemma PrincipalInvertsNone(seat: Seat, rows: seq<Row>)
    requires seat.principal.Some?
    ensures !Inverts(seat, rows)
  {
  }

  lemma NobodyWaits(s: State, key: Key, row: Row)
    requires TidyBacklogs(s) && Waiting(s, key) == [] && row.id !in Told(s, key)
    ensures row.id !in InHand(s, key) && Untold(Backlog(s, key), Told(s, key) + {row.id}) == []
  {
    var rows := Backlog(s, key);
    UntoldMore(rows, Told(s, key), row.id);
    forall r | r in rows
      ensures r.id in Told(s, key)
    {
      UntoldHas(rows, Told(s, key), r);
    }
  }

  /** The message that is notified again was the next one anyway. */
  lemma NextOneRouted(s: State, key: Key, row: Row, given: seq<string>, asked: seq<string>)
    requires TidyBacklogs(s) && InOrder(s, key, given, asked)
    requires Waiting(s, key) != [] && Waiting(s, key)[0].id == row.id
    ensures row.id in InHand(s, key)
    ensures asked == given + [row.id] + IdsInOrder(Untold(Backlog(s, key), Told(s, key) + {row.id}))
  {
    var rows, waiting := Backlog(s, key), Waiting(s, key);
    UntoldMore(rows, Told(s, key), row.id);
    UntoldHas(rows, Told(s, key), waiting[0]);
    assert waiting == [waiting[0]] + waiting[1..];
    IdsConcat([waiting[0]], waiting[1..]);
    assert IdsInOrder([waiting[0]]) == [row.id];
    Associate(given, [row.id], IdsInOrder(waiting[1..]));
  }

  lemma AnotherWasNext(given: seq<string>, asked: seq<string>, more: seq<string>, id: string)
    requires |given| < |asked| && asked[|given|] != id
    ensures OutOfOrder(given + [id], asked + more)
  {
    assert (given + [id])[|given|] == id && (asked + more)[|given|] == asked[|given|];
  }

  /** A notify that finds a route. */
  lemma RoutedOrder(s: State, key: Key, row: Row, given: seq<string>, asked: seq<string>)
    requires TidyBacklogs(s) && InOrder(s, key, given, asked)
    requires row.id !in Told(s, key) && NotifyRoute(s, key, row).Some?
    ensures var waiting := Waiting(s, key);
      var given', asked' := given + [row.id], asked + if row.id in InHand(s, key) then [] else [row.id];
      if waiting != [] && waiting[0].id != row.id then OutOfOrder(given', asked')
      else InOrder(AfterNotify(s, key, row), key, given', asked')
  {
    var waiting := Waiting(s, key);
    if waiting == [] {
      NobodyWaits(s, key, row);
      assert asked == given;
    } else if waiting[0].id == row.id {
      NextOneRouted(s, key, row, given, asked);
      assert asked + [] == asked;
    } else {
      assert asked[|given|] == waiting[0].id;
      AnotherWasNext(given, asked, if row.id in InHand(s, key) then [] else [row.id], row.id);
    }
  }

  /** A notify that has to wait. */
  lemma QueuedOrder(s: State, key: Key, row: Row, given: seq<string>, asked: seq<string>)
    requires InOrder(s, key, given, asked) && row.id !in Told(s, key) && NotifyRoute(s, key, row).None?
    ensures var asked' := asked + if row.id in InHand(s, key) then [] else [row.id];
      InOrder(AfterNotify(s, key, row), key, given, asked')
  {
    var rows, waiting := Backlog(s, key), Waiting(s, key);
    if row.id !in Ids(rows) {
      UntoldSnoc(rows, row, Told(s, key));
      IdsConcat(waiting, [row]);
      assert IdsInOrder([row]) == [row.id];
      Associate(given, IdsInOrder(waiting), [row.id]);
    } else {
      assert asked + [] == asked;
    }
  }

  lemma NotifyOrder(s: State, e: Step, key: Key, given: seq<string>, asked: seq<string>)
    requires TidyBacklogs(s) && InOrder(s, key, given, asked) && e.Notify? && KeyOf(e.session, e.participant) == key
    ensures var given', asked' := given + SentTo(Output(s, e), key), asked + NewlyAsked(s, e, key);
      if Overtakes(s, e, key) then OutOfOrder(given', asked') else InOrder(Next(s, e), key, given', asked')
  {
    if e.row.id in Told(s, key) {
      assert given + [] == given && asked + [] == asked;
    } else if NotifyRoute(s, key, e.row).Some? {
      RoutedOrder(s, key, e.row, given, asked);
      var m := Sent(key, e.row, NotifyRoute(s, key, e.row).value);
      assert Output(s, e) == [m] && [m][..0] == [];
      assert SentTo([m], key) == [e.row.id];
    } else {
      QueuedOrder(s, key, e.row, given, asked);
      assert given + [] == given;
    }
  }

  lemma OthersKeepOrder(s: State, e: Step, key: Key, given: seq<string>, asked: seq<string>)
    requires InOrder(s, key, given, asked) && (e.Revoke? ==> !Drops(s, e, key))
    requires !e.Start? && !e.Revoke? ==> KeyOf(e.session, e.participant) != key
    ensures InOrder(Next(s, e), key, given + SentTo(Output(s, e), key), asked + NewlyAsked(s, e, key))
  {
    assert given + [] == given && asked + [] == asked;
    assert Backlog(Next(s, e), key) == Backlog(s, key) && Told(Next(s, e), key) == Told(s, key);
    if !e.Start? && !e.Revoke? {
      var k := KeyOf(e.session, e.participant);
      OutputSendsTo(s, e, k);
      SentToOthers(Output(s, e), key);
    }
  }

  lemma OutputSendsTo(s: State, e: Step, k: Key)
    requires !e.Start? && !e.Revoke? && k == KeyOf(e.session, e.participant)
    ensures forall m :: m in Output(s, e) ==> m.key == k
  {
    match e {
      case Attach(_, _, controller) =>
        if k in s.seats {
          FlushSendsToKey(k, Attached(s, k, controller), Backlog(s, k));
        }
      case Bind(_, _, binder) =>
        if Admits(s, k, binder) {
          FlushSendsToKey(k, Bound(s, k, binder), Backlog(s, k));
        }
      case Notify(_, _, _) =>
    }
  }

  /** A step keeps the order exactly when it hands over no row while an earlier one has to wait;
      otherwise a message has been given in the place of another one. */
  lemma OrderStep(s: State, e: Step, key: Key, given: seq<string>, asked: seq<string>)
    requires TidyBacklogs(s) && InOrder(s, key, given, asked) && (e.Revoke? ==> !Drops(s, e, key))
    ensures var given', asked' := given + SentTo(Output(s, e), key), asked + NewlyAsked(s, e, key);
      if Overtakes(s, e, key) then OutOfOrder(given', asked') else InOrder(Next(s, e), key, given', asked')
  {
    if e.Start? || e.Revoke? || KeyOf(e.session, e.participant) != key {
      OthersKeepOrder(s, e, key, given, asked);
    } else {
      assert asked + [] == asked && given + [] == given;
      match e {
        case Notify(_, _, _) => NotifyOrder(s, e, key, given, asked);
        case Attach(_, _, controller) =>
          if key in s.seats {
            FlushOrder(s, key, Attached(s, key, controller), given, asked);
          }
        case Bind(_, _, binder) =>
          if Admits(s, key, binder) {
            PrincipalInvertsNone(Bound(s, key, binder), Waiting(s, key));
            FlushOrder(s, key, Bound(s, key, binder), given, asked);
          }
      }
    }
  }

  // ---------------------------------------------------------------- whole runs

  /** A state, with what one participant has been given and asked to be told so far. */
  datatype Track = Track(state: State, given: seq<string>, asked: seq<string>)

  ghost predicate TrackAt(run: seq<Track>, steps: seq<Step>, key: Key, k: nat)
    requires |run| == |steps| + 1 && k < |steps|
  {
    && run[k + 1].state == Next(run[k].state, steps[k])
    && run[k + 1].given == run[k].given + SentTo(Output(run[k].state, steps[k]), key)
    && run[k + 1].asked == run[k].asked + NewlyAsked(run[k].state, steps[k], key)
    && (steps[k].Revoke? ==> !Drops(run[k].state, steps[k], key))
  }

  /** A stretch of a run that begins with nothing in hand for the participant and does not revoke it. */
  ghost predicate IsTracked(run: seq<Track>, steps: seq<Step>, key: Key) {
    && |run| == |steps| + 1 && run[0] == Track(run[0].state, [], [])
    && TidyBacklogs(run[0].state) && InHand(run[0].state, key) == {}
    && forall k :: 0 <= k < |steps| ==> TrackAt(run, steps, key, k)
  }

  predicate OrderKept(t: Track, key: Key) {
    InOrder(t.state, key, t.given, t.asked)
  }

  predicate OrderLost(t: Track) {
    OutOfOrder(t.given, t.asked)
  }

  ghost predicate NoneOvertakes(run: seq<Track>, steps: seq<Step>, key: Key, n: nat)
    requires |run| == |steps| + 1 && n < |run|
  {
    forall k :: 0 <= k < n ==> !Overtakes(run[k].state, steps[k], key)
  }

  lemma {:induction false} TrackTidy(run: seq<Track>, steps: seq<Step>, key: Key, n: nat)
    requires IsTracked(run, steps, key) && n < |run|
    ensures TidyBacklogs(run[n].state)
  {
    if n > 0 {
      TrackTidy(run, steps, key, n - 1);
      assert TrackAt(run, steps, key, n - 1);
      StepTidy(run[n - 1].state, steps[n - 1]);
    }
  }

  lemma NothingInHand(s: State, key: Key)
    requires InHand(s, key) == {}
    ensures Waiting(s, key) == []
  {
    forall r | r in Backlog(s, key)
      ensures r.id in InHand(s, key)
    {
    }
    assert forall k :: 0 <= k < |Backlog(s, key)| ==> Backlog(s, key)[k] in Backlog(s, key);
  }

  lemma TrackStep(run: seq<Track>, steps: seq<Step>, key: Key, k: nat)
    requires IsTracked(run, steps, key) && k < |steps| && OrderKept(run[k], key)
    ensures if Overtakes(run[k].state, steps[k], key) then OrderLost(run[k + 1]) else OrderKept(run[k + 1], key)
  {
    TrackTidy(run, steps, key, k);
    assert TrackAt(run, steps, key, k);
    OrderStep(run[k].state, steps[k], key, run[k].given, run[k].asked);
  }

  /** What was given in the wrong place stays there. */
  lemma LostStep(run: seq<Track>, steps: seq<Step>, key: Key, k: nat)
    requires IsTracked(run, steps, key) && k < |steps| && OrderLost(run[k])
    ensures OrderLost(run[k + 1])
  {
    assert TrackAt(run, steps, key, k);
    var given, asked := run[k].given, run[k].asked;
    var p :| 0 <= p < |given| && p < |asked| && given[p] != asked[p];
    assert run[k + 1].given[p] == given[p] && run[k + 1].asked[p] == asked[p];
  }

  lemma {:induction false} KeptOrLost(run: seq<Track>, steps: seq<Step>, key: Key, n: nat)
    requires IsTracked(run, steps, key) && n < |run|
    ensures if NoneOvertakes(run, steps, key, n) then OrderKept(run[n], key) else OrderLost(run[n])
  {
    if n == 0 {
      NothingInHand(run[0].state, key);
    } else {
      KeptOrLost(run, steps, key, n - 1);
      if NoneOvertakes(run, steps, key, n - 1) {
        TrackStep(run, steps, key, n - 1);
      } else {
        LostStep(run, steps, key, n - 1);
      }
    }
  }

  lemma KeptIsNotLost(t: Track, key: Key)
    requires OrderKept(t, key)
    ensures !OrderLost(t)
  {
  }

  /** From a moment when nothing is in hand for a participant, and until it is revoked: what it was
      given, followed by what is waiting for it, is what it was notified of, in that order, if and
      only if no step handed over a row while an earlier one had to wait. */
  lemma OrderIff(run: seq<Track>, steps: seq<Step>, key: Key, n: nat)
    requires IsTracked(run, steps, key) && n < |run|
    ensures OrderKept(run[n], key) <==> NoneOvertakes(run, steps, key, n)
  {
    KeptOrLost(run, steps, key, n);
    if OrderKept(run[n], key) {
      KeptIsNotLost(run[n], key);
    }
  }

  // ---------------------------------------------------------------- instances

  const SEAT := Key("ses_m", "p")

  /** A seat without a principal, behind a terminal or not. */
  function Alone(space: string, controller: Option<Controller>): Seat {
    Seat("r", "h", None, Some(space), None, {}, controller)
  }

  function With(seat: Seat, rows: seq<Row>): State {
    State(map[SEAT := seat], if rows == [] then map[] else map[SEAT := rows], map[])
  }

  lemma StartsAlone(space: string, rows: seq<Row>)
    ensures Next(State(map[], if rows == [] then map[] else map[SEAT := rows], map[]), Start("ses_m", "p", "h", "r", None, Some(space)))
         == With(Alone(space, None), rows)
  {
  }

  lemma AttachesToNothing(space: string, c: Controller)
    ensures Next(With(Alone(space, None), []), Attach("ses_m", "p", c)) == With(Alone(space, Some(c)), [])
  {
    var s := With(Alone(space, None), []);
    assert Flush(SEAT, Attached(s, SEAT, c), []) == Flushed(Alone(space, Some(c)), [], []);
  }

  /** Without a prompt there is nothing to type. */
  lemma QueuedWithoutPrompt(space: string, c: Controller, first: Row)
    requires first.prompt.None?
    ensures var s := With(Alone(space, Some(c)), []);
      Next(s, Notify("ses_m", "p", first)) == With(Alone(space, Some(c)), [first])
  {
    assert [] + [first] == [first];
  }

  lemma TypesX(seat: Seat, c: Controller, row: Row)
    requires seat.controller == Some(c) && c.writable && row.prompt == Some("x")
    ensures Route(seat, row) == Some(Typed(c, "x"))
  {
    assert TrimStart("x") == "x" && TrimEnd("x") == "x";
  }

  lemma OneWaits(seat: Seat, first: Row)
    requires first.id !in seat.told
    ensures Waiting(With(seat, [first]), SEAT) == [first]
  {
    UntoldNoneLeft([first], seat.told);
  }

  lemma TypedAtOnce(space: string, c: Controller, first: Row, second: Row)
    requires first.id != second.id && c.writable && second.prompt == Some("x")
    ensures var s, e := With(Alone(space, Some(c)), [first]), Notify("ses_m", "p", second);
      && Overtakes(s, e, SEAT) && Next(s, e) == With(Marked(Alone(space, Some(c)), second), [first])
      && Output(s, e) == [Sent(SEAT, second, Typed(c, "x"))]
  {
    TypesX(Alone(space, Some(c)), c, second);
    OneWaits(Alone(space, Some(c)), first);
  }

  lemma PostedByBind(c: Controller, who: Principal, first: Row, second: Row)
    requires first.id != second.id && who.space != ""
    ensures var s := With(Marked(Alone(who.space, Some(c)), second), [first]);
      Rows(Output(s, Bind("ses_m", "p", who))) == [first]
  {
    var s := With(Marked(Alone(who.space, Some(c)), second), [first]);
    FlushHandsOverAll(SEAT, Bound(s, SEAT, who), [first]);
    assert [first][..0] == [];
  }

  /** No principal starts over a backlog here, and still a later message goes first: a message
      without a prompt cannot be typed and waits for a principal, the next one is typed at once. */
  lemma MissingPromptIsOvertaken(who: Principal, c: Controller, first: Row, second: Row)
    returns (run: seq<State>, steps: seq<Step>)
    requires first.id != second.id && who.space != "" && c.writable && first.prompt.None? && second.prompt == Some("x")
    ensures |steps| == 5 && IsRun(run, steps) && run[0] == EMPTY
    ensures steps[2] == Notify("ses_m", "p", first) && steps[3] == Notify("ses_m", "p", second)
    ensures Overtakes(run[3], steps[3], SEAT) && Rows(Output(run[3], steps[3])) == [second]
    ensures Rows(Output(run[4], steps[4])) == [first]
    ensures forall k :: 0 <= k < 5 && steps[k].Start? ==> steps[k].principal.None?
  {
    var s1, s2 := With(Alone(who.space, None), []), With(Alone(who.space, Some(c)), []);
    var s3 := With(Alone(who.space, Some(c)), [first]);
    var s4 := With(Marked(Alone(who.space, Some(c)), second), [first]);
    steps := [Start("ses_m", "p", "h", "r", None, Some(who.space)), Attach("ses_m", "p", c),
              Notify("ses_m", "p", first), Notify("ses_m", "p", second), Bind("ses_m", "p", who)];
    run := [EMPTY, s1, s2, s3, s4, Next(s4, steps[4])];
    forall k | 0 <= k < 5
      ensures StepAt(run, steps, k)
    {
      if k == 0 {
        StartsAlone(who.space, []);
      } else if k == 1 {
        AttachesToNothing(who.space, c);
      } else if k == 2 {
        QueuedWithoutPrompt(who.space, c, first);
      } else if k == 3 {
        TypedAtOnce(who.space, c, first, second);
      }
    }
    TypedAtOnce(who.space, c, first, second);
    PostedByBind(c, who, first, second);
    assert Rows([Sent(SEAT, second, Typed(c, "x"))]) == [second];
  }

  /** What an attached controller takes, and what it leaves. */
  lemma AttachTakes(s: State, e: Step, key: Key)
    requires TidyBacklogs(s) && e.Attach? && KeyOf(e.session, e.participant) == key && key in s.seats
    ensures Rows(Output(s, e)) == Routable(Attached(s, key, e.controller), Waiting(s, key))
    ensures Waiting(Next(s, e), key) == Unroutable(Attached(s, key, e.controller), Waiting(s, key))
  {
    FlushSplits(key, Attached(s, key, e.controller), Backlog(s, key));
    LeftWaits(s, key, Attached(s, key, e.controller));
  }

  /** A terminal that is attached over a backlog takes the rows it can type and leaves the others. */
  lemma AttachReorders(space: string, c: Controller, first: Row, second: Row)
    requires first.id != second.id && c.writable && first.prompt.None? && second.prompt == Some("x")
    ensures var s, e := With(Alone(space, None), [first, second]), Attach("ses_m", "p", c);
      && Overtakes(s, e, SEAT) && Rows(Output(s, e)) == [second] && Waiting(Next(s, e), SEAT) == [first]
  {
    var s := With(Alone(space, None), [first, second]);
    TwoWait(s.seats[SEAT], first, second);
    AttachTakes(s, Attach("ses_m", "p", c), SEAT);
    SplitFirstSecond(Alone(space, Some(c)), c, first, second);
  }

  lemma TwoWait(seat: Seat, first: Row, second: Row)
    requires first.id !in seat.told && second.id !in seat.told
    ensures Untold([first, second], seat.told) == [first, second]
  {
    UntoldNoneLeft([first, second], seat.told);
  }

  lemma SplitFirstSecond(seat: Seat, c: Controller, first: Row, second: Row)
    requires seat.controller == Some(c) && c.writable && seat.principal.None?
    requires first.prompt.None? && second.prompt == Some("x")
    ensures Routable(seat, [first, second]) == [second] && Unroutable(seat, [first, second]) == [first]
    ensures Inverts(seat, [first, second])
  {
    TypesX(seat, c, second);
    SplitSnoc(seat, [], first);
    SplitSnoc(seat, [first], second);
    assert [] + [first] == [first] && [first] + [second] == [first, second];
    assert Route(seat, [first, second][0]).None? && Route(seat, [first, second][1]).Some?;
  }
}
