/** What every run of live seats keeps (`packages/hub-daemon/src/live-assignments.ts`). */
module LiveSeatRuns {
  import opened LiveSeats
  import opened SpaceIds
  import opened Wrappers

  // ---------------------------------------------------------------- at most once

  /** The seat is not taken away between two moments of a run.  It may be started again: that keeps
      the incarnation. */
  ghost predicate SameIncarnation(run: seq<State>, steps: seq<Step>, key: Key, i: nat, j: nat)
    requires IsRun(run, steps) && i <= j < |run|
  {
    forall k :: i <= k < j ==> !Ends(run[k], steps[k], key)
  }

  ghost function Given(run: seq<State>, steps: seq<Step>, key: Key, id: string, k: nat): nat
    requires IsRun(run, steps) && k < |steps|
  {
    Count(Output(run[k], steps[k]), key, id)
  }

  lemma ToldAt(run: seq<State>, steps: seq<Step>, key: Key, id: string, k: nat)
    requires IsRun(run, steps) && k < |steps| && !Ends(run[k], steps[k], key)
    ensures Given(run, steps, key, id, k) + One(id in Told(run[k], key)) == One(id in Told(run[k + 1], key))
  {
    assert StepAt(run, steps, k);
    StepCounts(run[k], steps[k], key, id);
  }

  /** How often the steps between two moments deliver a message to a participant. */
  ghost function Deliveries(run: seq<State>, steps: seq<Step>, key: Key, id: string, i: nat, j: nat): nat
    requires IsRun(run, steps) && i <= j < |run|
  {
    if i == j then 0
    else Deliveries(run, steps, key, id, i, j - 1) + Given(run, steps, key, id, j - 1)
  }

  lemma ShorterIncarnation(run: seq<State>, steps: seq<Step>, key: Key, i: nat, j: nat)
    requires IsRun(run, steps) && i < j < |run| && SameIncarnation(run, steps, key, i, j)
    ensures SameIncarnation(run, steps, key, i, j - 1) && !Ends(run[j - 1], steps[j - 1], key)
  {
  }

  /** Within one incarnation the told set is an exact record: a message is in it at the end if and
      only if it was at the beginning or was delivered in between, and never both nor twice. */
  lemma {:induction false} ToldIsExact(run: seq<State>, steps: seq<Step>, key: Key, id: string, i: nat, j: nat)
    requires IsRun(run, steps) && i <= j < |run| && SameIncarnation(run, steps, key, i, j)
    ensures Deliveries(run, steps, key, id, i, j) + One(id in Told(run[i], key)) == One(id in Told(run[j], key))
  {
    if i < j {
      ShorterIncarnation(run, steps, key, i, j);
      ToldIsExact(run, steps, key, id, i, j - 1);
      ToldAt(run, steps, key, id, j - 1);
    }
  }

  /** A seat incarnation receives each message id at most once. */
  lemma DeliveredAtMostOnce(run: seq<State>, steps: seq<Step>, key: Key, id: string, i: nat, j: nat)
    requires IsRun(run, steps) && i <= j < |run| && SameIncarnation(run, steps, key, i, j)
    ensures Deliveries(run, steps, key, id, i, j) <= 1
    ensures id in Told(run[i], key) ==> Deliveries(run, steps, key, id, i, j) == 0
  {
    ToldIsExact(run, steps, key, id, i, j);
  }

  // ---------------------------------------------------------------- nothing is lost

  /** No step in between drops what is in hand for the participant. */
  ghost predicate NotRevoked(run: seq<State>, steps: seq<Step>, key: Key, i: nat, j: nat)
    requires IsRun(run, steps) && i <= j < |run|
  {
    forall k :: i <= k < j && steps[k].Revoke? ==> !Drops(run[k], steps[k], key)
  }

  ghost function AskedBetween(steps: seq<Step>, key: Key, i: nat, j: nat): set<string>
    requires i <= j <= |steps|
  {
    if i == j then {} else AskedBetween(steps, key, i, j - 1) + Asked(steps[j - 1], key)
  }

  lemma InHandAt(run: seq<State>, steps: seq<Step>, key: Key, k: nat)
    requires IsRun(run, steps) && k < |steps| && (steps[k].Revoke? ==> !Drops(run[k], steps[k], key))
    ensures InHand(run[k + 1], key) == InHand(run[k], key) + Asked(steps[k], key)
  {
    assert StepAt(run, steps, k);
    StepKeepsInHand(run[k], steps[k], key);
  }

  lemma ShorterUnrevoked(run: seq<State>, steps: seq<Step>, key: Key, i: nat, j: nat)
    requires IsRun(run, steps) && i < j < |run| && NotRevoked(run, steps, key, i, j)
    ensures NotRevoked(run, steps, key, i, j - 1) && (steps[j - 1].Revoke? ==> !Drops(run[j - 1], steps[j - 1], key))
  {
  }

  /** Until the participant is revoked, the messages told or pending are exactly those that were so
      at the beginning and those notified since. */
  lemma {:induction false} NothingLost(run: seq<State>, steps: seq<Step>, key: Key, i: nat, j: nat)
    requires IsRun(run, steps) && i <= j < |run| && NotRevoked(run, steps, key, i, j)
    ensures InHand(run[j], key) == InHand(run[i], key) + AskedBetween(steps, key, i, j)
  {
    if i < j {
      ShorterUnrevoked(run, steps, key, i, j);
      NothingLost(run, steps, key, i, j - 1);
      InHandAt(run, steps, key, j - 1);
    }
  }

  // ---------------------------------------------------------------- backlogs

  /** Backlogs are never empty, and name no message twice. */
  predicate TidyBacklogs(s: State) {
    forall k :: k in s.pending ==> s.pending[k] != [] && DistinctIds(s.pending[k])
  }

  lemma NotInIds(rows: seq<Row>, id: string)
    requires id !in Ids(rows)
    ensures forall k :: 0 <= k < |rows| ==> rows[k].id != id
  {
    forall k | 0 <= k < |rows|
      ensures rows[k].id != id
    {
      assert rows[k].id in Ids(rows);
    }
  }

  lemma {:induction false} LeftAmong(key: Key, seat: Seat, rows: seq<Row>)
    ensures forall r :: r in Flush(key, seat, rows).left ==> r in rows
  {
    if rows != [] {
      LeftAmong(key, seat, rows[..|rows| - 1]);
    }
  }

  lemma {:induction false} LeftDistinct(key: Key, seat: Seat, rows: seq<Row>)
    requires DistinctIds(rows)
    ensures DistinctIds(Flush(key, seat, rows).left)
  {
    if rows != [] {
      LeftDistinct(key, seat, rows[..|rows| - 1]);
      LeftAmong(key, seat, rows[..|rows| - 1]);
      forall r | r in Flush(key, seat, rows[..|rows| - 1]).left
        ensures r.id != rows[|rows| - 1].id
      {
        assert r in rows[..|rows| - 1];
      }
    }
  }

  lemma StepTidy(s: State, e: Step)
    requires TidyBacklogs(s)
    ensures TidyBacklogs(Next(s, e))
  {
    match e {
      case Start(_, _, _, _, _, _) =>
      case Attach(session, participant, controller) =>
        var k := KeyOf(session, participant);
        if k in s.seats {
          LeftDistinct(k, Attached(s, k, controller), Backlog(s, k));
        }
      case Notify(session, participant, row) =>
        var k := KeyOf(session, participant);
        if row.id !in Ids(Backlog(s, k)) {
          NotInIds(Backlog(s, k), row.id);
        }
      case Bind(session, participant, binder) =>
        var k := KeyOf(session, participant);
        if Admits(s, k, binder) {
          LeftDistinct(k, Bound(s, k, binder), Backlog(s, k));
        }
      case Revoke(_, _, _) =>
    }
  }

  lemma {:induction false} AlwaysTidy(run: seq<State>, steps: seq<Step>, n: nat)
    requires IsRun(run, steps) && run[0] == EMPTY && n < |run|
    ensures TidyBacklogs(run[n])
  {
    if n > 0 {
      AlwaysTidy(run, steps, n - 1);
      assert StepAt(run, steps, n - 1);
      StepTidy(run[n - 1], steps[n - 1]);
    }
  }

  /** There is a seat, and its space and the principal's are one, written with or without prefix. */
  predicate InSeatsSpace(s: State, key: Key, principal: Principal) {
    && key in s.seats && s.seats[key].space.Some? && s.seats[key].space.value != "" && principal.space != ""
    && NameSameSpace(s.seats[key].space.value, principal.space)
  }

  lemma AdmitsIff(s: State, key: Key, principal: Principal)
    ensures Admits(s, key, principal) <==> InSeatsSpace(s, key, principal)
  {
    if key in s.seats && s.seats[key].space.Some? {
      BareAgreeIff(s.seats[key].space.value, principal.space);
    }
  }

  /** At any moment of any run, binding a principal of the seat's space makes it the seat's principal
      and hands over the whole backlog, in the order in which it was queued and without what the seat
      had been told before; nothing stays pending.  A principal of any other space changes nothing. */
  lemma BindHandsOverBacklog(run: seq<State>, steps: seq<Step>, n: nat, e: Step)
    requires IsRun(run, steps) && run[0] == EMPTY && n < |run| && e.Bind?
    ensures var s, t, key := run[n], Next(run[n], e), KeyOf(e.session, e.participant);
      if InSeatsSpace(s, key, e.binder) then
        && key !in t.pending && key in t.seats
        && t.seats[key].principal == Some(e.binder) && t.seats[key].space == Some(e.binder.space)
        && Rows(Output(s, e)) == Untold(Backlog(s, key), Told(s, key))
        && Told(t, key) == InHand(s, key)
      else
        t == s && Output(s, e) == []
  {
    var s, key := run[n], KeyOf(e.session, e.participant);
    AdmitsIff(s, key, e.binder);
    if Admits(s, key, e.binder) {
      AlwaysTidy(run, steps, n);
      var seat := Bound(s, key, e.binder);
      FlushHandsOverAll(key, seat, Backlog(s, key));
      FlushLeavesNone(key, seat, Backlog(s, key));
      FlushKeepsIds(key, seat, Backlog(s, key));
      FlushKeepsSeat(key, seat, Backlog(s, key));
    }
  }

  // ---------------------------------------------------------------- order

  /** Nothing waits for a seat that has a principal. */
  predicate Drained(s: State) {
    forall k :: k in s.seats && s.seats[k].principal.Some? ==> k !in s.pending
  }

  /** The one step that breaks this: a start that brings a principal to a participant with a
      backlog, since a start does not flush. */
  predicate StartsOverBacklog(s: State, e: Step) {
    e.Start? && e.principal.Some? && KeyOf(e.session, e.participant) in s.pending
  }

  lemma FlushKeepsDrained(s: State, key: Key, seat: Seat)
    requires Drained(s) && key in s.seats
    requires seat.principal.Some? || seat.principal == s.seats[key].principal
    ensures Drained(AfterFlush(s, key, seat))
  {
    var rows := Backlog(s, key);
    FlushKeepsSeat(key, seat, rows);
    if seat.principal.Some? {
      FlushLeavesNone(key, seat, rows);
    }
  }

  /** Seats with a principal stay without a backlog exactly as long as no start brings a principal
      over a backlog. */
  lemma DrainedStep(s: State, e: Step)
    requires Drained(s)
    ensures Drained(Next(s, e)) <==> !StartsOverBacklog(s, e)
  {
    match e {
      case Start(session, participant, _, _, _, _) =>
        var key := KeyOf(session, participant);
        assert key in Next(s, e).seats;
      case Attach(session, participant, controller) =>
        var key := KeyOf(session, participant);
        if key in s.seats {
          FlushKeepsDrained(s, key, Attached(s, key, controller));
        }
      case Notify(_, _, _) =>
      case Bind(session, participant, binder) =>
        var key := KeyOf(session, participant);
        if Admits(s, key, binder) {
          FlushKeepsDrained(s, key, Bound(s, key, binder));
        }
      case Revoke(_, _, _) =>
    }
  }

  const LATE := Key("ses_m", "p")

  function Late(who: Principal): Seat {
    Seat("r", "h", Some(who), Some(who.space), None, {}, None)
  }

  lemma QueuedBeforeStart(first: Row)
    ensures Next(EMPTY, Notify("ses_m", "p", first)) == State(map[], map[LATE := [first]], map[])
  {
    assert Backlog(EMPTY, LATE) + [first] == [first];
  }

  lemma StartedOverBacklog(who: Principal, first: Row)
    ensures Next(State(map[], map[LATE := [first]], map[]), Start("ses_m", "p", "h", "r", Some(who), None))
         == State(map[LATE := Late(who)], map[LATE := [first]], map[])
  {
  }

  lemma PostedAtOnce(who: Principal, first: Row, second: Row)
    ensures var s := State(map[LATE := Late(who)], map[LATE := [first]], map[]);
      && Next(s, Notify("ses_m", "p", second)) == s.(seats := map[LATE := Marked(Late(who), second)])
      && Output(s, Notify("ses_m", "p", second)) == [Sent(LATE, second, Posted(who))]
  {
  }

  lemma FollowsWithBind(who: Principal, first: Row, second: Row)
    requires first.id != second.id && who.space != ""
    ensures var s := State(map[LATE := Marked(Late(who), second)], map[LATE := [first]], map[]);
      Rows(Output(s, Bind("ses_m", "p", who))) == [first]
  {
    var s := State(map[LATE := Marked(Late(who), second)], map[LATE := [first]], map[]);
    FlushHandsOverAll(LATE, Bound(s, LATE, who), [first]);
    assert [first][..0] == [];
  }

  /** Such a start does let a later message overtake an earlier one: `first` is queued, the seat
      starts with its principal, `second` is posted at once, and `first` follows with the next bind. */
  lemma StartLetsLaterOvertake(who: Principal, first: Row, second: Row)
    returns (run: seq<State>, steps: seq<Step>)
    requires first.id != second.id && who.space != ""
    ensures |steps| == 4 && IsRun(run, steps) && run[0] == EMPTY
    ensures steps[0] == Notify("ses_m", "p", first) && steps[2] == Notify("ses_m", "p", second)
    ensures Rows(Output(run[2], steps[2])) == [second] && Rows(Output(run[3], steps[3])) == [first]
  {
    var s1 := State(map[], map[LATE := [first]], map[]);
    var s2 := State(map[LATE := Late(who)], map[LATE := [first]], map[]);
    var s3 := s2.(seats := map[LATE := Marked(Late(who), second)]);
    steps := [Notify("ses_m", "p", first), Start("ses_m", "p", "h", "r", Some(who), None),
              Notify("ses_m", "p", second), Bind("ses_m", "p", who)];
    run := [EMPTY, s1, s2, s3, Next(s3, steps[3])];
    QueuedBeforeStart(first);
    StartedOverBacklog(who, first);
    PostedAtOnce(who, first, second);
    FollowsWithBind(who, first, second);
    forall k | 0 <= k < 4
      ensures StepAt(run, steps, k)
    {
      if k == 0 {
      } else if k == 1 {
      } else if k == 2 {
      }
    }
  }

  // ---------------------------------------------------------------- revoking

  function SeatAt(s: State, key: Key): Option<Seat> {
    if key in s.seats then Some(s.seats[key]) else None
  }

  function ArchiveAt(s: State, key: Key): Option<Archive> {
    if key in s.archives then Some(s.archives[key]) else None
  }

  /** What a revoke leaves: the seats it names are archived and gone, with their backlogs; every
      other seat, backlog and archive is as it was.  A session-wide revoke names seats, so that the
      backlog of a participant without one stays; a revoke of one participant takes its backlog. */
  lemma RevokeTakesExactly(s: State, session: string, only: Option<string>, snapshot: map<Controller, string>, key: Key)
    ensures var t := Next(s, Revoke(session, only, snapshot));
      var one := only.Some? && only.value != "";
      var named := if one then key == KeyOf(session, only.value) else key.session == SessionId(session);
      && SeatAt(t, key) == (if named then None else SeatAt(s, key))
      && Backlog(t, key) == (if named && (one || key in s.seats) then [] else Backlog(s, key))
      && if named && key in s.seats then
           var seat := s.seats[key];
           && ArchiveAt(t, key).Some?
           && var a := ArchiveAt(t, key).value;
              && a.run == seat.run && a.handler == seat.handler
              && match seat.controller
                 case Some(c) => a.snapshot == if c in snapshot then snapshot[c] else ""
                 case None => a.snapshot == ""
         else ArchiveAt(t, key) == ArchiveAt(s, key)
  {
  }
}
