/** The object that keeps the live seats (`packages/hub-daemon/src/live-assignments.ts`), with its
    three tables changed in place.  `outbox` is everything it ever delivered. */
module LiveAssignments {
  import opened LiveSeats
  import opened Wrappers

  class InMemoryLiveAssignments {
    var seats: map<Key, Seat>
    var pending: map<Key, seq<Row>>
    var archives: map<Key, Archive>
    ghost var outbox: seq<Sent>

    ghost function View(): State
      reads this
    {
      State(seats, pending, archives)
    }

    /** The object took this step. */
    twostate predicate Took(e: Step)
      reads this
    {
      && View() == Next(old(View()), e)
      && outbox == old(outbox) + Output(old(View()), e)
    }

    constructor ()
      ensures View() == EMPTY && outbox == []
    {
      seats, pending, archives := map[], map[], map[];
      outbox := [];
    }

    method Start(session: string, participant: string, handler: string, run: string,
                 principal: Option<Principal>, space: Option<string>)
      modifies this
      ensures Took(Step.Start(session, participant, handler, run, principal, space))
    {
      var key := KeyOf(session, participant);
      var seat := Seat(run, handler, principal, space, None, {}, None);
      if key in seats {
        var was := seats[key];
        seat := seat.(principal := OrElse(principal, was.principal), space := OrElse(space, was.space),
                      lastSeq := was.lastSeq, told := was.told, controller := was.controller);
      }
      if seat.space.None? && principal.Some? {
        seat := seat.(space := Some(principal.value.space));
      }
      seats := seats[key := seat];
    }

    /** A controller nobody sits behind is closed at once. */
    method AttachController(session: string, participant: string, controller: Controller) returns (closed: bool)
      modifies this
      ensures Took(Attach(session, participant, controller))
      ensures closed <==> KeyOf(session, participant) !in old(seats)
    {
      var key := KeyOf(session, participant);
      if key !in seats {
        return true;
      }
      seats := seats[key := seats[key].(controller := Some(controller))];
      FlushPending(key);
      closed := false;
    }

    method Notify(session: string, participant: string, row: Row)
      modifies this
      ensures Took(Step.Notify(session, participant, row))
    {
      var key := KeyOf(session, participant);
      if key in seats {
        if row.id in seats[key].told {
          return;
        }
        var typed := DeliverToPty(key, row);
        if typed {
          return;
        }
        if seats[key].principal.Some? {
          Deliver(key, row);
          return;
        }
      }
      var queued := if key in pending then pending[key] else [];
      if exists k | 0 <= k < |queued| :: queued[k].id == row.id {
        return;
      }
      NotQueued(queued, row.id);
      pending := pending[key := queued + [row]];
    }

    method BindPrincipal(session: string, participant: string, principal: Principal)
      modifies this
      ensures Took(Bind(session, participant, principal))
    {
      var key := KeyOf(session, participant);
      if key !in seats || !SameSpace(seats[key].space, principal.space) {
        return;
      }
      seats := seats[key := seats[key].(principal := Some(principal), space := Some(principal.space))];
      FlushPending(key);
    }

    /** `closed` are the controllers told to close. */
    method Revoke(session: string, only: Option<string>, snapshot: map<Controller, string>)
      returns (closed: set<Controller>)
      modifies this
      ensures Took(Step.Revoke(session, only, snapshot))
      ensures closed == ControllersOf(old(View()), Evicted(old(View()), Step.Revoke(session, only, snapshot)))
    {
      if NamesOne(only) {
        closed := RevokeOne(session, only, snapshot);
      } else {
        closed := RevokeSession(session, only, snapshot);
      }
    }

    method RevokeOne(session: string, only: Option<string>, snapshot: map<Controller, string>)
      returns (closed: set<Controller>)
      requires NamesOne(only)
      modifies this
      ensures Took(Step.Revoke(session, only, snapshot))
      ensures closed == ControllersOf(old(View()), Evicted(old(View()), Step.Revoke(session, only, snapshot)))
    {
      OneRevoked(View(), Step.Revoke(session, only, snapshot));
      var key := KeyOf(session, only.value);
      closed := {};
      if key in seats {
        closed := Dismiss(key, snapshot);
      } else {
        pending := pending - {key};
      }
    }

    method RevokeSession(session: string, only: Option<string>, snapshot: map<Controller, string>)
      returns (closed: set<Controller>)
      requires !NamesOne(only)
      modifies this
      ensures Took(Step.Revoke(session, only, snapshot))
      ensures closed == ControllersOf(old(View()), Evicted(old(View()), Step.Revoke(session, only, snapshot)))
    {
      ghost var e, s := Step.Revoke(session, only, snapshot), View();
      closed := {};
      var todo := seats.Keys;
      ghost var gone: set<Key> := {};
      while todo != {}
        invariant todo <= s.seats.Keys && outbox == old(outbox)
        invariant forall k :: k in gone <==> k in s.seats && k !in todo && Evicts(s, e, k)
        invariant seats == s.seats - gone && pending == s.pending - gone
        invariant archives == s.archives + ArchivesOf(s, gone, snapshot)
        invariant closed == ControllersOf(s, gone)
      {
        var key :| key in todo;
        if key.session == SessionId(session) {
          var more := Dismiss(key, snapshot);
          closed := closed + more;
          ArchiveOneMore(s, gone, key, snapshot);
          CloseOneMore(s, gone, key);
          gone := gone + {key};
        }
        todo := todo - {key};
      }
      AllDismissed(s, e, gone);
    }

    /** Archives one seat and takes it away, with its backlog. */
    method Dismiss(key: Key, snapshot: map<Controller, string>) returns (closed: set<Controller>)
      requires key in seats
      modifies this`seats, this`pending, this`archives
      ensures seats == old(seats) - {key} && pending == old(pending) - {key}
      ensures archives == old(archives)[key := ArchiveOf(old(seats)[key], snapshot)]
      ensures closed == if old(seats)[key].controller.Some? then {old(seats)[key].controller.value} else {}
    {
      archives := archives[key := ArchiveOf(seats[key], snapshot)];
      closed := if seats[key].controller.Some? then {seats[key].controller.value} else {};
      seats, pending := seats - {key}, pending - {key};
    }

    method FlushPending(key: Key)
      requires key in seats
      modifies this
      ensures View() == AfterFlush(old(View()), key, old(seats)[key])
      ensures outbox == old(outbox) + Flush(key, old(seats)[key], Backlog(old(View()), key)).sent
    {
      ghost var seat := seats[key];
      var queued := if key in pending then pending[key] else [];
      pending := pending - {key};
      var leftover: seq<Row> := [];
      for i := 0 to |queued|
        invariant key in seats && seats == old(seats)[key := seats[key]]
        invariant pending == old(pending) - {key} && archives == old(archives)
        invariant Flush(key, seat, queued[..i]).seat == seats[key]
        invariant Flush(key, seat, queued[..i]).left == leftover
        invariant outbox == old(outbox) + Flush(key, seat, queued[..i]).sent
      {
        assert queued[..i + 1][..i] == queued[..i];
        var row := queued[i];
        if row.id in seats[key].told {
          continue;
        }
        var typed := DeliverToPty(key, row);
        if typed {
          continue;
        }
        if seats[key].principal.Some? {
          Deliver(key, row);
          continue;
        }
        leftover := leftover + [row];
      }
      assert queued[..|queued|] == queued;
      if |leftover| > 0 {
        pending := pending[key := leftover];
      }
      assert pending == AfterFlush(old(View()), key, seat).pending;
    }

    /** Types the prompt into the seat's terminal, if there is something to type and to type into. */
    method DeliverToPty(key: Key, row: Row) returns (typed: bool)
      requires key in seats
      modifies this`seats, this`outbox
      ensures typed <==> TypedText(old(seats)[key], row).Some?
      ensures seats == if typed then old(seats)[key := Marked(old(seats)[key], row)] else old(seats)
      ensures outbox == old(outbox) + if typed then [Sent(key, row, Route(old(seats)[key], row).value)] else []
    {
      var text := TypedText(seats[key], row);
      if text.None? {
        return false;
      }
      outbox := outbox + [Sent(key, row, Typed(seats[key].controller.value, text.value))];
      seats := seats[key := Marked(seats[key], row)];
      typed := true;
    }

    /** Posts the message to the seat's principal. */
    method Deliver(key: Key, row: Row)
      requires key in seats && seats[key].principal.Some?
      modifies this`seats, this`outbox
      ensures seats == old(seats)[key := Marked(old(seats)[key], row)]
      ensures outbox == old(outbox) + [Sent(key, row, Posted(old(seats)[key].principal.value))]
    {
      outbox := outbox + [Sent(key, row, Posted(seats[key].principal.value))];
      seats := seats[key := Marked(seats[key], row)];
    }
  }

  // ---------------------------------------------------------------- a revoke half way through

  ghost function Evicted(s: State, e: Step): set<Key>
    requires e.Revoke?
  {
    set k | k in s.seats && Evicts(s, e, k)
  }

  ghost function ControllersOf(s: State, gone: set<Key>): set<Controller> {
    set k | k in gone && k in s.seats && s.seats[k].controller.Some? :: s.seats[k].controller.value
  }

  ghost function ArchivesOf(s: State, gone: set<Key>, snapshot: map<Controller, string>): map<Key, Archive> {
    map k | k in gone && k in s.seats :: ArchiveOf(s.seats[k], snapshot)
  }

  /** The tables once some of the seats have been archived and taken away. */
  ghost function Dismissed(s: State, gone: set<Key>, snapshot: map<Controller, string>): State {
    State(s.seats - gone, s.pending - gone, s.archives + ArchivesOf(s, gone, snapshot))
  }

  lemma ArchiveOneMore(s: State, gone: set<Key>, key: Key, snapshot: map<Controller, string>)
    requires key in s.seats
    ensures s.archives + ArchivesOf(s, gone + {key}, snapshot)
         == (s.archives + ArchivesOf(s, gone, snapshot))[key := ArchiveOf(s.seats[key], snapshot)]
  {
    assert ArchivesOf(s, gone + {key}, snapshot)
        == ArchivesOf(s, gone, snapshot)[key := ArchiveOf(s.seats[key], snapshot)];
  }

  lemma CloseOneMore(s: State, gone: set<Key>, key: Key)
    requires key in s.seats
    ensures ControllersOf(s, gone + {key})
         == ControllersOf(s, gone)
            + if s.seats[key].controller.Some? then {s.seats[key].controller.value} else {}
  {
  }

  lemma AllDismissed(s: State, e: Step, gone: set<Key>)
    requires e.Revoke? && !NamesOne(e.only)
    requires forall k :: k in gone <==> k in s.seats && Evicts(s, e, k)
    ensures Dismissed(s, gone, e.snapshot) == AfterRevoke(s, e) && gone == Evicted(s, e)
  {
    var t := Dismissed(s, gone, e.snapshot);
    assert t.seats == AfterRevoke(s, e).seats;
    assert t.pending == AfterRevoke(s, e).pending;
    assert t.archives == AfterRevoke(s, e).archives;
  }

  lemma OneRevoked(s: State, e: Step)
    requires e.Revoke? && NamesOne(e.only)
    ensures var key := KeyOf(e.session, e.only.value); var t := AfterRevoke(s, e);
      && t.seats == s.seats - {key} && t.pending == s.pending - {key}
      && t.archives == (if key in s.seats then s.archives[key := ArchiveOf(s.seats[key], e.snapshot)] else s.archives)
      && ControllersOf(s, Evicted(s, e)) == (if key in s.seats && s.seats[key].controller.Some?
                                             then {s.seats[key].controller.value} else {})
  {
  }

  lemma NotQueued(queued: seq<Row>, id: string)
    requires forall k :: 0 <= k < |queued| ==> queued[k].id != id
    ensures id !in Ids(queued)
  {
  }
}
